/** What an incremental read delivers, from the text of its two queries. */
module ReadMeaning {
  import opened Basics
  import opened Lexer
  import opened Statements
  import opened SqlText
  import opened Database
  import opened Timestamps
  import opened Select
  import opened Reader
  import opened BaseQueries
  import Base64

  // ---------------------------------------------------------------- joining a window to a WHERE clause

  /** Some conjunction before the last one holds: the window does not reach it. */
  predicate Earlier(row: Row, where: seq<seq<Cond>>) {
    exists i :: 0 <= i < |where| - 1 && MeetsAll(row, where[i])
  }

  lemma MeetsAllOne(row: Row, c: Cond)
    ensures MeetsAll(row, [c]) <==> Meets(row, c)
  {
    hide Meets;
    assert [c][0] == c;
  }

  lemma MeetsAllConcat(row: Row, a: seq<Cond>, b: seq<Cond>)
    ensures MeetsAll(row, a + b) <==> MeetsAll(row, a) && MeetsAll(row, b)
  {
    hide Meets;
    assert forall i :: 0 <= i < |a| ==> (a + b)[i] == a[i];
    assert forall i :: 0 <= i < |b| ==> (a + b)[|a| + i] == b[i];
  }

  lemma NarrowMatches(row: Row, where: seq<seq<Cond>>, window: seq<Cond>)
    ensures Matches(row, Narrow(where, window)) <==>
            Earlier(row, where) || (Matches(row, where) && MeetsAll(row, window))
  {
    hide Meets;
    if where == [] {
      assert Narrow(where, window)[0] == window;
    } else {
      var n, all := |where| - 1, Narrow(where, window);
      assert all[n] == where[n] + window;
      MeetsAllConcat(row, where[n], window);
      hide MeetsAll;
      assert forall i :: 0 <= i < n ==> all[i] == where[i];
      if Earlier(row, where) {
        var i :| 0 <= i < n && MeetsAll(row, where[i]);
        assert MeetsAll(row, all[i]);
      }
      if MeetsSome(row, all) {
        var i :| 0 <= i < |all| && MeetsAll(row, all[i]);
        assert i < n ==> Earlier(row, where);
        assert i == n ==> MeetsSome(row, where);
      }
      if MeetsSome(row, where) && MeetsAll(row, window) {
        var i :| 0 <= i < |where| && MeetsAll(row, where[i]);
        assert i == n ==> MeetsAll(row, all[n]);
      }
    }
  }

  /** What a window is meant to do: keep the base rows that lie in it. */
  function FilterBoth(where: seq<seq<Cond>>, window: seq<Cond>, rows: seq<Row>): seq<Row> {
    if rows == [] then []
    else (if Matches(rows[0], where) && MeetsAll(rows[0], window) then [rows[0]] else []) + FilterBoth(where, window, rows[1..])
  }

  /** The built condition means that exactly when no row outside the window satisfies an earlier disjunct. */
  lemma {:induction false} NarrowFilters(where: seq<seq<Cond>>, window: seq<Cond>, rows: seq<Row>)
    ensures Filter(Narrow(where, window), rows) == FilterBoth(where, window, rows) <==>
            forall row :: row in rows && Earlier(row, where) ==> MeetsAll(row, window)
    ensures |Filter(Narrow(where, window), rows)| >= |FilterBoth(where, window, rows)|
  {
    hide Matches;
    hide MeetsAll;
    hide Narrow;
    hide Earlier;
    if rows != [] {
      NarrowMatches(rows[0], where, window);
      EarlierMatches(rows[0], where);
      NarrowFilters(where, window, rows[1..]);
      var f, g := Filter(Narrow(where, window), rows[1..]), FilterBoth(where, window, rows[1..]);
      assert rows == [rows[0]] + rows[1..];
      assert forall row :: row in rows <==> row == rows[0] || row in rows[1..];
      if Matches(rows[0], where) && MeetsAll(rows[0], window) {
        assert ([rows[0]] + f)[1..] == f && ([rows[0]] + g)[1..] == g;
      } else {
        assert [] + g == g && [] + f == f;
      }
    }
  }

  lemma EarlierMatches(row: Row, where: seq<seq<Cond>>)
    ensures Earlier(row, where) ==> Matches(row, where)
  {
    if Earlier(row, where) {
      var i :| 0 <= i < |where| - 1 && MeetsAll(row, where[i]);
    }
  }

  /** A purely conjunctive base query, or none, is always narrowed as meant. */
  lemma {:induction false} ConjunctionNarrows(where: seq<seq<Cond>>, window: seq<Cond>, rows: seq<Row>)
    requires |where| <= 1
    ensures Filter(Narrow(where, window), rows) == FilterBoth(where, window, rows)
  {
    NarrowFilters(where, window, rows);
  }

  /** The two branches denote the same query when both name the same table and the base has no WHERE. */
  lemma {:induction false} BranchesAgree(def: Definition, since: string, maxSince: string, limit: int)
    requires Columns(def).Some? && def.sinceTable == def.tableName != "" && def.sinceColumn != "" && maxSince != ""
    requires var base := BaseText(def, Columns(def).value);
             ParseQuery(base).Some? && ParseQuery(base).value.limit.None? && ParseQuery(base).value.where == [] && !Contains(base, "WHERE")
    requires IsWord(Reference(def)) && IsPlain(maxSince) && (since != "" ==> From(since).Some? && IsPlain(From(since).value))
    ensures var a, b := BuildQuery(def, since, maxSince, limit), BuildQuery(def.(sinceTable := ""), since, maxSince, limit);
            a.Ok? && b.Ok? && ParseQuery(a.value) == ParseQuery(b.value) && (ParseQuery(a.value).Some? <==> limit >= 0)
  {
    hide ParseQuery;
    hide BuildQuery;
    BuiltQuery(def, since, maxSince, limit);
    BuiltQuery(def.(sinceTable := ""), since, maxSince, limit);
  }

  // ---------------------------------------------------------------- windows over stamps

  lemma {:induction false} LastPointOf(t: string, c: string)
    requires forall i :: 0 <= i < |c| ==> c[i] != '.'
    ensures LastPoint(t + "." + c) == |t| + 1
    decreases |c|
  {
    var w := t + "." + c;
    if c != "" {
      assert w[..|w| - 1] == t + "." + c[..|c| - 1];
      LastPointOf(t, c[..|c| - 1]);
    }
  }

  /** The table that the window is on. */
  function SinceTable(def: Definition): string { if def.sinceTable != "" then def.sinceTable else def.tableName }

  /** Incremental reads of one table, by any base query on it that is not limited. */
  ghost predicate Incremental(def: Definition, name: string) {
    && def.sinceColumn != "" && IsWord(def.sinceColumn) && (forall i :: 0 <= i < |def.sinceColumn| ==> def.sinceColumn[i] != '.')
    && IsWord(name) && SinceTable(def) == name
    && BaseQuery(def).Some? && Resolves(BaseQuery(def).value, name) && BaseQuery(def).value.limit.None?
  }

  /** Incremental reads of the whole table. */
  ghost predicate WholeTable(def: Definition, name: string) {
    Incremental(def, name) && BaseQuery(def).value.where == [] && Guarded(def)
  }

  lemma ReferenceOf(def: Definition, name: string)
    requires Incremental(def, name)
    ensures IsWord(Reference(def)) && ColumnName(Reference(def)) == Lower(def.sinceColumn) && Qualifier(Reference(def)) == name
  {
    var w := name + "." + def.sinceColumn;
    assert Reference(def) == w;
    LastPointOf(name, def.sinceColumn);
    assert w[|name| + 1..] == def.sinceColumn && w[..|name|] == name;
  }

  /** The stamp of a row in the since column. */
  function StampOf(def: Definition, row: Row): Option<Time> {
    match CellIn(row, Lower(def.sinceColumn)) case Stamp(t) => Some(t) case _ => None
  }

  function RankOf(def: Definition, row: Row): nat {
    match StampOf(def, row) case Some(t) => Rank(t) case None => 0
  }

  /** Every row has a stamp that a DATETIME(6) column can hold, later than Go's zero time. */
  ghost predicate Stamps(def: Definition, rows: seq<Row>) {
    forall row :: row in rows ==> StampOf(def, row).Some? && IsStored(StampOf(def, row).value)
  }

  predicate IsStored(t: Time) { Proper(t) && CutTo(t, 6) == t && Rank(t) > Rank(ZERO) }

  /** SELECT MAX: the latest stamp, or NULL when there is none. */
  function MaxStamp(def: Definition, rows: seq<Row>): Option<Time> {
    if rows == [] then None
    else
      match (MaxStamp(def, rows[..|rows| - 1]), StampOf(def, rows[|rows| - 1]))
      case (None, s) => s
      case (m, None) => m
      case (Some(m), Some(t)) => if Rank(m) < Rank(t) then Some(t) else Some(m)
  }

  lemma {:induction false} MaxStampIsMax(def: Definition, rows: seq<Row>)
    requires Stamps(def, rows)
    ensures MaxStamp(def, rows).None? <==> rows == []
    ensures MaxStamp(def, rows).Some? ==>
              IsStored(MaxStamp(def, rows).value) &&
              (exists row :: row in rows && RankOf(def, row) == Rank(MaxStamp(def, rows).value)) &&
              forall row :: row in rows ==> RankOf(def, row) <= Rank(MaxStamp(def, rows).value)
  {
    hide Rank;
    hide IsStored;
    hide CellIn;
    if rows != [] {
      var init, last := rows[..|rows| - 1], rows[|rows| - 1];
      assert rows == init + [last] && last in rows;
      assert forall row :: row in init ==> row in rows;
      MaxStampIsMax(def, init);
      assert forall row :: row in rows ==> row in init || row == last;
      assert RankOf(def, last) == Rank(StampOf(def, last).value);
    }
  }

  /** Text of a maximum, and the token it becomes: NULL leaves no text and the zero time. */
  function MaxText(max: Option<Time>): string { match max case Some(t) => Format(t) case None => "" }

  function TokenOf(max: Option<Time>): string
  {
    var text := Format(match max case Some(t) => t case None => ZERO);
    if Base64.IsBytes(text) then Base64.Encode(text) else ""
  }

  lemma FormatIsPlain(t: Time)
    ensures IsPlain(Format(t)) && Base64.IsBytes(Format(t))
  {
    hide Pad;
    var s := Format(t);
    forall i | 0 <= i < |s| ensures s[i] != '\'' && s[i] != '\\' && s[i] as int < 256 {
      FormatChar(t, i);
    }
  }

  lemma FormatChar(t: Time, i: nat)
    requires i < |Format(t)|
    ensures IsDigit(Format(t)[i]) || Format(t)[i] in {'-', ':', ' ', '.'}
  {
    hide Pad;
    hide Micro;
    var d, c, f := DateText(t), ClockText(t), Pad(Micro(t), 6);
    if i < 10 {
      assert Format(t)[i] == d[i];
    } else if 11 <= i < 19 {
      assert Format(t)[i] == c[i - 11];
    } else if i >= 20 {
      assert Format(t)[i] == f[i - 20];
    }
  }

  /** The token of a read decodes in the next read to exactly the bound that read used. */
  lemma {:induction false} TokenRoundTrip(t: Time)
    requires IsStored(t) || t == ZERO
    ensures From(TokenOf(Some(t))) == Some(Format(t)) && TokenOf(Some(t)) != ""
    ensures ParseStamp(Format(t)) == Some(t)
  {
    FormatIsPlain(t);
    Base64.RoundTrip(Format(t));
    StampRoundTrip(t);
    Powers();
  }

  lemma PadOne()
    ensures Pad(1, 4) == "0001" && Pad(1, 2) == "01" && Pad(0, 2) == "00" && Pad(0, 6) == "000000"
  {
    assert Pad(0, 2) == "00";
    assert Pad(0, 3) == "000";
    assert Pad(0, 4) == "0000";
    assert Pad(0, 5) == "00000";
  }

  lemma ZeroText()
    ensures Format(ZERO) == "0001-01-01 00:00:00.000000"
  {
    PadOne();
    hide Pad;
    hide DateText;
    hide ClockText;
    assert Micro(ZERO) == 0;
    assert DateText(ZERO) == "0001-01-01" by { ZeroDate(); }
    assert ClockText(ZERO) == "00:00:00" by { ZeroClock(); }
  }

  lemma ZeroDate()
    ensures DateText(ZERO) == "0001-01-01"
  {
    PadOne();
    hide Pad;
  }

  lemma ZeroClock()
    ensures ClockText(ZERO) == "00:00:00"
  {
    PadOne();
    hide Pad;
  }

  /** Without a maximum the token decodes to the zero time. */
  lemma NullToken()
    ensures From(TokenOf(None)) == Some("0001-01-01 00:00:00.000000")
  {
    TokenRoundTrip(ZERO);
    ZeroText();
    assert TokenOf(None) == TokenOf(Some(ZERO));
    hide *;
  }

  /** The bound that a token stands for; the empty token is the first read. */
  ghost predicate Denotes(token: string, mark: Option<Time>) {
    match mark
    case None => token == ""
    case Some(t) => (IsStored(t) || t == ZERO) && token == TokenOf(Some(t))
  }

  function RankOfMark(mark: Option<Time>): nat { match mark case Some(t) => Rank(t) case None => 0 }

  /** After the mark and up to the maximum; everything when the maximum is NULL. */
  predicate InWindow(def: Definition, mark: Option<Time>, max: Option<Time>, row: Row) {
    max.None? || (RankOfMark(mark) < RankOf(def, row) <= RankOfMark(max))
  }

  function MarkText(mark: Option<Time>): Option<string> { match mark case Some(t) => Some(Format(t)) case None => None }

  /** A bound of the window compares the stamp of the row with the time its text denotes. */
  lemma BoundMeans(def: Definition, name: string, t: Time, row: Row)
    requires Incremental(def, name) && StampOf(def, row).Some? && (IsStored(t) || t == ZERO)
    ensures Meets(row, Cond(Reference(def), Greater, LText(Format(t)))) <==> RankOf(def, row) > Rank(t)
    ensures Meets(row, Cond(Reference(def), AtMost, LText(Format(t)))) <==> RankOf(def, row) <= Rank(t)
  {
    ReferenceOf(def, name);
    TokenRoundTrip(t);
    hide *;
    StampCompared(def, row, Reference(def), Format(t), t);
  }

  lemma StampCompared(def: Definition, row: Row, ref: string, text: string, t: Time)
    requires ColumnName(ref) == Lower(def.sinceColumn) && StampOf(def, row).Some? && ParseStamp(text) == Some(t)
    ensures Meets(row, Cond(ref, Greater, LText(text))) <==> RankOf(def, row) > Rank(t)
    ensures Meets(row, Cond(ref, AtMost, LText(text))) <==> RankOf(def, row) <= Rank(t)
  {
    hide ParseStamp;
    hide Rank;
    hide Lower;
    hide ColumnName;
  }

  lemma WindowMeets(row: Row, ref: string, since: Option<string>, maxSince: string)
    ensures MeetsAll(row, WindowConds(ref, since, maxSince)) <==>
            (since.Some? ==> Meets(row, Cond(ref, Greater, LText(since.value)))) && Meets(row, Cond(ref, AtMost, LText(maxSince)))
  {
    hide Meets;
    var cs, upper := WindowConds(ref, since, maxSince), Cond(ref, AtMost, LText(maxSince));
    MeetsAllOne(row, upper);
    match since {
      case None => assert cs == [upper];
      case Some(s) =>
        MeetsAllOne(row, Cond(ref, Greater, LText(s)));
        MeetsAllConcat(row, [Cond(ref, Greater, LText(s))], [upper]);
    }
  }

  /** A row meets the conditions of the window iff its stamp is after the mark and not after the maximum. */
  lemma {:induction false} WindowIsRange(def: Definition, name: string, mark: Option<Time>, max: Time, row: Row)
    requires Incremental(def, name) && IsStored(max) && StampOf(def, row).Some? && IsStored(StampOf(def, row).value)
    requires mark.Some? ==> IsStored(mark.value) || mark.value == ZERO
    ensures MeetsAll(row, WindowConds(Reference(def), MarkText(mark), Format(max))) <==> InWindow(def, mark, Some(max), row)
  {
    assert RankOf(def, row) > 0;
    BoundMeans(def, name, max, row);
    if mark.Some? { BoundMeans(def, name, mark.value, row); }
    WindowMeets(row, Reference(def), MarkText(mark), Format(max));
    hide Format;
    hide Meets;
    hide MeetsAll;
    hide WindowConds;
    hide Rank;
    hide RankOf;
    hide IsStored;
    hide Reference;
    hide Incremental;
    hide StampOf;
  }

  // ---------------------------------------------------------------- one read

  /** The rows that the data query of a read selects from a listing of the table. */
  function ReadRows(def: Definition, name: string, token: string, max: Option<Time>, limit: int, rows: seq<Row>): Option<seq<Row>> {
    match BuildQuery(def, token, MaxText(max), limit)
    case Err(_) => None
    case Ok(text) =>
      match ParseQuery(text)
      case None => None
      case Some(q) => Selected(q, name, rows)
  }

  /** What a consumer is given: the selected columns of those rows. */
  function ReadGiven(def: Definition, name: string, token: string, max: Option<Time>, limit: int, rows: seq<Row>): Option<seq<Row>> {
    match BuildQuery(def, token, MaxText(max), limit)
    case Err(_) => None
    case Ok(text) =>
      match ParseQuery(text)
      case None => None
      case Some(q) =>
        match Selected(q, name, rows) case None => None case Some(selected) => Some(ProjectAll(q.cols, selected))
  }

  /** The first rows up to a limit, where zero is none. */
  function FirstRows(rows: seq<Row>, limit: nat): seq<Row> {
    if limit != 0 && limit < |rows| then rows[..limit] else rows
  }

  /** What a read is meant to deliver: the rows of the base query that lie in the window. */
  function WindowRows(def: Definition, where: seq<seq<Cond>>, mark: Option<Time>, max: Option<Time>, rows: seq<Row>): seq<Row> {
    if rows == [] then []
    else
      (if Matches(rows[0], where) && InWindow(def, mark, max, rows[0]) then [rows[0]] else []) +
      WindowRows(def, where, mark, max, rows[1..])
  }

  lemma {:induction false} WindowRowsExact(def: Definition, where: seq<seq<Cond>>, mark: Option<Time>, max: Option<Time>, rows: seq<Row>)
    ensures forall row :: row in WindowRows(def, where, mark, max, rows) <==>
              row in rows && Matches(row, where) && InWindow(def, mark, max, row)
    ensures Distinct(rows) ==> Distinct(WindowRows(def, where, mark, max, rows))
  {
    hide Matches;
    hide InWindow;
    if rows != [] {
      WindowRowsExact(def, where, mark, max, rows[1..]);
      assert rows == [rows[0]] + rows[1..];
    }
  }

  /** No row outside the window satisfies an alternative before the last one. */
  ghost predicate NoLeak(def: Definition, where: seq<seq<Cond>>, mark: Option<Time>, max: Option<Time>, rows: seq<Row>) {
    forall row :: row in rows && Earlier(row, where) ==> InWindow(def, mark, max, row)
  }

  lemma {:induction false} ConjunctionsDoNotLeak(def: Definition, where: seq<seq<Cond>>, mark: Option<Time>, max: Option<Time>, rows: seq<Row>)
    requires |where| <= 1
    ensures NoLeak(def, where, mark, max, rows)
  {
  }

  /**
   * What a read delivers, for every unlimited base query on the table. It succeeds exactly when the
   * limit is not negative and, if there is a maximum, the text has the shape its branch expects. Then it
   * delivers the first rows, up to the limit, of those that the base query selects and that lie in the
   * window, unless a row leaks through an alternative; without a limit, exactly unless one does.
   */
  lemma {:induction false} ReadMeans(def: Definition, name: string, token: string, mark: Option<Time>, max: Option<Time>, limit: int, rows: seq<Row>)
    requires Incremental(def, name) && Denotes(token, mark) && Stamps(def, rows) && (max.Some? ==> IsStored(max.value))
    ensures var r, where := ReadRows(def, name, token, max, limit, rows), BaseQuery(def).value.where;
            var wanted := WindowRows(def, where, mark, max, rows);
            && (r.Some? <==> limit >= 0 && (max.None? || Guarded(def)))
            && (r.Some? && NoLeak(def, where, mark, max, rows) ==> r.value == FirstRows(wanted, limit))
            && (r.Some? && limit == 0 ==> (r.value == wanted <==> NoLeak(def, where, mark, max, rows)))
  {
    hide *;
    IncrementalFacts(def, name);
    var where := BaseQuery(def).value.where;
    match max {
      case None =>
        ReadAll(def, name, token, limit, rows);
        UnboundedWindow(def, where, mark, rows);
        if limit >= 0 { NoLimit(Filter(where, rows)); }
      case Some(m) =>
        ReadText(def, name, token, mark, m, limit, rows);
        MarkIsTime(token, mark);
        BoundedWindow(def, name, where, mark, m, rows);
        if limit >= 0 { NoLimit(Filter(Narrow(where, WindowConds(Reference(def), MarkText(mark), Format(m))), rows)); }
    }
  }

  lemma NoLimit(rows: seq<Row>)
    ensures FirstRows(rows, 0) == rows
  {
  }

  /** With no maximum there is no window. */
  lemma {:induction false} UnboundedWindow(def: Definition, where: seq<seq<Cond>>, mark: Option<Time>, rows: seq<Row>)
    ensures WindowRows(def, where, mark, None, rows) == Filter(where, rows) && NoLeak(def, where, mark, None, rows)
  {
    hide Matches;
    hide Earlier;
    if rows != [] { UnboundedWindow(def, where, mark, rows[1..]); }
  }

  /** The built condition filters by the window exactly when no row leaks. */
  lemma {:induction false} BoundedWindow(def: Definition, name: string, where: seq<seq<Cond>>, mark: Option<Time>, max: Time, rows: seq<Row>)
    requires Incremental(def, name) && IsStored(max) && Stamps(def, rows) && (mark.Some? ==> IsStored(mark.value) || mark.value == ZERO)
    ensures var window := WindowConds(Reference(def), MarkText(mark), Format(max));
            Filter(Narrow(where, window), rows) == WindowRows(def, where, mark, Some(max), rows) <==> NoLeak(def, where, mark, Some(max), rows)
  {
    hide *;
    var window := WindowConds(Reference(def), MarkText(mark), Format(max));
    forall row | row in rows ensures MeetsAll(row, window) <==> InWindow(def, mark, Some(max), row) {
      StampedRow(def, rows, row);
      WindowIsRange(def, name, mark, max, row);
    }
    NarrowFilters(where, window, rows);
    BothIsWindow(def, where, window, mark, Some(max), rows);
    LeakIff(def, where, window, mark, Some(max), rows);
  }

  lemma {:induction false} BothIsWindow(def: Definition, where: seq<seq<Cond>>, window: seq<Cond>, mark: Option<Time>, max: Option<Time>, rows: seq<Row>)
    requires forall row :: row in rows ==> (MeetsAll(row, window) <==> InWindow(def, mark, max, row))
    ensures FilterBoth(where, window, rows) == WindowRows(def, where, mark, max, rows)
  {
    hide Matches;
    hide MeetsAll;
    hide InWindow;
    if rows != [] { BothIsWindow(def, where, window, mark, max, rows[1..]); }
  }

  lemma LeakIff(def: Definition, where: seq<seq<Cond>>, window: seq<Cond>, mark: Option<Time>, max: Option<Time>, rows: seq<Row>)
    requires forall row :: row in rows ==> (MeetsAll(row, window) <==> InWindow(def, mark, max, row))
    ensures NoLeak(def, where, mark, max, rows) <==> forall row :: row in rows && Earlier(row, where) ==> MeetsAll(row, window)
  {
    hide Earlier;
    hide MeetsAll;
    hide InWindow;
  }

  lemma MarkIsTime(token: string, mark: Option<Time>)
    requires Denotes(token, mark)
    ensures mark.Some? ==> IsStored(mark.value) || mark.value == ZERO
  {
  }

  lemma StampedRow(def: Definition, rows: seq<Row>, row: Row)
    requires Stamps(def, rows) && row in rows
    ensures StampOf(def, row).Some? && IsStored(StampOf(def, row).value)
  {
  }

  /** Without a maximum the text of a read only limits. */
  lemma {:induction false} ReadAll(def: Definition, name: string, token: string, limit: int, rows: seq<Row>)
    requires Incremental(def, name)
    ensures ReadRows(def, name, token, None, limit, rows) ==
            if limit >= 0 then Some(FirstRows(Filter(BaseQuery(def).value.where, rows), limit)) else None
  {
    IncrementalFacts(def, name);
    assert Unwindowed(def, "") && MaxText(None) == "";
    hide *;
    BuiltUnwindowed(def, token, "", limit);
    var q := BaseQuery(def).value;
    if limit >= 0 {
      ReadBuilt(def, name, token, None, limit, BuildQuery(def, token, "", limit).value, q.(limit := LimitOf(limit)), rows);
      SelectsFirst(q, name, q.where, limit, rows);
      assert q.(where := q.where, limit := LimitOf(limit)) == q.(limit := LimitOf(limit));
    } else {
      ReadFails(def, name, token, None, limit, BuildQuery(def, token, "", limit).value, rows);
    }
  }

  /** The base query and the since column of an incremental read. */
  lemma IncrementalFacts(def: Definition, name: string)
    requires Incremental(def, name)
    ensures Columns(def).Some? && (forall t :: !Unwindowed(def, Format(t))) && BaseQuery(def).Some?
    ensures var base := BaseText(def, Columns(def).value);
            ParseQuery(base) == BaseQuery(def) && (Guarded(def) <==> Guard(def, base, BaseQuery(def).value))
    ensures BaseQuery(def).value.limit == None && Resolves(BaseQuery(def).value, name)
  {
    hide ParseQuery;
    hide IsWord;
    hide Columns;
    hide BaseText;
    hide Guard;
    hide DateText;
    hide ClockText;
    hide Resolves;
  }

  lemma TokenIsMark(token: string, mark: Option<Time>)
    requires Denotes(token, mark)
    ensures From(token) == MarkText(mark) && (token != "" ==> From(token).Some? && IsPlain(From(token).value))
  {
    if mark.Some? { TokenRoundTrip(mark.value); FormatIsPlain(mark.value); }
    hide TokenOf;
    hide Format;
    hide IsPlain;
    hide IsStored;
  }

  lemma {:induction false} SelectsFirst(q: Query, name: string, where: seq<seq<Cond>>, limit: nat, rows: seq<Row>)
    requires Resolves(q.(where := where), name)
    ensures Selected(q.(where := where, limit := LimitOf(limit)), name, rows) == Some(FirstRows(Filter(where, rows), limit))
  {
    hide Filter;
    hide Qualifier;
  }

  lemma NarrowResolves(q: Query, name: string, ref: string, since: Option<string>, maxSince: string)
    requires Resolves(q, name) && Qualifier(ref) == name
    ensures Resolves(q.(where := Narrow(q.where, WindowConds(ref, since, maxSince))), name)
  {
    hide Qualifier;
    var where, window := q.where, WindowConds(ref, since, maxSince);
    var all: seq<seq<Cond>> := Narrow(where, window);
    var n := |where| - 1;
    assert forall k :: 0 <= k < |window| ==> window[k].col == ref;
    forall i: int, j: int | 0 <= i < |all| && 0 <= j < |all[i]| ensures Qualifier(all[i][j].col) in {"", name} {
      if i == n {
        assert all[i] == where[n] + window;
        assert j >= |where[n]| ==> all[i][j] == window[j - |where[n]|];
      }
    }
  }

  lemma ReadBuilt(def: Definition, name: string, token: string, max: Option<Time>, limit: int, text: string, q: Query, rows: seq<Row>)
    requires BuildQuery(def, token, MaxText(max), limit) == Ok(text) && ParseQuery(text) == Some(q)
    ensures ReadRows(def, name, token, max, limit, rows) == Selected(q, name, rows)
  {
    hide BuildQuery;
    hide ParseQuery;
    hide Selected;
  }

  lemma ReadFails(def: Definition, name: string, token: string, max: Option<Time>, limit: int, text: string, rows: seq<Row>)
    requires BuildQuery(def, token, MaxText(max), limit) == Ok(text) && ParseQuery(text).None?
    ensures ReadRows(def, name, token, max, limit, rows).None?
  {
    hide BuildQuery;
    hide ParseQuery;
  }

  /** The text of a read with a maximum narrows the base query by its window, then limits. */
  lemma {:induction false} ReadText(def: Definition, name: string, token: string, mark: Option<Time>, max: Time, limit: int, rows: seq<Row>)
    requires Incremental(def, name) && Denotes(token, mark) && IsStored(max)
    ensures ReadRows(def, name, token, Some(max), limit, rows) ==
            if limit < 0 || !Guarded(def) then None
            else
              var window := WindowConds(Reference(def), MarkText(mark), Format(max));
              Some(FirstRows(Filter(Narrow(BaseQuery(def).value.where, window), rows), limit))
  {
    assert MaxText(Some(max)) == Format(max);
    hide *;
    IncrementalFacts(def, name);
    ReferenceOf(def, name);
    TokenIsMark(token, mark);
    FormatIsPlain(max);
    BuiltQuery(def, token, Format(max), limit);
    var q, text := BaseQuery(def).value, BuildQuery(def, token, Format(max), limit).value;
    var where := Narrow(q.where, WindowConds(Reference(def), MarkText(mark), Format(max)));
    if limit >= 0 && Guarded(def) {
      ReadBuilt(def, name, token, Some(max), limit, text, q.(where := where, limit := LimitOf(limit)), rows);
      NarrowResolves(q, name, Reference(def), MarkText(mark), Format(max));
      SelectsFirst(q, name, where, limit, rows);
    } else {
      ReadFails(def, name, token, Some(max), limit, text, rows);
    }
  }

  /** Whatever the limit and the window, a read gives the columns of the base query of the rows it selects. */
  lemma GivenIsProjected(def: Definition, name: string, token: string, mark: Option<Time>, max: Option<Time>, limit: int, rows: seq<Row>)
    requires Incremental(def, name) && Denotes(token, mark) && (max.Some? ==> IsStored(max.value))
    ensures var r := ReadRows(def, name, token, max, limit, rows);
            ReadGiven(def, name, token, max, limit, rows) == match r case None => None case Some(selected) => Some(ProjectAll(Shape(def), selected))
  {
    BuiltColumns(def, name, token, mark, max, limit);
    assert BaseQuery(def).Some? ==> Shape(def) == BaseQuery(def).value.cols;
    hide BuildQuery;
    hide ParseQuery;
    hide Selected;
    hide ProjectAll;
    hide Shape;
  }

  lemma BuiltColumns(def: Definition, name: string, token: string, mark: Option<Time>, max: Option<Time>, limit: int)
    requires Incremental(def, name) && Denotes(token, mark) && (max.Some? ==> IsStored(max.value))
    ensures var text := BuildQuery(def, token, MaxText(max), limit);
            text.Ok? && ParseQuery(text.value).Some? ==> ParseQuery(text.value).value.cols == Shape(def)
  {
    IncrementalFacts(def, name);
    assert BaseQuery(def).Some? ==> Shape(def) == BaseQuery(def).value.cols;
    assert Unwindowed(def, "") && MaxText(None) == "" && (max.Some? ==> MaxText(max) == Format(max.value));
    hide *;
    match max {
      case None => BuiltUnwindowed(def, token, "", limit);
      case Some(m) =>
        ReferenceOf(def, name);
        TokenIsMark(token, mark);
        FormatIsPlain(m);
        BuiltQuery(def, token, Format(m), limit);
    }
  }

  /** A read of the whole table without a limit delivers exactly the rows in its window, each once. */
  lemma {:induction false} WholeTableRead(def: Definition, name: string, token: string, mark: Option<Time>, max: Option<Time>, rows: seq<Row>)
    requires WholeTable(def, name) && Denotes(token, mark) && Stamps(def, rows) && (max.Some? ==> IsStored(max.value))
    ensures var r := ReadRows(def, name, token, max, 0, rows);
            && r.Some?
            && (forall row :: row in r.value <==> row in rows && InWindow(def, mark, max, row))
            && (Distinct(rows) ==> Distinct(r.value))
  {
    assert Incremental(def, name) && Guarded(def) && BaseQuery(def).value.where == [];
    assert forall row :: Matches(row, []);
    hide *;
    ReadMeans(def, name, token, mark, max, 0, rows);
    ConjunctionsDoNotLeak(def, [], mark, max, rows);
    WindowRowsExact(def, [], mark, max, rows);
  }

  /**
   * A limit keeps all rows of the window exactly when they fit. The token is the maximum all the same,
   * so the next read, by the same definition and with any limit, delivers none of the rows that were cut off.
   */
  lemma {:induction false} LimitLosesRows(def: Definition, name: string, token: string, mark: Option<Time>, max: Time, limit: nat, rows: seq<Row>,
                       next: Time, limit': int, rows': seq<Row>, row: Row)
    requires Incremental(def, name) && Denotes(token, mark) && Stamps(def, rows) && Stamps(def, rows') && IsStored(max) && IsStored(next)
    requires |BaseQuery(def).value.where| <= 1 && Guarded(def) && limit != 0
    ensures var r, later := ReadRows(def, name, token, Some(max), limit, rows), ReadRows(def, name, TokenOf(Some(max)), Some(next), limit', rows');
            var wanted := WindowRows(def, BaseQuery(def).value.where, mark, Some(max), rows);
            && r.Some? && (r.value == wanted <==> |wanted| <= limit)
            && (row in wanted && later.Some? ==> row !in later.value)
  {
    var where := BaseQuery(def).value.where;
    assert Denotes(TokenOf(Some(max)), Some(max));
    hide *;
    ReadMeans(def, name, token, mark, Some(max), limit, rows);
    ConjunctionsDoNotLeak(def, where, mark, Some(max), rows);
    CutShort(WindowRows(def, where, mark, Some(max), rows), limit);
    WindowRowsExact(def, where, mark, Some(max), rows);
    ReadMeans(def, name, TokenOf(Some(max)), Some(max), Some(next), limit', rows');
    ConjunctionsDoNotLeak(def, where, Some(max), Some(next), rows');
    WindowRowsExact(def, where, Some(max), Some(next), rows');
    if limit' >= 0 { FirstAreRows(WindowRows(def, where, Some(max), Some(next), rows'), limit'); }
    WindowsMeet(def, mark, max, next, row);
  }

  lemma CutShort(rows: seq<Row>, limit: nat)
    requires limit != 0
    ensures FirstRows(rows, limit) == rows <==> |rows| <= limit
  {
    if limit < |rows| { assert |rows[..limit]| != |rows|; }
  }

  lemma FirstAreRows(rows: seq<Row>, limit: nat)
    ensures forall row :: row in FirstRows(rows, limit) ==> row in rows
  {
  }

  /** Consecutive windows do not overlap. */
  lemma WindowsMeet(def: Definition, mark: Option<Time>, max: Time, next: Time, row: Row)
    ensures InWindow(def, mark, Some(max), row) ==> !InWindow(def, Some(max), Some(next), row)
  {
    hide Rank;
    hide RankOf;
  }

  // ---------------------------------------------------------------- a base query that leaks

  /** A row that satisfies an earlier alternative is delivered although it is not in the window. */
  lemma {:induction false} LeakedRow(def: Definition, name: string, token: string, mark: Option<Time>, max: Time, row: Row)
    requires Incremental(def, name) && Guarded(def) && Denotes(token, mark) && IsStored(max)
    requires Earlier(row, BaseQuery(def).value.where) && !InWindow(def, mark, Some(max), row)
    ensures ReadRows(def, name, token, Some(max), 0, [row]) == Some([row])
    ensures WindowRows(def, BaseQuery(def).value.where, mark, Some(max), [row]) == []
  {
    ReadText(def, name, token, mark, max, 0, [row]);
    var where, window := BaseQuery(def).value.where, WindowConds(Reference(def), MarkText(mark), Format(max));
    NarrowMatches(row, where, window);
    assert [row][1..] == [] && [row] + [] == [row];
    hide Earlier;
    hide Matches;
    hide InWindow;
    hide Narrow;
    hide ReadRows;
    hide Incremental;
  }

  const LEAKING_TEXT := "SELECT * FROM t WHERE a = 1 OR b = 2"

  /** A read of a table t by a base query with two alternatives. */
  function LeakingDefinition(): Definition { Definition("t", "since", "t", LEAKING_TEXT, "", Some(Outgoing(true, []))) }

  function LeakingQuery(): Query { Query(["*"], "t", [[Cond("a", Equal, LNum(1))], [Cond("b", Equal, LNum(2))]], None) }

  lemma LexEqual()
    ensures Lex("= ") == Some([Sym('=')])
  {
    hide Lex;
    assert "= "[1..] == " ";
    assert First("= ") == Take(Sym('='), 1);
    FirstIsAll("= ", Sym('='), 1);
  }

  /** One more word before a space. */
  lemma {:induction false} LexMore(text: string, ts: seq<Token>, piece: string, t: Token)
    requires Lex(text) == Some(ts) && Lex(piece) == Some([t]) && text != "" && text[|text| - 1] == ' ' && piece != ""
    ensures Lex(text + piece) == Some(ts + [t])
  {
    hide Lex;
    assert IsBreak(text[|text| - 1]);
    Glue(text, ts, piece, [t]);
  }

  lemma LexLeakingHead()
    ensures Lex("SELECT * FROM t WHERE ") == Some([Word("SELECT"), Word("*"), Word("FROM"), Word("t"), Word("WHERE")])
  {
    hide Lex;
    LexSpaced("SELECT");
    LexSpaced("*");
    LexSpaced("FROM");
    LexSpaced("t");
    LexSpaced("WHERE");
    assert "SELECT" + " " == "SELECT " && "SELECT " + ("*" + " ") == "SELECT * " && "SELECT * " + ("FROM" + " ") == "SELECT * FROM ";
    assert "SELECT * FROM " + ("t" + " ") == "SELECT * FROM t " && "SELECT * FROM t " + ("WHERE" + " ") == "SELECT * FROM t WHERE ";
    LexMore("SELECT ", [Word("SELECT")], "*" + " ", Word("*"));
    LexMore("SELECT * ", [Word("SELECT")] + [Word("*")], "FROM" + " ", Word("FROM"));
    LexMore("SELECT * FROM ", [Word("SELECT")] + [Word("*")] + [Word("FROM")], "t" + " ", Word("t"));
    LexMore("SELECT * FROM t ", [Word("SELECT")] + [Word("*")] + [Word("FROM")] + [Word("t")], "WHERE" + " ", Word("WHERE"));
    assert [Word("SELECT")] + [Word("*")] + [Word("FROM")] + [Word("t")] + [Word("WHERE")] ==
           [Word("SELECT"), Word("*"), Word("FROM"), Word("t"), Word("WHERE")];
  }

  lemma LexLeakingTail()
    ensures Lex("a = 1 OR b = 2") == Some([Word("a"), Sym('='), Word("1"), Word("OR"), Word("b"), Sym('='), Word("2")])
  {
    hide Lex;
    LexSpaced("a");
    LexSpaced("1");
    LexSpaced("OR");
    LexSpaced("b");
    LexWord("2");
    LexEqual();
    assert "a" + " " == "a " && "a " + "= " == "a = " && "a = " + ("1" + " ") == "a = 1 " && "a = 1 " + ("OR" + " ") == "a = 1 OR ";
    assert "a = 1 OR " + ("b" + " ") == "a = 1 OR b " && "a = 1 OR b " + "= " == "a = 1 OR b = " && "a = 1 OR b = " + "2" == "a = 1 OR b = 2";
    var t := [Word("a")] + [Sym('=')] + [Word("1")] + [Word("OR")];
    LexMore("a ", [Word("a")], "= ", Sym('='));
    LexMore("a = ", [Word("a")] + [Sym('=')], "1" + " ", Word("1"));
    LexMore("a = 1 ", [Word("a")] + [Sym('=')] + [Word("1")], "OR" + " ", Word("OR"));
    LexMore("a = 1 OR ", t, "b" + " ", Word("b"));
    LexMore("a = 1 OR b ", t + [Word("b")], "= ", Sym('='));
    LexMore("a = 1 OR b = ", t + [Word("b")] + [Sym('=')], "2", Word("2"));
    assert t + [Word("b")] + [Sym('=')] + [Word("2")] ==
           [Word("a"), Sym('='), Word("1"), Word("OR"), Word("b"), Sym('='), Word("2")];
  }

  lemma LeakingParses()
    ensures ParseQuery(LEAKING_TEXT) == Some(LeakingQuery())
  {
    LexLeakingHead();
    LexLeakingTail();
    var head, tail := [Word("SELECT"), Word("*"), Word("FROM"), Word("t"), Word("WHERE")],
                      [Word("a"), Sym('='), Word("1"), Word("OR"), Word("b"), Sym('='), Word("2")];
    hide Lex;
    assert IsBreak("SELECT * FROM t WHERE "[21]);
    Glue("SELECT * FROM t WHERE ", head, "a = 1 OR b = 2", tail);
    assert LEAKING_TEXT == "SELECT * FROM t WHERE " + "a = 1 OR b = 2";
    LeakingConditions(tail);
    LeakingTokens(head, tail);
  }

  lemma {:induction false} LeakingConditions(tail: seq<Token>)
    requires tail == [Word("a"), Sym('='), Word("1"), Word("OR"), Word("b"), Sym('='), Word("2")]
    ensures ParseWhere(tail) == Some((LeakingQuery().where, []))
  {
    Keywords();
    var b := [Word("b"), Sym('='), Word("2")];
    assert tail[4..] == b && b[3..] == [];
    assert ParseCond(b) == Some(Cond("b", Equal, LNum(2)));
    assert ParseWhere(b) == Some(([[Cond("b", Equal, LNum(2))]], []));
    assert ParseCond(tail) == Some(Cond("a", Equal, LNum(1)));
    WhereOr(tail, Cond("a", Equal, LNum(1)), [[Cond("b", Equal, LNum(2))]], []);
    assert [[Cond("a", Equal, LNum(1))]] + [[Cond("b", Equal, LNum(2))]] == LeakingQuery().where;
  }

  lemma {:induction false} LeakingTokens(head: seq<Token>, tail: seq<Token>)
    requires head == [Word("SELECT"), Word("*"), Word("FROM"), Word("t"), Word("WHERE")]
    requires ParseWhere(tail) == Some((LeakingQuery().where, []))
    ensures ParseTokens(head + tail) == Some(LeakingQuery())
  {
    Keywords();
    hide ParseWhere;
    var ts, from := head + tail, [Word("FROM"), Word("t"), Word("WHERE")] + tail;
    assert ts[1..][1..] == from && from[2..] == [Word("WHERE")] + tail;
    assert ts[1..][1] == Word("FROM");
    assert ParseItems(ts[1..]) == Some((["*"], from));
    TailWords(["*"], "t", tail);
    FilterParses(["*"], "t", tail, LeakingQuery().where, []);
  }

  lemma LeakingIsIncremental()
    ensures var def := LeakingDefinition(); Incremental(def, "t") && BaseQuery(def) == Some(LeakingQuery()) && Guarded(def)
  {
    LeakingParses();
    LeakingResolves();
    LeakingHasWhere();
    LeakingNames();
    hide ParseQuery;
    hide Resolves;
    hide Contains;
    hide IsWord;
  }

  lemma LeakingNames()
    ensures IsWord("since") && IsWord("t") && forall i :: 0 <= i < |"since"| ==> "since"[i] != '.'
  {
  }

  lemma LeakingResolves()
    ensures Resolves(LeakingQuery(), "t") && ColumnName("a") == "a"
  {
    assert LastPoint("a") == 0 && LastPoint("b") == 0 by { assert "a"[..0] == "" && "b"[..0] == ""; }
    assert "a"[0..] == "a" && Lower("a") == "a";
  }

  lemma LeakingHasWhere()
    ensures Contains(LEAKING_TEXT, "WHERE")
  {
    var rest := "WHERE a = 1 OR b = 2";
    assert "WHERE" <= rest;
    ContainsLater("SELECT * FROM t ", rest, "WHERE");
    hide Contains;
    assert LEAKING_TEXT == "SELECT * FROM t " + rest;
  }

  lemma {:induction false} ContainsLater(before: string, s: string, part: string)
    requires Contains(s, part)
    ensures Contains(before + s, part)
    decreases |before|
  {
    if before == "" {
      assert before + s == s;
    } else {
      assert (before + s)[1..] == before[1..] + s;
      ContainsLater(before[1..], s, part);
    }
  }

  /** With this base query every row whose a is 1 is delivered by every read, in the window or not. */
  lemma {:induction false} DisjunctionLeaks(token: string, mark: Option<Time>, max: Time, row: Row)
    requires Denotes(token, mark) && IsStored(max) && CellIn(row, "a") == Num(1) && !InWindow(LeakingDefinition(), mark, Some(max), row)
    ensures var def := LeakingDefinition();
            ReadRows(def, "t", token, Some(max), 0, [row]) == Some([row]) &&
            WindowRows(def, LeakingQuery().where, mark, Some(max), [row]) == []
  {
    LeakingIsIncremental();
    var where := LeakingQuery().where;
    LeakingResolves();
    hide ColumnName;
    assert Meets(row, where[0][0]);
    assert MeetsAll(row, where[0]);
    assert Earlier(row, where);
    hide *;
    LeakedRow(LeakingDefinition(), "t", token, mark, max, row);
  }

  // ---------------------------------------------------------------- the iterator

  datatype Fetched<E> = Entity(e: E) | FetchError | EndOfRows

  /** The open result of a read, with the selected columns of each row, and the token it will hand out. */
  class DbIterator<!E> {
    const rows: seq<Row>
    const currentToken: string
    /** What scanning a row and mapping or parsing it gives; nothing when one of them fails. */
    const decode: Row -> Option<E>
    /** Whether the result set ends with an error. */
    const broken: bool
    var position: nat

    constructor (rows: seq<Row>, token: string, decode: Row -> Option<E>, broken: bool)
      ensures this.rows == rows && currentToken == token && this.decode == decode && this.broken == broken && position == 0
    {
      this.rows, currentToken, this.decode, this.broken, position := rows, token, decode, broken, 0;
    }

    /** The rows that Next has not returned yet. */
    function Pending(): seq<Row>
      reads this
      requires position <= |rows|
    {
      rows[position..]
    }

    /** Consumes one row, whether or not it can be made an entity, and ends or fails after the last one. */
    method Next() returns (r: Fetched<E>)
      requires position <= |rows|
      modifies this
      ensures position <= |rows|
      ensures old(Pending()) == [] ==> r == (if broken then FetchError else EndOfRows) && Pending() == []
      ensures old(Pending()) != [] ==>
                Pending() == old(Pending())[1..] &&
                r == match decode(old(Pending())[0]) case Some(e) => Entity(e) case None => FetchError
    {
      if position < |rows| {
        var entity := decode(rows[position]);
        position := position + 1;
        if entity.None? {
          return FetchError;
        }
        return Entity(entity.value);
      } else {
        if broken {
          return FetchError;
        }
        return EndOfRows;
      }
    }

    method Token() returns (token: string)
      ensures token == currentToken
    {
      token := currentToken;
    }
  }

  /**
   * One query for the maximum, if there is a since column, and one for the data; atMax and atData are the
   * rows of the table that each of them sees, or nothing when the query fails.
   */
  method NewIterator<E>(def: Definition, name: string, atMax: Option<seq<Row>>, atData: Option<seq<Row>>, since: string, limit: int,
                        decode: Row -> Option<E>, broken: bool)
    returns (r: Result<DbIterator<E>, ReadError>)
    ensures def.sinceColumn != "" && atMax.None? ==> r == Err(MaxFailed)
    ensures def.sinceColumn == "" || atMax.Some? ==>
              var max := if def.sinceColumn == "" then None else MaxStamp(def, atMax.value);
              && (r.Ok? <==> atData.Some? && ReadGiven(def, name, since, max, limit, atData.value).Some?)
              && (r.Ok? ==> Some(r.value.rows) == ReadGiven(def, name, since, max, limit, atData.value))
              && (r.Ok? ==> r.value.currentToken == if def.sinceColumn == "" then "" else TokenOf(max))
    ensures r.Ok? ==> fresh(r.value) && r.value.position == 0 && r.value.decode == decode && r.value.broken == broken
  {
    var maxSince: Option<Time> := None;
    var nextToken := "";
    if def.sinceColumn != "" {
      if atMax.None? {
        return Err(MaxFailed);
      }
      maxSince := MaxStamp(def, atMax.value);
      nextToken := TokenOf(maxSince);
    }
    var maxSinceStr := MaxText(maxSince);
    var query := MakeQuery(def, since, maxSinceStr, limit);
    if query.Err? {
      return Err(query.error);
    }
    if atData.None? {
      return Err(DataFailed);
    }
    var q := ParseQuery(query.value);
    if q.None? {
      return Err(BadQuery);
    }
    var rows := Selected(q.value, name, atData.value);
    if rows.None? {
      return Err(BadQuery);
    }
    var it := new DbIterator(ProjectAll(q.value.cols, rows.value), nextToken, decode, broken);
    return Ok(it);
  }
}
