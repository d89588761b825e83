/** What the text of a flush does to the table. */
module FlushMeaning {
  import opened Basics
  import opened Lexer
  import opened RowItems
  import opened Batches
  import opened Statements
  import opened SqlText
  import opened Database
  import opened WriterSpec
  import opened Timestamps

  // ---------------------------------------------------------------- configurations and writes that need no escaping

  /** The names are plain words and the table is the configured one. */
  ghost predicate Fits(cfg: Config, sch: Schema) {
    && IsWord(cfg.table) && cfg.table == sch.name
    && IsWord(cfg.idColumn) && Lower(cfg.idColumn) == sch.key
    && (cfg.sinceColumn != "" ==> IsName(Lower(cfg.sinceColumn)) && Lower(cfg.sinceColumn) != sch.key)
    && IsWord(Precision(cfg)) && ParseNat(Precision(cfg)).Some? && ParseNat(Precision(cfg)).value <= 6
  }

  /** No datetime or timestamp mapping touches the id, under either of the names it is rendered with. */
  predicate IdsUnconverted(cfg: Config) {
    ConversionOf(cfg.mappings, "id") == Unchanged && ConversionOf(cfg.mappings, cfg.idColumn) == Unchanged
  }

  /** Quote-free strings, distinct column names, and an id column that holds the id. */
  ghost predicate CleanOp(cfg: Config, op: Op) {
    && IsPlain(op.id)
    && (forall i :: 0 <= i < |op.cells| ==> IsName(Lower(op.cells[i].0)))
    && (forall i :: 0 <= i < |op.cells| && op.cells[i].1.VStr? ==> IsPlain(op.cells[i].1.s))
    && (forall i, j :: 0 <= i < j < |op.cells| ==> Lower(op.cells[i].0) != Lower(op.cells[j].0))
    && (forall i :: 0 <= i < |op.cells| && cfg.sinceColumn != "" ==> Lower(op.cells[i].0) != Lower(cfg.sinceColumn))
    && (cfg.idColumn, VStr(op.id)) in op.cells
  }

  ghost predicate CleanBatch(cfg: Config, batch: seq<Op>) {
    forall i :: 0 <= i < |batch| ==> CleanOp(cfg, batch[i])
  }

  lemma {:induction false} WinnersAreClean(cfg: Config, batch: seq<Op>)
    requires CleanBatch(cfg, batch)
    ensures forall k :: k in Winners(batch) ==> CleanOp(cfg, Winners(batch)[k]) && Winners(batch)[k].id == k
    ensures forall k :: k in Ids(batch) ==> IsPlain(k)
  {
    IdsExact(batch);
    forall k | k in Winners(batch) ensures CleanOp(cfg, Winners(batch)[k]) && Winners(batch)[k].id == k {
      WinnerIsNewest(batch, k);
    }
  }

  // ---------------------------------------------------------------- rows

  /** The cells a write asks for, by column; the since column is not among them. */
  function Content(cfg: Config, op: Op): Row {
    match MakeRow(NameLits(op.cells), CellLits(cfg.mappings, op.cells), ZERO)
    case Some(row) => row
    case None => map[]
  }

  function Digits(cfg: Config): (p: nat)
    ensures p <= 6
  {
    match ParseNat(Precision(cfg)) case Some(n) => (if n <= 6 then n else 0) case None => 0
  }

  /** The row that is stored when the clock reads now. */
  function Stamped(cfg: Config, row: Row, now: Time): Row {
    if cfg.sinceColumn == "" then row else row[Lower(cfg.sinceColumn) := Stamp(CutTo(now, Digits(cfg)))]
  }

  lemma PlainConversion(s: string, withZone: bool)
    requires IsPlain(s) && Convert(s, withZone).Some?
    ensures IsPlain(Convert(s, withZone).value)
  {
    var z := ZoneStart(s).value;
    assert IsPlain(s[..10]) && IsPlain(s[11..19]) && IsPlain(s[z..]);
    assert IsPlain(Zone(s[z..]).value);
  }

  lemma CellLitsAreReadable(cfg: Config, op: Op)
    requires CleanOp(cfg, op)
    ensures forall l :: l in NameLits(op.cells) ==> WfLit(l)
    ensures forall l :: l in CellLits(cfg.mappings, op.cells) ==> WfLit(l) && !l.LNow? && !l.LName?
  {
    forall i | 0 <= i < |op.cells|
      ensures WfLit(CellLits(cfg.mappings, op.cells)[i]) && !CellLits(cfg.mappings, op.cells)[i].LNow? && !CellLits(cfg.mappings, op.cells)[i].LName?
    {
      var v := op.cells[i].1;
      if v.VStr? {
        if Convert(v.s, true).Some? { PlainConversion(v.s, true); }
        if Convert(v.s, false).Some? { PlainConversion(v.s, false); }
      }
    }
  }

  lemma CellIsSteady(l: Lit, now: Time)
    requires !l.LNow? && !l.LName?
    ensures CellOf(l, now) == CellOf(l, ZERO) && CellOf(l, now).Some?
  {
  }

  /** One more column. */
  lemma {:induction false} MakeRowSnoc(cols: seq<Lit>, vals: seq<Lit>, c: string, v: Lit, now: Time)
    requires |cols| == |vals| && MakeRow(cols, vals, now).Some? && CellOf(v, now).Some?
    requires Lower(c) !in MakeRow(cols, vals, now).value
    ensures MakeRow(cols + [LName(c)], vals + [v], now) == Some(MakeRow(cols, vals, now).value[Lower(c) := CellOf(v, now).value])
  {
    assert (cols + [LName(c)])[..|cols|] == cols && (vals + [v])[..|vals|] == vals;
  }

  lemma {:induction false} LowerTwice(s: string)
    ensures Lower(Lower(s)) == Lower(s)
  {
    assert forall i :: 0 <= i < |s| ==> Lower(Lower(s))[i] == Lower(s)[i];
  }

  /** The row holds exactly the named columns, each with its cell. */
  ghost predicate Holds(mappings: seq<Mapping>, cells: Cells, row: Row) {
    && (forall c :: c in row ==> exists i :: 0 <= i < |cells| && Lower(cells[i].0) == c)
    && (forall i :: 0 <= i < |cells| ==>
          Lower(cells[i].0) in row && CellOf(LitFor(mappings, cells[i].1, cells[i].0), ZERO) == Some(row[Lower(cells[i].0)]))
  }

  /** The row of distinct columns exists, does not depend on the clock, and holds each cell under its column. */
  lemma {:induction false} RowExists(mappings: seq<Mapping>, cells: Cells, now: Time)
    requires forall i, j :: 0 <= i < j < |cells| ==> Lower(cells[i].0) != Lower(cells[j].0)
    requires forall i :: 0 <= i < |cells| ==> var l := LitFor(mappings, cells[i].1, cells[i].0); !l.LNow? && !l.LName?
    ensures var r := MakeRow(NameLits(cells), CellLits(mappings, cells), now);
            r.Some? && r == MakeRow(NameLits(cells), CellLits(mappings, cells), ZERO) && Holds(mappings, cells, r.value)
    decreases |cells|
  {
    hide LitFor;
    hide CellOf;
    hide Lower;
    if cells != [] {
      var init, last := cells[..|cells| - 1], cells[|cells| - 1];
      var n := |init|;
      var l := LitFor(mappings, last.1, last.0);
      assert NameLits(cells) == NameLits(init) + [LName(Lower(last.0))];
      assert CellLits(mappings, cells) == CellLits(mappings, init) + [l];
      RowExists(mappings, init, now);
      CellIsSteady(l, now);
      LowerTwice(last.0);
      var r := MakeRow(NameLits(init), CellLits(mappings, init), now).value;
      MakeRowSnoc(NameLits(init), CellLits(mappings, init), Lower(last.0), l, now);
      MakeRowSnoc(NameLits(init), CellLits(mappings, init), Lower(last.0), l, ZERO);
      HoldsSnoc(mappings, init, last, r);
      assert cells == init + [last];
    }
  }

  lemma HoldsSnoc(mappings: seq<Mapping>, init: Cells, last: (string, Value), row: Row)
    requires Holds(mappings, init, row) && CellOf(LitFor(mappings, last.1, last.0), ZERO).Some?
    requires forall i :: 0 <= i < |init| ==> Lower(init[i].0) != Lower(last.0)
    ensures Holds(mappings, init + [last], row[Lower(last.0) := CellOf(LitFor(mappings, last.1, last.0), ZERO).value])
  {
    hide LitFor;
    hide CellOf;
    hide Lower;
    var cells := init + [last];
    var full := row[Lower(last.0) := CellOf(LitFor(mappings, last.1, last.0), ZERO).value];
    forall c | c in full ensures exists i :: 0 <= i < |cells| && Lower(cells[i].0) == c {
      if c in row {
        var i :| 0 <= i < |init| && Lower(init[i].0) == c;
        assert Lower(cells[i].0) == c;
      } else {
        assert Lower(cells[|init|].0) == c;
      }
    }
  }

  lemma {:induction false} ContentHolds(cfg: Config, op: Op, now: Time)
    requires CleanOp(cfg, op)
    ensures MakeRow(NameLits(op.cells), CellLits(cfg.mappings, op.cells), now) == Some(Content(cfg, op))
    ensures Holds(cfg.mappings, op.cells, Content(cfg, op))
    ensures cfg.sinceColumn != "" ==> Lower(cfg.sinceColumn) !in Content(cfg, op)
  {
    hide Lower;
    CellLitsAreReadable(cfg, op);
    forall i | 0 <= i < |op.cells|
      ensures var l := LitFor(cfg.mappings, op.cells[i].1, op.cells[i].0); !l.LNow? && !l.LName?
    {
      assert CellLits(cfg.mappings, op.cells)[i] in CellLits(cfg.mappings, op.cells);
    }
    RowExists(cfg.mappings, op.cells, now);
  }

  /** The content of a write holds its id under the key. */
  lemma ContentHasKey(cfg: Config, sch: Schema, op: Op)
    requires Fits(cfg, sch) && IdsUnconverted(cfg) && CleanOp(cfg, op)
    ensures CellIn(Content(cfg, op), sch.key) == Text(op.id)
  {
    ContentHolds(cfg, op, ZERO);
    var i :| 0 <= i < |op.cells| && op.cells[i] == (cfg.idColumn, VStr(op.id));
    assert LitFor(cfg.mappings, op.cells[i].1, op.cells[i].0) == LText(op.id);
  }

  lemma {:induction false} StampedRow(cfg: Config, sch: Schema, op: Op, now: Time)
    requires Fits(cfg, sch) && CleanOp(cfg, op)
    ensures var s := InsertStmt(cfg, op.cells); MakeRow(s.cols, s.vals, now) == Some(Stamped(cfg, Content(cfg, op), now))
  {
    hide LitFor;
    hide Lower;
    hide Content;
    var s := InsertStmt(cfg, op.cells);
    var names, vals := NameLits(op.cells), CellLits(cfg.mappings, op.cells);
    ContentHolds(cfg, op, now);
    if cfg.sinceColumn == "" {
      assert s.cols == names && s.vals == vals;
    } else {
      LowerTwice(cfg.sinceColumn);
      MakeRowSnoc(names, vals, Lower(cfg.sinceColumn), LNow(Precision(cfg)), now);
    }
  }

  /** The INSERT of a clean write makes the write's content, stamped with the clock, under the write's id. */
  lemma {:induction false} InsertMakes(cfg: Config, sch: Schema, op: Op, now: Time)
    requires Fits(cfg, sch) && IdsUnconverted(cfg) && CleanOp(cfg, op)
    ensures var s := InsertStmt(cfg, op.cells); MakeRow(s.cols, s.vals, now) == Some(Stamped(cfg, Content(cfg, op), now))
    ensures CellIn(Stamped(cfg, Content(cfg, op), now), sch.key) == Text(op.id)
  {
    StampedRow(cfg, sch, op, now);
    ContentHasKey(cfg, sch, op);
  }

  lemma InsertIsReadable(cfg: Config, sch: Schema, op: Op)
    requires Fits(cfg, sch) && CleanOp(cfg, op)
    ensures Readable(InsertStmt(cfg, op.cells))
  {
    CellLitsAreReadable(cfg, op);
    var s := InsertStmt(cfg, op.cells);
    assert forall l :: l in s.cols ==> l in NameLits(op.cells) || l == LName(Lower(cfg.sinceColumn));
    assert forall l :: l in s.vals ==> l in CellLits(cfg.mappings, op.cells) || l == LNow(Precision(cfg));
  }

  // ---------------------------------------------------------------- cells by value

  /** The mapping reads the column as a time. */
  predicate ReadsAsTime(m: Mapping, col: string) { m.property == col && (m.kind == "datetime" || m.kind == "timestamp") }

  ghost predicate NoTime(mappings: seq<Mapping>, col: string) {
    forall j :: 0 <= j < |mappings| ==> !ReadsAsTime(mappings[j], col)
  }

  /** Mapping k is the first that reads the column as a time. */
  ghost predicate FirstTime(mappings: seq<Mapping>, col: string, k: nat) {
    k < |mappings| && ReadsAsTime(mappings[k], col) && forall j :: 0 <= j < k ==> !ReadsAsTime(mappings[j], col)
  }

  /** Text read as a time: its date and clock, for a timestamp with its offset; NULL when it is no RFC 3339 text. */
  ghost predicate TimeCell(s: string, kind: string, c: Cell) {
    && (forall t, f, o :: IsRfc3339(t, f, o) && s == Rfc3339(t, f, o) ==>
          c == Text(DateText(t) + " " + ClockText(t) + if kind == "timestamp" then OffsetPrinted(o) else ""))
    && ((forall t, f, o :: IsRfc3339(t, f, o) ==> s != Rfc3339(t, f, o)) ==> c == Null)
  }

  /** The cell in which a value of a column is stored. */
  ghost predicate Represents(mappings: seq<Mapping>, col: string, v: Value, c: Cell) {
    match v
    case VBool(b) => c == Text(if b then "true" else "false")
    case VInt(n) => c == Num(n)
    case VNil => c == Null
    case VStr(s) =>
      (NoTime(mappings, col) ==> c == Text(s)) && forall k: nat :: FirstTime(mappings, col, k) ==> TimeCell(s, mappings[k].kind, c)
  }

  /** A row holds exactly the columns of the cells, lower-cased, each with its value. */
  ghost predicate Represented(mappings: seq<Mapping>, cells: Cells, row: Row) {
    && (forall c :: c in row ==> exists i :: 0 <= i < |cells| && Lower(cells[i].0) == c)
    && (forall i :: 0 <= i < |cells| ==> Lower(cells[i].0) in row && Represents(mappings, cells[i].0, cells[i].1, row[Lower(cells[i].0)]))
  }

  /** Which conversion applies, by the mappings. */
  lemma {:induction false} ConversionExact(mappings: seq<Mapping>, col: string)
    ensures ConversionOf(mappings, col) == Unchanged <==> NoTime(mappings, col)
    ensures forall k: nat :: FirstTime(mappings, col, k) ==>
              ConversionOf(mappings, col) == if mappings[k].kind == "timestamp" then ToTimestamp else ToDateTime
  {
    if mappings != [] {
      var rest := mappings[1..];
      ConversionExact(rest, col);
      assert forall j :: 0 <= j < |rest| ==> rest[j] == mappings[j + 1];
      forall k: nat | FirstTime(mappings, col, k)
        ensures if ReadsAsTime(mappings[0], col) then k == 0 else k > 0 && FirstTime(rest, col, k - 1)
      {
        assert k > 0 ==> !ReadsAsTime(mappings[0], col);
      }
      if NoTime(rest, col) {
        assert forall j :: 0 < j < |mappings| ==> mappings[j] == rest[j - 1];
      }
    }
  }

  lemma TimeCellOf(s: string, kind: string)
    requires kind == "datetime" || kind == "timestamp"
    ensures TimeCell(s, kind, match Convert(s, kind == "timestamp") case None => Null case Some(text) => Text(text))
  {
    hide Convert;
    hide DateText;
    hide ClockText;
    hide OffsetText;
    hide OffsetPrinted;
    hide Rfc3339;
    hide IsRfc3339;
    forall t, f, o | IsRfc3339(t, f, o) && s == Rfc3339(t, f, o)
      ensures Convert(s, kind == "timestamp") ==
              Some(DateText(t) + " " + ClockText(t) + if kind == "timestamp" then OffsetPrinted(o) else "")
    {
      ConvertsRfc3339(t, f, o);
      assert DateText(t) + " " + ClockText(t) + "" == DateText(t) + " " + ClockText(t);
    }
    if Convert(s, kind == "timestamp").Some? {
      var t, f, o := OnlyRfc3339(s, kind == "timestamp");
    }
  }

  lemma LitRepresents(mappings: seq<Mapping>, col: string, v: Value)
    ensures var c := CellOf(LitFor(mappings, v, col), ZERO); c.Some? && Represents(mappings, col, v, c.value)
  {
    if v.VStr? {
      ConversionExact(mappings, col);
      TimeCellOf(v.s, "datetime");
      TimeCellOf(v.s, "timestamp");
      hide Convert;
      hide TimeCell;
      hide ConversionOf;
      hide NoTime;
      var c := CellOf(LitFor(mappings, v, col), ZERO).value;
      forall k: nat | FirstTime(mappings, col, k) ensures TimeCell(v.s, mappings[k].kind, c) {
        assert ReadsAsTime(mappings[k], col);
      }
    }
  }

  /** What a clean write asks for, by value: its cells under their lower-cased columns. */
  lemma ContentRepresents(cfg: Config, op: Op)
    requires CleanOp(cfg, op)
    ensures Represented(cfg.mappings, op.cells, Content(cfg, op))
  {
    ContentHolds(cfg, op, ZERO);
    hide Content;
    hide CleanOp;
    hide Lower;
    hide LitFor;
    hide CellOf;
    hide Represents;
    forall i | 0 <= i < |op.cells|
      ensures Represents(cfg.mappings, op.cells[i].0, op.cells[i].1, Content(cfg, op)[Lower(op.cells[i].0)])
    {
      LitRepresents(cfg.mappings, op.cells[i].0, op.cells[i].1);
    }
  }

  /** The stamp of a row: the clock, cut to the configured number of digits, or to 6. */
  ghost predicate HasStamp(cfg: Config, row: Row, now: Time) {
    Lower(cfg.sinceColumn) in row &&
    exists d: nat :: d <= 6 && row[Lower(cfg.sinceColumn)] == Stamp(CutTo(now, d)) &&
                     if cfg.sincePrecision == "" then d == 6 else ParseNat(cfg.sincePrecision) == Some(d)
  }

  lemma StampedHasStamp(cfg: Config, sch: Schema, row: Row, now: Time)
    requires Fits(cfg, sch) && (cfg.sinceColumn != "" ==> Lower(cfg.sinceColumn) !in row)
    ensures cfg.sinceColumn == "" ==> Stamped(cfg, row, now) == row
    ensures cfg.sinceColumn != "" ==> HasStamp(cfg, Stamped(cfg, row, now), now) && Stamped(cfg, row, now) - {Lower(cfg.sinceColumn)} == row
  {
    assert ParseNat("6") == Some(6);
    hide Lower;
    hide IsName;
    hide IsWord;
    hide CutTo;
    if cfg.sinceColumn != "" {
      var d := Digits(cfg);
      assert Stamped(cfg, row, now)[Lower(cfg.sinceColumn)] == Stamp(CutTo(now, d));
    }
  }

  /**
   * The pending text of a clean write parses back to its own INSERT: as many columns as values,
   * and a row that holds every cell of the item, by value, under its lower-cased column, plus the stamp.
   */
  lemma {:induction false} PendingTextReadsBack(cfg: Config, sch: Schema, op: Op, now: Time)
    requires Fits(cfg, sch) && CleanOp(cfg, op)
    ensures var s := InsertStmt(cfg, op.cells);
            var row := MakeRow(s.cols, s.vals, now);
            && ParseBlock("BEGIN;\n\n" + StmtText(s) + ";\nCOMMIT;") == Some([s])
            && |s.cols| == |s.vals| == |op.cells| + (if cfg.sinceColumn != "" then 1 else 0)
            && row.Some?
            && (cfg.sinceColumn == "" ==> Represented(cfg.mappings, op.cells, row.value))
            && (cfg.sinceColumn != "" ==>
                  HasStamp(cfg, row.value, now) && Represented(cfg.mappings, op.cells, row.value - {Lower(cfg.sinceColumn)}))
  {
    var s := InsertStmt(cfg, op.cells);
    assert |s.cols| == |s.vals| == |op.cells| + (if cfg.sinceColumn != "" then 1 else 0);
    OneStatement(s);
    ContentHolds(cfg, op, now);
    hide *;
    ContentRepresents(cfg, op);
    InsertIsReadable(cfg, sch, op);
    BlockTextRoundTrip([s]);
    StampedRow(cfg, sch, op, now);
    StampedHasStamp(cfg, sch, Content(cfg, op), now);
  }

  lemma OneStatement(s: Stmt)
    ensures BlockText([s]) == "BEGIN;\n\n" + StmtText(s) + ";\nCOMMIT;"
  {
    hide StmtText;
    assert StmtTexts([s]) == [StmtText(s)];
  }

  // ---------------------------------------------------------------- the delete half

  lemma {:induction false} DeleteRemoves(cfg: Config, sch: Schema, t: Table, ids: seq<string>, now: Time)
    requires Fits(cfg, sch) && IdsUnconverted(cfg) && Keyed(sch, t)
    ensures ExecStmt(sch, t, DeleteStmt(cfg, ids), now) == Some(Delete(t, ids))
  {
    var lits := IdLits(cfg, ids);
    assert forall i :: 0 <= i < |ids| ==> lits[i] == LText(ids[i]);
    assert forall l :: l in lits ==> CellOf(l, now).Some?;
    forall k | k in t
      ensures InList(CellIn(t[k], Lower(cfg.idColumn)), lits, now) <==> k in ids
    {
      if k in ids {
        var i :| 0 <= i < |ids| && ids[i] == k;
        assert lits[i] in lits;
      }
    }
    var r := ExecStmt(sch, t, DeleteStmt(cfg, ids), now);
    assert r.Some?;
    assert r.value.Keys == Delete(t, ids).Keys;
  }

  lemma DeleteIsReadable(cfg: Config, sch: Schema, ids: seq<string>)
    requires Fits(cfg, sch) && ConversionOf(cfg.mappings, "id") == Unchanged && ids != [] && forall k :: k in ids ==> IsPlain(k)
    ensures Readable(DeleteStmt(cfg, ids))
  {
    var lits := IdLits(cfg, ids);
    forall l | l in lits ensures WfLit(l) {
      var i :| 0 <= i < |lits| && lits[i] == l;
      assert ids[i] in ids;
    }
  }

  // ---------------------------------------------------------------- the insert half

  lemma ExecInsert(cfg: Config, sch: Schema, env: Env, t: Table, op: Op, tick: nat)
    requires Fits(cfg, sch) && IdsUnconverted(cfg) && CleanOp(cfg, op) && op.id !in t
    ensures ExecStmt(sch, t, InsertStmt(cfg, op.cells), env.time(tick)) == Some(t[op.id := RowAt(cfg, env, op, tick)])
  {
    hide Content;
    hide Stamped;
    hide Lower;
    hide MakeRow;
    InsertMakes(cfg, sch, op, env.time(tick));
  }

  /** The row a winner leaves when it is inserted at a tick. */
  function RowAt(cfg: Config, env: Env, op: Op, tick: nat): Row {
    Stamped(cfg, Content(cfg, op), env.time(tick))
  }

  /** The table after inserting the winners in this order, one tick each. */
  function Inserted(cfg: Config, env: Env, t: Table, w: map<string, Op>, order: seq<string>, tick: nat): Table
    requires forall i :: 0 <= i < |order| ==> order[i] in w
    decreases |order|
  {
    if order == [] then t
    else Inserted(cfg, env, t[order[0] := RowAt(cfg, env, w[order[0]], tick)], w, order[1..], tick + 1)
  }

  lemma {:induction false} InsertedKeys(cfg: Config, env: Env, t: Table, w: map<string, Op>, order: seq<string>, tick: nat)
    requires forall i :: 0 <= i < |order| ==> order[i] in w
    ensures var r := Inserted(cfg, env, t, w, order, tick);
            && (forall k :: k in r <==> k in t || k in order)
            && (forall k :: k in t && k !in order ==> r[k] == t[k])
    decreases |order|
  {
    hide RowAt;
    if order != [] {
      var k, rest := order[0], order[1..];
      var t' := t[k := RowAt(cfg, env, w[k], tick)];
      var r := Inserted(cfg, env, t', w, rest, tick + 1);
      InsertedKeys(cfg, env, t', w, rest, tick + 1);
      assert order == [k] + rest;
      assert forall key :: key in order <==> key == k || key in rest;
      forall key ensures key in r <==> key in t || key in order {
        assert key in r <==> key in t' || key in rest;
      }
    }
  }

  lemma {:induction false} InsertedAt(cfg: Config, env: Env, t: Table, w: map<string, Op>, order: seq<string>, tick: nat, i: nat)
    requires forall i :: 0 <= i < |order| ==> order[i] in w
    requires i < |order| && forall j :: i < j < |order| ==> order[j] != order[i]
    ensures var r := Inserted(cfg, env, t, w, order, tick); order[i] in r && r[order[i]] == RowAt(cfg, env, w[order[i]], tick + i)
    decreases |order|
  {
    hide RowAt;
    var rest, t' := order[1..], t[order[0] := RowAt(cfg, env, w[order[0]], tick)];
    if i == 0 {
      InsertedKeys(cfg, env, t', w, rest, tick + 1);
      assert order[0] !in rest;
    } else {
      assert rest[i - 1] == order[i];
      InsertedAt(cfg, env, t', w, rest, tick + 1, i - 1);
    }
  }

  lemma {:induction false} InsertedHolds(cfg: Config, env: Env, t: Table, w: map<string, Op>, order: seq<string>, tick: nat)
    requires forall i :: 0 <= i < |order| ==> order[i] in w
    requires forall i, j :: 0 <= i < j < |order| ==> order[i] != order[j]
    ensures var r := Inserted(cfg, env, t, w, order, tick);
            && (forall k :: k in r <==> k in t || k in order)
            && (forall k :: k in t && k !in order ==> r[k] == t[k])
            && (forall i :: 0 <= i < |order| ==> order[i] in r && r[order[i]] == RowAt(cfg, env, w[order[i]], tick + i))
  {
    InsertedKeys(cfg, env, t, w, order, tick);
    var r := Inserted(cfg, env, t, w, order, tick);
    forall i | 0 <= i < |order| ensures order[i] in r && r[order[i]] == RowAt(cfg, env, w[order[i]], tick + i) {
      InsertedAt(cfg, env, t, w, order, tick, i);
    }
    hide RowAt;
    hide Inserted;
  }

  /** No statement from this tick on, for so many ticks, is made to fail. */
  ghost predicate CalmFor(env: Env, tick: nat, n: nat) {
    forall i: nat :: tick <= i < tick + n ==> !env.fails(i)
  }

  /** Inserting fresh keys, in whatever order, collides with nothing: only the environment can make it fail. */
  lemma {:induction false} InsertsRun(cfg: Config, sch: Schema, env: Env, t: Table, w: map<string, Op>, order: seq<string>, tick: nat)
    requires Fits(cfg, sch) && IdsUnconverted(cfg)
    requires forall k :: k in order ==> k in w && CleanOp(cfg, w[k]) && w[k].id == k && k !in t
    requires forall i, j :: 0 <= i < j < |order| ==> order[i] != order[j]
    ensures var r := RunStmts(sch, env, t, InsertStmts(cfg, w, order), tick);
            if CalmFor(env, tick, |order|) then r == Outcome(true, Inserted(cfg, env, t, w, order, tick), tick + |order|)
            else !r.ok && r.tick >= tick
    decreases |order|
  {
    hide RowAt;
    hide CleanOp;
    hide InsertStmt;
    hide ExecStmt;
    if order != [] {
      var stmts, k := InsertStmts(cfg, w, order), order[0];
      assert k in order;
      assert stmts[0] == InsertStmt(cfg, w[k].cells);
      assert stmts[1..] == InsertStmts(cfg, w, order[1..]);
      if !env.fails(tick) {
        var t' := t[k := RowAt(cfg, env, w[k], tick)];
        ExecInsert(cfg, sch, env, t, w[k], tick);
        InsertsRun(cfg, sch, env, t', w, order[1..], tick + 1);
        assert CalmFor(env, tick, |order|) <==> CalmFor(env, tick + 1, |order| - 1);
      }
    }
  }
}
