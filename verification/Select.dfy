/** SELECT queries as the database reads them: a parser and what the rows of a result are. */
module Select {
  import opened Basics
  import opened Lexer
  import opened Statements
  import opened Database
  import opened Timestamps

  datatype Comparison = Greater | AtMost | Equal

  /** Column, possibly qualified, compared with a literal. */
  datatype Cond = Cond(col: string, op: Comparison, lit: Lit)

  /** WHERE is a disjunction of conjunctions, because AND binds tighter than OR; no WHERE is the empty list. */
  datatype Query = Query(cols: seq<string>, table: string, where: seq<seq<Cond>>, limit: Option<nat>)

  // ---------------------------------------------------------------- parsing

  function ParseItems(ts: seq<Token>): (r: Option<(seq<string>, seq<Token>)>)
    ensures r.Some? ==> |r.value.1| < |ts|
    decreases |ts|
  {
    if ts == [] || !ts[0].Word? then None
    else if |ts| > 1 && ts[1] == Sym(',') then
      match ParseItems(ts[2..])
      case None => None
      case Some((items, rest)) => Some(([ts[0].w] + items, rest))
    else Some(([ts[0].w], ts[1..]))
  }

  function ParseComparison(t: Token): Option<Comparison> {
    if t == Sym('>') then Some(Greater) else if t == Le then Some(AtMost) else if t == Sym('=') then Some(Equal) else None
  }

  function ParseOperand(t: Token): Option<Lit> {
    match t
    case Str(s) => Some(LText(s))
    case Word(w) =>
      if Lower(w) == "null" then Some(LNull)
      else (match ParseInt(w) case Some(n) => Some(LNum(n)) case None => None)
    case _ => None
  }

  function ParseCond(ts: seq<Token>): Option<Cond> {
    if |ts| < 3 || !ts[0].Word? then None
    else match (ParseComparison(ts[1]), ParseOperand(ts[2]))
      case (Some(op), Some(lit)) => Some(Cond(ts[0].w, op, lit))
      case _ => None
  }

  /** Conditions joined by AND and OR, up to the first token that is neither. */
  function ParseWhere(ts: seq<Token>): (r: Option<(seq<seq<Cond>>, seq<Token>)>)
    ensures r.Some? ==> |r.value.0| > 0
    decreases |ts|
  {
    match ParseCond(ts)
    case None => None
    case Some(c) =>
      if |ts| > 3 && Keyword(ts[3], "and") then
        match ParseWhere(ts[4..])
        case None => None
        case Some((ds, rest)) => Some(([[c] + ds[0]] + ds[1..], rest))
      else if |ts| > 3 && Keyword(ts[3], "or") then
        match ParseWhere(ts[4..])
        case None => None
        case Some((ds, rest)) => Some(([[c]] + ds, rest))
      else Some(([[c]], ts[3..]))
  }

  function ParseLimit(ts: seq<Token>): Option<Option<nat>> {
    if ts == [] then Some(None)
    else if |ts| == 2 && Keyword(ts[0], "limit") && ts[1].Word? && ParseNat(ts[1].w).Some? then Some(ParseNat(ts[1].w))
    else None
  }

  /** What follows the word WHERE. */
  function ParseFilter(cols: seq<string>, table: string, ts: seq<Token>): Option<Query> {
    match ParseWhere(ts)
    case None => None
    case Some((ds, rest)) =>
      match ParseLimit(rest)
      case None => None
      case Some(limit) => Some(Query(cols, table, ds, limit))
  }

  function ParseTail(cols: seq<string>, table: string, ts: seq<Token>): Option<Query> {
    if ts != [] && Keyword(ts[0], "where") then ParseFilter(cols, table, ts[1..])
    else
      match ParseLimit(ts)
      case None => None
      case Some(limit) => Some(Query(cols, table, [], limit))
  }

  function ParseTokens(ts: seq<Token>): Option<Query> {
    if ts == [] || !Keyword(ts[0], "select") then None
    else match ParseItems(ts[1..])
      case None => None
      case Some((cols, rest)) =>
        if |rest| >= 2 && Keyword(rest[0], "from") && rest[1].Word? then ParseTail(cols, rest[1].w, rest[2..]) else None
  }

  function ParseQuery(text: string): Option<Query> {
    match Lex(text) case None => None case Some(ts) => ParseTokens(ts)
  }

  // ---------------------------------------------------------------- appending tokens to a query

  lemma {:induction false} ItemsExtend(ts: seq<Token>, more: seq<Token>)
    requires ParseItems(ts).Some? && ParseItems(ts).value.1 != []
    ensures ParseItems(ts + more) == Some((ParseItems(ts).value.0, ParseItems(ts).value.1 + more))
    decreases |ts|
  {
    if |ts| > 1 && ts[1] == Sym(',') {
      assert (ts + more)[2..] == ts[2..] + more;
      ItemsExtend(ts[2..], more);
    } else {
      assert (ts + more)[1..] == ts[1..] + more;
    }
  }

  /** AND after a disjunction attaches to its last conjunction. */
  function Attach(ds: seq<seq<Cond>>, es: seq<seq<Cond>>): seq<seq<Cond>>
    requires ds != [] && es != []
  {
    ds[..|ds| - 1] + [ds[|ds| - 1] + es[0]] + es[1..]
  }

  predicate Continues(ts: seq<Token>) { ts != [] && (Keyword(ts[0], "and") || Keyword(ts[0], "or")) }

  lemma {:induction false} WhereStops(ts: seq<Token>, more: seq<Token>)
    requires ParseWhere(ts).Some? && ParseWhere(ts).value.1 == [] && !Continues(more)
    ensures ParseWhere(ts + more) == Some((ParseWhere(ts).value.0, more))
    decreases |ts|
  {
    assert ParseCond(ts + more) == ParseCond(ts);
    if |ts| > 3 && (Keyword(ts[3], "and") || Keyword(ts[3], "or")) {
      assert (ts + more)[4..] == ts[4..] + more;
      WhereStops(ts[4..], more);
    } else {
      assert |ts| == 3 && (ts + more)[3..] == more;
    }
  }

  lemma CondStable(ts: seq<Token>, more: seq<Token>)
    requires ParseCond(ts).Some?
    ensures |ts| >= 3 && ParseCond(ts + more) == ParseCond(ts)
  {
  }

  lemma {:induction false} WhereAnd(ts: seq<Token>, c: Cond, ds: seq<seq<Cond>>, rest: seq<Token>)
    requires |ts| > 3 && ParseCond(ts) == Some(c) && Keyword(ts[3], "and") && ParseWhere(ts[4..]) == Some((ds, rest))
    ensures ParseWhere(ts) == Some(([[c] + ds[0]] + ds[1..], rest))
  {
  }

  lemma {:induction false} WhereOr(ts: seq<Token>, c: Cond, ds: seq<seq<Cond>>, rest: seq<Token>)
    requires |ts| > 3 && ParseCond(ts) == Some(c) && Keyword(ts[3], "or") && ParseWhere(ts[4..]) == Some((ds, rest))
    ensures ParseWhere(ts) == Some(([[c]] + ds, rest))
  {
  }

  lemma {:induction false} WhereAttaches(ts: seq<Token>, and: Token, us: seq<Token>)
    requires ParseWhere(ts).Some? && ParseWhere(ts).value.1 == [] && Keyword(and, "and") && ParseWhere(us).Some?
    ensures ParseWhere(ts + [and] + us) == Some((Attach(ParseWhere(ts).value.0, ParseWhere(us).value.0), ParseWhere(us).value.1))
    decreases |ts|
  {
    hide ParseCond;
    hide Keyword;
    var all := ts + [and] + us;
    var (es, rest) := ParseWhere(us).value;
    var c := ParseCond(ts).value;
    CondStable(ts, [and] + us);
    assert ts + ([and] + us) == all;
    if |ts| > 3 && (Keyword(ts[3], "and") || Keyword(ts[3], "or")) {
      assert all[4..] == ts[4..] + [and] + us;
      WhereAttaches(ts[4..], and, us);
      var inner := ParseWhere(ts[4..]).value.0;
      if Keyword(ts[3], "and") {
        WhereAnd(all, c, Attach(inner, es), rest);
        AttachAnd(c, inner, es);
      } else {
        WhereOr(all, c, Attach(inner, es), rest);
        assert [[c]] + Attach(inner, es) == Attach([[c]] + inner, es);
      }
    } else {
      assert |ts| == 3 && all[4..] == us;
      WhereAnd(all, c, es, rest);
      assert [[c] + es[0]] + es[1..] == Attach([[c]], es);
    }
  }

  lemma AttachAnd(c: Cond, ds: seq<seq<Cond>>, es: seq<seq<Cond>>)
    requires ds != [] && es != []
    ensures var a := Attach(ds, es); [[c] + a[0]] + a[1..] == Attach([[c] + ds[0]] + ds[1..], es)
  {
    var a := Attach(ds, es);
    if |ds| == 1 {
      assert [c] + (ds[0] + es[0]) == ([c] + ds[0]) + es[0];
      assert a[1..] == es[1..];
    } else {
      assert ([[c] + ds[0]] + ds[1..])[|ds| - 1] == ds[|ds| - 1];
    }
  }

  /** A query without LIMIT splits into a head up to the table and the conditions of its WHERE, if it has one. */
  lemma QueryExtend(ts: seq<Token>, more: seq<Token>) returns (conditions: seq<Token>)
    requires ParseTokens(ts).Some? && ParseTokens(ts).value.limit.None?
    ensures var q := ParseTokens(ts).value;
            if q.where == [] then ParseTokens(ts + more) == ParseTail(q.cols, q.table, more)
            else ParseWhere(conditions) == Some((q.where, [])) && ParseTokens(ts + more) == ParseFilter(q.cols, q.table, conditions + more)
  {
    var q := ParseTokens(ts).value;
    var (cols, rest) := ParseItems(ts[1..]).value;
    ItemsExtend(ts[1..], more);
    assert (ts + more)[1..] == ts[1..] + more;
    assert (rest + more)[2..] == rest[2..] + more;
    var tail := rest[2..];
    TailSplits(cols, rest[1].w, tail, more);
    conditions := if tail != [] then tail[1..] else [];
    hide ParseItems;
    hide ParseTail;
    hide ParseFilter;
    hide ParseWhere;
    hide Lower;
  }

  lemma TailSplits(cols: seq<string>, table: string, tail: seq<Token>, more: seq<Token>)
    requires ParseTail(cols, table, tail).Some? && ParseTail(cols, table, tail).value.limit.None?
    ensures var q := ParseTail(cols, table, tail).value;
            q.cols == cols && q.table == table &&
            if q.where == [] then tail + more == more
            else tail != [] && ParseWhere(tail[1..]) == Some((q.where, [])) &&
                 ParseTail(cols, table, tail + more) == ParseFilter(cols, table, tail[1..] + more)
  {
    hide ParseWhere;
    hide Lower;
    if tail != [] { assert (tail + more)[1..] == tail[1..] + more; }
  }

  // ---------------------------------------------------------------- what a query selects

  /** Qualifier and lower-cased name of a column reference: the name is what follows the last point. */
  function LastPoint(w: string): (n: nat)
    ensures n <= |w|
    ensures n > 0 ==> w[n - 1] == '.'
    ensures forall i :: n <= i < |w| ==> w[i] != '.'
  {
    if w == "" then 0 else if w[|w| - 1] == '.' then |w| else LastPoint(w[..|w| - 1])
  }

  function Qualifier(w: string): string { if LastPoint(w) == 0 then "" else w[..LastPoint(w) - 1] }

  function ColumnName(w: string): string { Lower(w[LastPoint(w)..]) }

  /** SQL comparison: NULL compares with nothing, a timestamp is compared with the time its literal denotes. */
  predicate Compare(c: Cell, op: Comparison, l: Lit) {
    match (c, l)
    case (Stamp(t), LText(s)) => (
      match ParseStamp(s)
      case None => false
      case Some(u) => match op case Greater => Rank(t) > Rank(u) case AtMost => Rank(t) <= Rank(u) case Equal => Rank(t) == Rank(u))
    case (Text(a), LText(b)) => (match op case Greater => TextLess(b, a) case AtMost => TextLeq(a, b) case Equal => a == b)
    case (Num(a), LNum(b)) => (match op case Greater => a > b case AtMost => a <= b case Equal => a == b)
    case _ => false
  }

  predicate Meets(row: Row, c: Cond) { Compare(CellIn(row, ColumnName(c.col)), c.op, c.lit) }

  predicate MeetsAll(row: Row, cs: seq<Cond>) { forall i :: 0 <= i < |cs| ==> Meets(row, cs[i]) }

  predicate MeetsSome(row: Row, ds: seq<seq<Cond>>) { exists i :: 0 <= i < |ds| && MeetsAll(row, ds[i]) }

  predicate Matches(row: Row, where: seq<seq<Cond>>) { where == [] || MeetsSome(row, where) }

  function Filter(where: seq<seq<Cond>>, rows: seq<Row>): seq<Row> {
    if rows == [] then []
    else (if Matches(rows[0], where) then [rows[0]] else []) + Filter(where, rows[1..])
  }

  predicate Resolves(q: Query, name: string) {
    q.table == name &&
    forall i, j :: 0 <= i < |q.where| && 0 <= j < |q.where[i]| ==> Qualifier(q.where[i][j].col) in {"", name}
  }

  /** The selected rows of a listing of the table, or nothing when a name does not resolve. */
  function Selected(q: Query, name: string, rows: seq<Row>): Option<seq<Row>> {
    if !Resolves(q, name) then None
    else
      var all := Filter(q.where, rows);
      Some(if q.limit.Some? && q.limit.value < |all| then all[..q.limit.value] else all)
  }

  /** The columns of a selected row. */
  function Project(cols: seq<string>, row: Row): Row {
    if cols == ["*"] then row else map c | c in (set i | 0 <= i < |cols| :: Lower(cols[i])) :: CellIn(row, c)
  }

  lemma {:induction false} FilterExact(where: seq<seq<Cond>>, rows: seq<Row>)
    ensures forall row :: row in Filter(where, rows) <==> row in rows && Matches(row, where)
    ensures |Filter(where, rows)| <= |rows|
  {
    if rows != [] {
      FilterExact(where, rows[1..]);
      assert rows == [rows[0]] + rows[1..];
    }
  }

  ghost predicate Distinct<T>(s: seq<T>) { forall i, j :: 0 <= i < j < |s| ==> s[i] != s[j] }
}
