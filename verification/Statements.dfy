/** The two kinds of statement the writer sends, their tokens, and a parser for BEGIN ... COMMIT blocks. */
module Statements {
  import opened Basics
  import opened Lexer

  datatype Lit = LText(s: string) | LNum(n: int) | LNull | LNow(precision: string) | LName(w: string)

  datatype Stmt =
    | DeleteIn(table: string, col: string, lits: seq<Lit>)
    | InsertRow(table: string, cols: seq<Lit>, vals: seq<Lit>)

  // ---------------------------------------------------------------- parsing

  predicate Keyword(t: Token, k: string) { t.Word? && Lower(t.w) == k }

  function ParseLit(ts: seq<Token>): (r: Option<(Lit, seq<Token>)>)
    ensures r.Some? ==> |r.value.1| < |ts|
  {
    if ts == [] then None
    else match ts[0]
      case Str(s) => Some((LText(s), ts[1..]))
      case Word(w) =>
        if Lower(w) == "null" then Some((LNull, ts[1..]))
        else if Lower(w) == "now" && |ts| >= 4 && ts[1] == Sym('(') && ts[2].Word? && ts[3] == Sym(')') then
          Some((LNow(ts[2].w), ts[4..]))
        else (
          match ParseInt(w)
          case Some(n) => Some((LNum(n), ts[1..]))
          case None => Some((LName(w), ts[1..])))
      case _ => None
  }

  /** A comma-separated list up to and including the closing parenthesis. */
  function ParseList(ts: seq<Token>): (r: Option<(seq<Lit>, seq<Token>)>)
    ensures r.Some? ==> |r.value.1| < |ts|
    decreases |ts|
  {
    match ParseLit(ts)
    case None => None
    case Some((lit, rest)) =>
      if rest == [] then None
      else if rest[0] == Sym(')') then Some(([lit], rest[1..]))
      else if rest[0] == Sym(',') then
        match ParseList(rest[1..])
        case None => None
        case Some((lits, rest')) => Some(([lit] + lits, rest'))
      else None
  }

  function ParseStmt(ts: seq<Token>): (r: Option<(Stmt, seq<Token>)>)
    ensures r.Some? ==> |r.value.1| < |ts|
  {
    if |ts| > 7 && Keyword(ts[0], "delete") && Keyword(ts[1], "from") && ts[2].Word? && Keyword(ts[3], "where") &&
       ts[4].Word? && Keyword(ts[5], "in") && ts[6] == Sym('(') then
      match ParseList(ts[7..])
      case None => None
      case Some((lits, rest)) => Some((DeleteIn(ts[2].w, ts[4].w, lits), rest))
    else if |ts| > 4 && Keyword(ts[0], "insert") && Keyword(ts[1], "into") && ts[2].Word? && ts[3] == Sym('(') then
      match ParseList(ts[4..])
      case None => None
      case Some((cols, us)) =>
        if |us| > 2 && Keyword(us[0], "values") && us[1] == Sym('(') then
          match ParseList(us[2..])
          case None => None
          case Some((vals, rest)) => Some((InsertRow(ts[2].w, cols, vals), rest))
        else None
    else None
  }

  /** Statements, each ended by a semicolon, then COMMIT and nothing more. */
  function ParseBody(ts: seq<Token>): Option<seq<Stmt>>
    decreases |ts|
  {
    if |ts| == 2 && Keyword(ts[0], "commit") && ts[1] == Sym(';') then Some([])
    else match ParseStmt(ts)
      case None => None
      case Some((stmt, rest)) =>
        if rest == [] || rest[0] != Sym(';') then None
        else match ParseBody(rest[1..])
          case None => None
          case Some(stmts) => Some([stmt] + stmts)
  }

  function ParseBlock(text: string): Option<seq<Stmt>> {
    match Lex(text)
    case None => None
    case Some(ts) =>
      if |ts| > 2 && Keyword(ts[0], "begin") && ts[1] == Sym(';') then ParseBody(ts[2..]) else None
  }

  // ---------------------------------------------------------------- tokens of statements

  /** A word that reads as a column or table name. */
  predicate IsName(w: string) { IsWord(w) && Lower(w) != "null" && ParseInt(w).None? }

  predicate WfLit(l: Lit) {
    match l
    case LText(s) => IsPlain(s)
    case LName(w) => IsName(w)
    case LNow(p) => IsWord(p)
    case _ => true
  }

  function LitTokens(l: Lit): seq<Token> {
    match l
    case LText(s) => [Str(s)]
    case LNum(n) => [Word(IntText(n))]
    case LNull => [Word("NULL")]
    case LNow(p) => [Word("NOW"), Sym('('), Word(p), Sym(')')]
    case LName(w) => [Word(w)]
  }

  function ListTokens(lits: seq<Lit>): seq<Token> {
    if lits == [] then []
    else if |lits| == 1 then LitTokens(lits[0])
    else LitTokens(lits[0]) + [Sym(',')] + ListTokens(lits[1..])
  }

  lemma {:induction false} ListTokensSnoc(lits: seq<Lit>, l: Lit)
    requires lits != []
    ensures ListTokens(lits + [l]) == ListTokens(lits) + [Sym(',')] + LitTokens(l)
  {
    if |lits| == 1 {
      assert (lits + [l])[1..] == [l];
    } else {
      assert (lits + [l])[1..] == lits[1..] + [l];
      ListTokensSnoc(lits[1..], l);
    }
  }

  function StmtTokens(s: Stmt): seq<Token> {
    match s
    case DeleteIn(table, col, lits) =>
      [Word("DELETE"), Word("FROM"), Word(table), Word("WHERE"), Word(col), Word("IN"), Sym('(')] + ListTokens(lits) + [Sym(')')]
    case InsertRow(table, cols, vals) =>
      [Word("INSERT"), Word("INTO"), Word(table), Sym('(')] + ListTokens(cols) + [Sym(')')] +
      [Word("VALUES"), Sym('(')] + ListTokens(vals) + [Sym(')')]
  }

  function BodyTokens(stmts: seq<Stmt>): seq<Token> {
    if stmts == [] then [Word("COMMIT"), Sym(';')] else StmtTokens(stmts[0]) + [Sym(';')] + BodyTokens(stmts[1..])
  }

  predicate WfStmt(s: Stmt) {
    match s
    case DeleteIn(_, _, lits) => lits != [] && forall l :: l in lits ==> WfLit(l)
    case InsertRow(_, cols, vals) => cols != [] && vals != [] && (forall l :: l in cols ==> WfLit(l)) && forall l :: l in vals ==> WfLit(l)
  }

  // ---------------------------------------------------------------- the parser inverts the tokens

  lemma Keywords()
    ensures Lower("DELETE") == "delete" && Lower("FROM") == "from" && Lower("WHERE") == "where" && Lower("IN") == "in"
    ensures Lower("INSERT") == "insert" && Lower("INTO") == "into" && Lower("VALUES") == "values"
    ensures Lower("BEGIN") == "begin" && Lower("COMMIT") == "commit"
    ensures Lower("NULL") == "null" && Lower("NOW") == "now"
    ensures Lower("AND") == "and" && Lower("OR") == "or" && Lower("SELECT") == "select" && Lower("LIMIT") == "limit"
  {
  }

  lemma NumeralIsNoKeyword(n: int)
    ensures Lower(IntText(n)) != "null" && Lower(IntText(n)) != "now"
  {
    var s := IntText(n);
    assert IsDigit(s[0]) || s[0] == '-';
    assert Lower(s)[0] == s[0];
  }

  lemma LitRoundTrip(l: Lit, rest: seq<Token>)
    requires WfLit(l) && (l.LName? ==> rest == [] || rest[0] != Sym('('))
    ensures ParseLit(LitTokens(l) + rest) == Some((l, rest))
  {
    Keywords();
    var ts := LitTokens(l) + rest;
    assert ts[|LitTokens(l)|..] == rest;
    match l
    case LNum(n) =>
      NumeralIsNoKeyword(n);
      IntRoundTrip(n);
    case _ =>
  }

  lemma {:induction false} ListLast(ts: seq<Token>, l: Lit, rest: seq<Token>)
    requires ParseLit(ts) == Some((l, [Sym(')')] + rest))
    ensures ParseList(ts) == Some(([l], rest))
  {
    assert ([Sym(')')] + rest)[1..] == rest;
  }

  lemma {:induction false} ListMore(ts: seq<Token>, l: Lit, more: seq<Token>, lits: seq<Lit>, rest: seq<Token>)
    requires ParseLit(ts) == Some((l, [Sym(',')] + more)) && ParseList(more) == Some((lits, rest))
    ensures ParseList(ts) == Some(([l] + lits, rest))
  {
    assert ([Sym(',')] + more)[1..] == more;
  }

  lemma {:induction false} ListRoundTrip(lits: seq<Lit>, rest: seq<Token>)
    requires lits != [] && forall l :: l in lits ==> WfLit(l)
    ensures ParseList(ListTokens(lits) + [Sym(')')] + rest) == Some((lits, rest))
    decreases |lits|
  {
    hide ParseLit;
    hide LitTokens;
    hide ParseList;
    var ts := ListTokens(lits) + [Sym(')')] + rest;
    if |lits| == 1 {
      assert ts == LitTokens(lits[0]) + ([Sym(')')] + rest);
      LitRoundTrip(lits[0], [Sym(')')] + rest);
      ListLast(ts, lits[0], rest);
      assert lits == [lits[0]];
    } else {
      var more := ListTokens(lits[1..]) + [Sym(')')] + rest;
      assert ts == LitTokens(lits[0]) + ([Sym(',')] + more);
      LitRoundTrip(lits[0], [Sym(',')] + more);
      ListRoundTrip(lits[1..], rest);
      ListMore(ts, lits[0], more, lits[1..], rest);
      assert lits == [lits[0]] + lits[1..];
    }
  }

  lemma DeleteRoundTrip(table: string, col: string, lits: seq<Lit>, rest: seq<Token>)
    requires WfStmt(DeleteIn(table, col, lits))
    ensures ParseStmt(StmtTokens(DeleteIn(table, col, lits)) + rest) == Some((DeleteIn(table, col, lits), rest))
  {
    Keywords();
    ListRoundTrip(lits, rest);
    var tail := ListTokens(lits) + [Sym(')')] + rest;
    var ts := [Word("DELETE"), Word("FROM"), Word(table), Word("WHERE"), Word(col), Word("IN"), Sym('(')] + tail;
    assert ts[7..] == tail;
    assert StmtTokens(DeleteIn(table, col, lits)) + rest == ts;
  }

  lemma InsertParse(ts: seq<Token>, table: string, cols: seq<Lit>, us: seq<Token>, vals: seq<Lit>, rest: seq<Token>)
    requires |ts| > 4 && Keyword(ts[0], "insert") && Keyword(ts[1], "into") && ts[2] == Word(table) && ts[3] == Sym('(')
    requires ParseList(ts[4..]) == Some((cols, us))
    requires |us| > 2 && Keyword(us[0], "values") && us[1] == Sym('(') && ParseList(us[2..]) == Some((vals, rest))
    ensures ParseStmt(ts) == Some((InsertRow(table, cols, vals), rest))
  {
  }

  lemma InsertRoundTrip(table: string, cols: seq<Lit>, vals: seq<Lit>, rest: seq<Token>)
    requires WfStmt(InsertRow(table, cols, vals))
    ensures ParseStmt(StmtTokens(InsertRow(table, cols, vals)) + rest) == Some((InsertRow(table, cols, vals), rest))
  {
    var second := ListTokens(vals) + [Sym(')')] + rest;
    var us := [Word("VALUES"), Sym('(')] + second;
    var first := ListTokens(cols) + [Sym(')')] + us;
    ListRoundTrip(cols, us);
    ListRoundTrip(vals, rest);
    assert us[2..] == second;
    var ts := [Word("INSERT"), Word("INTO"), Word(table), Sym('(')] + first;
    assert ts[4..] == first;
    InsertWords();
    InsertParse(ts, table, cols, us, vals, rest);
    InsertTokens(table, cols, vals, rest);
  }

  lemma InsertWords()
    ensures Keyword(Word("INSERT"), "insert") && Keyword(Word("INTO"), "into") && Keyword(Word("VALUES"), "values")
  {
    Keywords();
  }

  lemma Assoc<T>(a: seq<T>, b: seq<T>, c: seq<T>)
    ensures a + b + c == a + (b + c)
  {
  }

  lemma {:induction false} InsertTokens(table: string, cols: seq<Lit>, vals: seq<Lit>, rest: seq<Token>)
    ensures StmtTokens(InsertRow(table, cols, vals)) + rest ==
            [Word("INSERT"), Word("INTO"), Word(table), Sym('(')] +
            (ListTokens(cols) + [Sym(')')] + ([Word("VALUES"), Sym('(')] + (ListTokens(vals) + [Sym(')')] + rest)))
  {
    hide ListTokens;
    Nested([Word("INSERT"), Word("INTO"), Word(table), Sym('(')], ListTokens(cols), [Sym(')')],
           [Word("VALUES"), Sym('(')], ListTokens(vals), [Sym(')')], rest);
  }

  lemma Nested<T>(a: seq<T>, b: seq<T>, c: seq<T>, d: seq<T>, e: seq<T>, f: seq<T>, g: seq<T>)
    ensures a + b + c + d + e + f + g == a + (b + c + (d + (e + f + g)))
  {
    var left, right := a + b + c, e + f + g;
    Assoc(left + d, e, f);
    Assoc(left + d, e + f, g);
    Assoc(left, d, right);
    Assoc(a, b, c);
    Assoc(a, b + c, d + right);
  }

  lemma {:induction false} BodyStep(s: Stmt, more: seq<Token>, stmts: seq<Stmt>)
    requires WfStmt(s) && ParseBody(more) == Some(stmts)
    ensures ParseBody(StmtTokens(s) + [Sym(';')] + more) == Some([s] + stmts)
  {
    var rest := [Sym(';')] + more;
    var ts := StmtTokens(s) + rest;
    match s {
      case DeleteIn(table, col, lits) => DeleteRoundTrip(table, col, lits, rest);
      case InsertRow(table, cols, vals) => InsertRoundTrip(table, cols, vals, rest);
    }
    assert rest[1..] == more;
    assert StmtTokens(s) + [Sym(';')] + more == ts;
  }

  lemma {:induction false} BodyRoundTrip(stmts: seq<Stmt>)
    requires forall s :: s in stmts ==> WfStmt(s)
    ensures ParseBody(BodyTokens(stmts)) == Some(stmts)
    decreases |stmts|
  {
    if stmts == [] {
      Keywords();
    } else {
      BodyRoundTrip(stmts[1..]);
      BodyStep(stmts[0], BodyTokens(stmts[1..]), stmts[1..]);
      assert stmts == [stmts[0]] + stmts[1..];
    }
  }

  /** A text that lexes to the tokens of a block parses to its statements. */
  lemma {:induction false} BlockRoundTrip(text: string, stmts: seq<Stmt>)
    requires forall s :: s in stmts ==> WfStmt(s)
    requires Lex(text) == Some([Word("BEGIN"), Sym(';')] + BodyTokens(stmts))
    ensures ParseBlock(text) == Some(stmts)
  {
    Keywords();
    BodyRoundTrip(stmts);
    assert ([Word("BEGIN"), Sym(';')] + BodyTokens(stmts))[2..] == BodyTokens(stmts);
  }
}
