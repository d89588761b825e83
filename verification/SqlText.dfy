/** The text of statements and blocks, and the theorem that the parser reads it back. */
module SqlText {
  import opened Basics
  import opened Lexer
  import opened Statements

  function LitText(l: Lit): string {
    match l
    case LText(s) => "'" + s + "'"
    case LNum(n) => IntText(n)
    case LNull => "NULL"
    case LNow(p) => "NOW(" + p + ")"
    case LName(w) => w
  }

  function LitTexts(lits: seq<Lit>): (r: seq<string>)
    ensures |r| == |lits|
  {
    seq(|lits|, i requires 0 <= i < |lits| => LitText(lits[i]))
  }

  function ListText(lits: seq<Lit>): string { Join(LitTexts(lits), ", ") }

  function StmtText(s: Stmt): string {
    match s
    case DeleteIn(table, col, lits) =>
      "DELETE FROM " + table + " WHERE " + col + " IN (" + ListText(lits) + ")"
    case InsertRow(table, cols, vals) =>
      "INSERT INTO " + table + " (" + ListText(cols) + ") VALUES (" + ListText(vals) + ")"
  }

  function StmtTexts(stmts: seq<Stmt>): (r: seq<string>)
    ensures |r| == |stmts|
  {
    seq(|stmts|, i requires 0 <= i < |stmts| => StmtText(stmts[i]))
  }

  function BlockText(stmts: seq<Stmt>): string {
    "BEGIN;\n\n" + Join(StmtTexts(stmts), ";\n") + ";\nCOMMIT;"
  }

  /** A statement whose parts all survive lexing. */
  predicate Readable(s: Stmt) {
    WfStmt(s) && IsWord(s.table) && (s.DeleteIn? ==> IsWord(s.col))
  }

  lemma {:induction false} JoinSnoc(parts: seq<string>, part: string, sep: string)
    requires parts != []
    ensures Join(parts + [part], sep) == Join(parts, sep) + sep + part
  {
    assert (parts + [part])[..|parts|] == parts;
  }

  // ---------------------------------------------------------------- lexing, piece by piece

  /** A character that ends any token to its left and starts none that could swallow it. */
  predicate IsBreak(c: char) { IsSpace(c) || c in {'(', ')', ',', ';'} }

  lemma {:induction false} Glue(a: string, ta: seq<Token>, b: string, tb: seq<Token>)
    requires Lex(a) == Some(ta) && Lex(b) == Some(tb)
    requires a != "" && b != "" && (IsBreak(a[|a| - 1]) || IsBreak(b[0]))
    ensures Lex(a + b) == Some(ta + tb)
  {
    LexAppend(a, b);
  }

  lemma LexSym(c: char)
    requires c in {'(', ')', ',', ';'}
    ensures Lex([c]) == Some([Sym(c)])
  {
    assert [c][1..] == "";
    assert First([c]) == Take(Sym(c), 1);
    assert [Sym(c)] + [] == [Sym(c)];
  }

  lemma LexSpace(c: char)
    requires IsSpace(c)
    ensures Lex([c]) == Some([])
  {
    assert [c][1..] == "";
  }

  /** A fixed word between spaces. */
  lemma {:induction false} LexSpaced(w: string)
    requires IsWord(w)
    ensures Lex(w + " ") == Some([Word(w)])
    ensures Lex(" " + w + " ") == Some([Word(w)])
  {
    hide Lex;
    LexWord(w);
    LexSpace(' ');
    Glue(w, [Word(w)], " ", []);
    Glue(" ", [], w, [Word(w)]);
    assert [] + [Word(w)] == [Word(w)] == [Word(w)] + [];
    Glue(" " + w, [Word(w)], " ", []);
  }

  lemma LexComma()
    ensures Lex(", ") == Some([Sym(',')])
  {
    hide Lex;
    LexSym(',');
    LexSpace(' ');
    assert "," + " " == ", " && [Sym(',')] + [] == [Sym(',')];
    Glue(",", [Sym(',')], " ", []);
  }

  lemma LexLit(l: Lit)
    requires WfLit(l)
    ensures Lex(LitText(l)) == Some(LitTokens(l)) && LitText(l) != ""
  {
    hide Lex;
    match l
    case LText(s) => LexString(s);
    case LNum(n) => LexWord(IntText(n));
    case LNull => LexWord("NULL");
    case LName(w) => LexWord(w);
    case LNow(p) =>
      LexWord("NOW");
      LexWord(p);
      LexSym('(');
      LexSym(')');
      Glue("NOW", [Word("NOW")], "(", [Sym('(')]);
      assert "NOW" + "(" == "NOW(";
      Glue("NOW(", [Word("NOW")] + [Sym('(')], p, [Word(p)]);
      assert [Word("NOW")] + [Sym('(')] + [Word(p)] + [Sym(')')] == LitTokens(l);
      Glue("NOW(" + p, [Word("NOW")] + [Sym('(')] + [Word(p)], ")", [Sym(')')]);
  }

  lemma {:induction false} LexList(lits: seq<Lit>)
    requires lits != [] && forall l :: l in lits ==> WfLit(l)
    ensures Lex(ListText(lits)) == Some(ListTokens(lits)) && ListText(lits) != ""
    decreases |lits|
  {
    hide Lex;
    var init, last := lits[..|lits| - 1], lits[|lits| - 1];
    LexLit(last);
    assert LitTexts(lits)[|lits| - 1] == LitText(last);
    if |lits| > 1 {
      assert lits == init + [last];
      LexList(init);
      LexComma();
      assert LitTexts(lits)[..|lits| - 1] == LitTexts(init);
      Glue(ListText(init), ListTokens(init), ", ", [Sym(',')]);
      Glue(ListText(init) + ", ", ListTokens(init) + [Sym(',')], LitText(last), LitTokens(last));
      ListTokensSnoc(init, last);
    }
  }

  lemma LexDelete(table: string, col: string, lits: seq<Lit>)
    requires Readable(DeleteIn(table, col, lits))
    ensures Lex(StmtText(DeleteIn(table, col, lits))) == Some(StmtTokens(DeleteIn(table, col, lits)))
  {
    hide Lex;
    var t0 := [Word("DELETE"), Word("FROM")];
    var t1 := t0 + [Word(table)];
    var t2 := t1 + [Word("WHERE")];
    var t3 := t2 + [Word(col)];
    var t4 := t3 + [Word("IN"), Sym('(')];
    LexDeleteWords();
    LexWord(table);
    LexWord(col);
    LexList(lits);
    LexSym(')');
    var a1 := "DELETE FROM " + table;
    var a2 := a1 + " WHERE ";
    var a3 := a2 + col;
    var a4 := a3 + " IN (";
    var a5 := a4 + ListText(lits);
    Glue("DELETE FROM ", t0, table, [Word(table)]);
    Glue(a1, t1, " WHERE ", [Word("WHERE")]);
    Glue(a2, t2, col, [Word(col)]);
    Glue(a3, t3, " IN (", [Word("IN"), Sym('(')]);
    Glue(a4, t4, ListText(lits), ListTokens(lits));
    Glue(a5, t4 + ListTokens(lits), ")", [Sym(')')]);
    assert t4 == [Word("DELETE"), Word("FROM"), Word(table), Word("WHERE"), Word(col), Word("IN"), Sym('(')];
  }

  lemma LexDeleteWords()
    ensures Lex("DELETE FROM ") == Some([Word("DELETE"), Word("FROM")])
    ensures Lex(" WHERE ") == Some([Word("WHERE")])
    ensures Lex(" IN (") == Some([Word("IN"), Sym('(')])
  {
    hide Lex;
    LexSpaced("DELETE");
    LexSpaced("FROM");
    LexSpaced("WHERE");
    LexSpaced("IN");
    LexSym('(');
    assert "DELETE" + " " == "DELETE " && "FROM" + " " == "FROM " && "DELETE " + "FROM " == "DELETE FROM ";
    assert " " + "WHERE" + " " == " WHERE " && " " + "IN" + " " == " IN " && " IN " + "(" == " IN (";
    assert [Word("DELETE")] + [Word("FROM")] == [Word("DELETE"), Word("FROM")] && [Word("IN")] + [Sym('(')] == [Word("IN"), Sym('(')];
    Glue("DELETE ", [Word("DELETE")], "FROM ", [Word("FROM")]);
    Glue(" IN ", [Word("IN")], "(", [Sym('(')]);
  }

  lemma LexInsert(table: string, cols: seq<Lit>, vals: seq<Lit>)
    requires Readable(InsertRow(table, cols, vals))
    ensures Lex(StmtText(InsertRow(table, cols, vals))) == Some(StmtTokens(InsertRow(table, cols, vals)))
  {
    hide Lex;
    hide ListText;
    hide ListTokens;
    LexInsertFront(table, cols);
    LexInsertBack(vals);
    var front, back := "INSERT INTO " + table + " (" + ListText(cols), ") VALUES (" + ListText(vals) + ")";
    var t0 := [Word("INSERT"), Word("INTO"), Word(table), Sym('(')] + ListTokens(cols);
    var t1 := [Sym(')'), Word("VALUES"), Sym('(')] + ListTokens(vals) + [Sym(')')];
    assert back[0] == ')';
    Glue(front, t0, back, t1);
    assert StmtText(InsertRow(table, cols, vals)) == front + back;
    assert [Sym(')'), Word("VALUES"), Sym('(')] == [Sym(')')] + [Word("VALUES"), Sym('(')];
    assert StmtTokens(InsertRow(table, cols, vals)) == t0 + t1;
  }

  lemma {:induction false} LexInsertFront(table: string, cols: seq<Lit>)
    requires IsWord(table) && cols != [] && forall l :: l in cols ==> WfLit(l)
    ensures Lex("INSERT INTO " + table + " (" + ListText(cols)) ==
            Some([Word("INSERT"), Word("INTO"), Word(table), Sym('(')] + ListTokens(cols))
  {
    hide Lex;
    hide WfLit;
    LexInsertWords();
    LexWord(table);
    LexList(cols);
    hide ListText;
    hide ListTokens;
    var t0 := [Word("INSERT"), Word("INTO")];
    Glue("INSERT INTO ", t0, table, [Word(table)]);
    Glue("INSERT INTO " + table, t0 + [Word(table)], " (", [Sym('(')]);
    Glue("INSERT INTO " + table + " (", t0 + [Word(table)] + [Sym('(')], ListText(cols), ListTokens(cols));
    assert t0 + [Word(table)] + [Sym('(')] == [Word("INSERT"), Word("INTO"), Word(table), Sym('(')];
  }

  lemma {:induction false} LexInsertBack(vals: seq<Lit>)
    requires vals != [] && forall l :: l in vals ==> WfLit(l)
    ensures Lex(") VALUES (" + ListText(vals) + ")") == Some([Sym(')'), Word("VALUES"), Sym('(')] + ListTokens(vals) + [Sym(')')])
  {
    hide Lex;
    hide WfLit;
    LexInsertWords();
    LexList(vals);
    LexSym(')');
    hide ListText;
    hide ListTokens;
    var t0 := [Sym(')'), Word("VALUES"), Sym('(')];
    Glue(") VALUES (", t0, ListText(vals), ListTokens(vals));
    Glue(") VALUES (" + ListText(vals), t0 + ListTokens(vals), ")", [Sym(')')]);
  }

  lemma LexInsertWords()
    ensures Lex("INSERT INTO ") == Some([Word("INSERT"), Word("INTO")])
    ensures Lex(" (") == Some([Sym('(')])
    ensures Lex(") VALUES (") == Some([Sym(')'), Word("VALUES"), Sym('(')])
  {
    hide Lex;
    LexSpaced("INSERT");
    LexSpaced("INTO");
    LexSpaced("VALUES");
    LexSym('(');
    LexSym(')');
    LexSpace(' ');
    assert "INSERT" + " " == "INSERT " && "INTO" + " " == "INTO " && "INSERT " + "INTO " == "INSERT INTO ";
    assert " " + "VALUES" + " " == " VALUES " && ")" + " VALUES " == ") VALUES " && ") VALUES " + "(" == ") VALUES (" && " " + "(" == " (";
    assert [] + [Sym('(')] == [Sym('(')];
    assert [Word("INSERT")] + [Word("INTO")] == [Word("INSERT"), Word("INTO")];
    assert [Sym(')')] + [Word("VALUES")] + [Sym('(')] == [Sym(')'), Word("VALUES"), Sym('(')];
    Glue("INSERT ", [Word("INSERT")], "INTO ", [Word("INTO")]);
    Glue(" ", [], "(", [Sym('(')]);
    Glue(")", [Sym(')')], " VALUES ", [Word("VALUES")]);
    Glue(") VALUES ", [Sym(')')] + [Word("VALUES")], "(", [Sym('(')]);
  }

  lemma LexStmt(s: Stmt)
    requires Readable(s)
    ensures Lex(StmtText(s)) == Some(StmtTokens(s)) && |StmtText(s)| > 0 && StmtText(s)[|StmtText(s)| - 1] == ')'
  {
    match s
    case DeleteIn(table, col, lits) => LexDelete(table, col, lits);
    case InsertRow(table, cols, vals) => LexInsert(table, cols, vals);
  }

  /** The statements of a block without its COMMIT. */
  function Listed(stmts: seq<Stmt>): seq<Token> {
    if stmts == [] then [] else Listed(stmts[..|stmts| - 1]) + StmtTokens(stmts[|stmts| - 1]) + [Sym(';')]
  }

  lemma {:induction false} BodyIsListed(stmts: seq<Stmt>, more: seq<Stmt>)
    ensures BodyTokens(stmts + more) == Listed(stmts) + BodyTokens(more)
    decreases |stmts|
  {
    if stmts == [] {
      assert stmts + more == more;
    } else {
      var init, last := stmts[..|stmts| - 1], stmts[|stmts| - 1];
      assert stmts + more == init + ([last] + more);
      BodyIsListed(init, [last] + more);
      assert ([last] + more)[1..] == more;
      assert Listed(init) + (StmtTokens(last) + [Sym(';')] + BodyTokens(more)) == Listed(stmts) + BodyTokens(more);
    }
  }

  /** A text that ends in a closing parenthesis, and the semicolon and line break after it. */
  lemma {:induction false} LexTerminated(text: string, ts: seq<Token>)
    requires Lex(text) == Some(ts) && text != "" && text[|text| - 1] == ')'
    ensures Lex(text + ";\n") == Some(ts + [Sym(';')])
  {
    hide Lex;
    LexSym(';');
    LexSpace('\n');
    assert ";" + "\n" == ";\n" && [Sym(';')] + [] == [Sym(';')];
    Glue(";", [Sym(';')], "\n", []);
    Glue(text, ts, ";\n", [Sym(';')]);
  }

  lemma StmtTextsInit(stmts: seq<Stmt>)
    requires stmts != []
    ensures var init, last := stmts[..|stmts| - 1], stmts[|stmts| - 1];
            Join(StmtTexts(stmts), ";\n") ==
            if init == [] then StmtText(last) else Join(StmtTexts(init), ";\n") + ";\n" + StmtText(last)
  {
    hide StmtText;
    assert StmtTexts(stmts)[..|stmts| - 1] == StmtTexts(stmts[..|stmts| - 1]);
  }

  lemma {:induction false} LexStmts(stmts: seq<Stmt>)
    requires stmts != [] && forall s :: s in stmts ==> Readable(s)
    ensures var text := Join(StmtTexts(stmts), ";\n");
            text != "" && Lex(text + ";\n") == Some(Listed(stmts))
    decreases |stmts|
  {
    hide Lex;
    hide Readable;
    hide StmtText;
    hide StmtTokens;
    hide StmtTexts;
    hide Join;
    var init, last := stmts[..|stmts| - 1], stmts[|stmts| - 1];
    LexStmt(last);
    StmtTextsInit(stmts);
    if init == [] {
      LexTerminated(StmtText(last), StmtTokens(last));
      assert Listed(init) + StmtTokens(last) == StmtTokens(last);
    } else {
      LexStmts(init);
      LexNext(Join(StmtTexts(init), ";\n"), Listed(init), StmtText(last), StmtTokens(last));
    }
  }

  lemma {:induction false} LexNext(before: string, ts: seq<Token>, stmt: string, us: seq<Token>)
    requires Lex(before + ";\n") == Some(ts) && Lex(stmt) == Some(us) && stmt != "" && stmt[|stmt| - 1] == ')'
    ensures Lex(before + ";\n" + stmt + ";\n") == Some(ts + us + [Sym(';')])
  {
    hide Lex;
    var head := before + ";\n";
    assert head[|head| - 1] == '\n';
    Glue(head, ts, stmt, us);
    LexTerminated(head + stmt, ts + us);
  }

  lemma LexBlockWords()
    ensures Lex("BEGIN;\n\n") == Some([Word("BEGIN"), Sym(';')])
    ensures Lex("COMMIT;") == Some([Word("COMMIT"), Sym(';')])
  {
    hide Lex;
    LexWord("BEGIN");
    LexWord("COMMIT");
    LexSym(';');
    LexSpace('\n');
    assert "BEGIN" + ";" == "BEGIN;" && "BEGIN;" + "\n" == "BEGIN;\n" && "BEGIN;\n" + "\n" == "BEGIN;\n\n";
    assert "COMMIT" + ";" == "COMMIT;";
    assert [Word("BEGIN")] + [Sym(';')] == [Word("BEGIN"), Sym(';')] == [Word("BEGIN"), Sym(';')] + [];
    assert [Word("COMMIT")] + [Sym(';')] == [Word("COMMIT"), Sym(';')];
    Glue("BEGIN", [Word("BEGIN")], ";", [Sym(';')]);
    Glue("BEGIN;", [Word("BEGIN"), Sym(';')], "\n", []);
    Glue("BEGIN;\n", [Word("BEGIN"), Sym(';')], "\n", []);
    Glue("COMMIT", [Word("COMMIT")], ";", [Sym(';')]);
  }

  lemma {:induction false} LexBlock(body: string, ts: seq<Token>)
    requires Lex(body + ";\n") == Some(ts)
    ensures Lex("BEGIN;\n\n" + body + ";\nCOMMIT;") == Some([Word("BEGIN"), Sym(';')] + ts + [Word("COMMIT"), Sym(';')])
  {
    hide Lex;
    LexBlockWords();
    var begin := [Word("BEGIN"), Sym(';')];
    assert IsBreak("BEGIN;\n\n"[7]) && IsBreak((body + ";\n")[|body| + 1]);
    var front := "BEGIN;\n\n" + (body + ";\n");
    assert front[|front| - 1] == '\n';
    Glue("BEGIN;\n\n", begin, body + ";\n", ts);
    Glue(front, begin + ts, "COMMIT;", [Word("COMMIT"), Sym(';')]);
    assert "BEGIN;\n\n" + body + ";\nCOMMIT;" == front + "COMMIT;";
  }

  /** The text of a block of readable statements parses back to exactly those statements. */
  lemma {:induction false} BlockTextRoundTrip(stmts: seq<Stmt>)
    requires stmts != [] && forall s :: s in stmts ==> Readable(s)
    ensures ParseBlock(BlockText(stmts)) == Some(stmts)
  {
    LexStmts(stmts);
    assert forall s :: s in stmts ==> WfStmt(s);
    hide Lex;
    hide Readable;
    hide WfStmt;
    hide Join;
    hide StmtTokens;
    hide ParseBlock;
    LexBlock(Join(StmtTexts(stmts), ";\n"), Listed(stmts));
    BodyIsListed(stmts, []);
    assert stmts + [] == stmts;
    var begin := [Word("BEGIN"), Sym(';')];
    Assoc(begin, Listed(stmts), [Word("COMMIT"), Sym(';')]);
    BlockRoundTrip(BlockText(stmts), stmts);
  }
}
