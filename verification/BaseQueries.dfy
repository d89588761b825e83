/** What the base query of a definition asks for, and the errors of building a query, stated on the definition. */
module BaseQueries {
  import opened Basics
  import opened Lexer
  import opened Statements
  import opened SqlText
  import opened Database
  import opened Select
  import opened Reader
  import Base64

  // ---------------------------------------------------------------- columns and table

  /** A name that stands for one column. */
  predicate IsPlainName(p: string) { IsWord(p) && '*' !in p }

  predicate PlainNames(ps: seq<string>) { ps != [] && forall i :: 0 <= i < |ps| ==> IsPlainName(ps[i]) }

  function ItemTokens(ps: seq<string>): seq<Token>
    requires ps != []
  {
    if |ps| == 1 then [Word(ps[0])] else ItemTokens(ps[..|ps| - 1]) + [Sym(','), Word(ps[|ps| - 1])]
  }

  lemma {:induction false} LexColumns(ps: seq<string>)
    requires ps != [] && forall i :: 0 <= i < |ps| ==> IsWord(ps[i])
    ensures Lex(ColumnText(ps)) == Some(ItemTokens(ps)) && ColumnText(ps) != ""
  {
    hide Lex;
    hide IsWord;
    var init, last := ps[..|ps| - 1], ps[|ps| - 1];
    LexWord(last);
    WordsAreNotEmpty(last);
    if |ps| == 1 {
      assert ColumnText(init) == "" && "" + last == last;
    } else {
      LexColumns(init);
      LexComma();
      LexAfter(ColumnText(init), ItemTokens(init), last);
    }
  }

  lemma WordsAreNotEmpty(w: string)
    requires IsWord(w)
    ensures w != ""
  {
  }

  lemma {:induction false} LexAfter(text: string, ts: seq<Token>, w: string)
    requires Lex(text) == Some(ts) && text != "" && IsWord(w)
    ensures Lex(text + ", " + w) == Some(ts + [Sym(','), Word(w)])
  {
    hide Lex;
    LexWord(w);
    LexComma();
    assert IsBreak(", "[0]) && IsBreak((text + ", ")[|text| + 1]);
    Glue(text, ts, ", ", [Sym(',')]);
    Glue(text + ", ", ts + [Sym(',')], w, [Word(w)]);
    assert ts + [Sym(',')] + [Word(w)] == ts + [Sym(','), Word(w)];
  }

  lemma {:induction false} ItemTokensCons(p: string, ps: seq<string>)
    requires ps != []
    ensures ItemTokens([p] + ps) == [Word(p), Sym(',')] + ItemTokens(ps)
  {
    var all := [p] + ps;
    if |ps| == 1 {
      assert all[..1] == [p] && ItemTokens([p]) == [Word(p)];
    } else {
      assert all[..|all| - 1] == [p] + ps[..|ps| - 1];
      ItemTokensCons(p, ps[..|ps| - 1]);
    }
  }

  lemma {:induction false} ItemsParse(ps: seq<string>, more: seq<Token>)
    requires ps != [] && more != [] && more[0] != Sym(',')
    ensures ParseItems(ItemTokens(ps) + more) == Some((ps, more))
    decreases |ps|
  {
    if |ps| == 1 {
      assert (ItemTokens(ps) + more)[1..] == more && ps == [ps[0]];
    } else {
      var p, rest := ps[0], ps[1..];
      assert ps == [p] + rest;
      ItemTokensCons(p, rest);
      ItemsParse(rest, more);
      assert (ItemTokens(ps) + more)[2..] == ItemTokens(rest) + more;
    }
  }

  /** The text of a plain SELECT is the query on that table with exactly those columns. */
  lemma {:induction false} SelectParses(cols: string, ps: seq<string>, table: string)
    requires ps != [] && Lex(cols) == Some(ItemTokens(ps)) && cols != "" && IsWord(table)
    ensures ParseQuery("SELECT " + cols + " FROM " + table) == Some(Query(ps, table, [], None))
  {
    var more := [Word("FROM"), Word(table)];
    LexSelect(cols, ItemTokens(ps), table);
    ItemsParse(ps, more);
    Keywords();
    var ts := [Word("SELECT")] + ItemTokens(ps) + more;
    assert ts[1..] == ItemTokens(ps) + more && more[2..] == [];
    hide Lex;
    hide ItemTokens;
    hide ParseItems;
    hide Lower;
  }

  lemma {:induction false} LexSelect(cols: string, ts: seq<Token>, table: string)
    requires Lex(cols) == Some(ts) && cols != "" && IsWord(table)
    ensures Lex("SELECT " + cols + " FROM " + table) == Some([Word("SELECT")] + ts + [Word("FROM"), Word(table)])
  {
    hide Lex;
    LexWord(table);
    LexSpaced("SELECT");
    LexSpaced("FROM");
    assert "SELECT" + " " == "SELECT " && " " + "FROM" + " " == " FROM ";
    assert IsBreak("SELECT "[6]) && IsBreak(" FROM "[0]) && IsBreak(" FROM "[5]);
    var head := "SELECT " + cols;
    Glue("SELECT ", [Word("SELECT")], cols, ts);
    Glue(head, [Word("SELECT")] + ts, " FROM ", [Word("FROM")]);
    assert (head + " FROM ")[|head| + 5] == ' ';
    Glue(head + " FROM ", [Word("SELECT")] + ts + [Word("FROM")], table, [Word(table)]);
    assert [Word("SELECT")] + ts + [Word("FROM")] + [Word(table)] == [Word("SELECT")] + ts + [Word("FROM"), Word(table)];
  }

  /** There is nothing to map the result with: neither an outgoing mapping nor an entity column. */
  predicate NoMapping(def: Definition) { def.outgoing.None? && def.entityColumn == "" }

  /** All columns are asked for: by a mapping of all, or for an entity column without a mapping. */
  predicate AsksForAll(def: Definition) {
    match def.outgoing case Some(o) => o.mapAll case None => def.entityColumn != ""
  }

  /**
   * The base query: a data query as it stands; otherwise a query on the configured table, for exactly
   * the mapped properties in their order, or for all columns. There is none without a mapping.
   */
  lemma BaseQueryExact(def: Definition)
    ensures NoMapping(def) ==> BaseQuery(def).None?
    ensures !NoMapping(def) && def.dataQuery != "" ==> BaseQuery(def) == ParseQuery(def.dataQuery)
    ensures def.dataQuery == "" && IsWord(def.tableName) && AsksForAll(def) ==>
              BaseQuery(def) == Some(Query(["*"], def.tableName, [], None))
    ensures def.dataQuery == "" && IsWord(def.tableName) && def.outgoing.Some? && !def.outgoing.value.mapAll && PlainNames(def.outgoing.value.properties) ==>
              BaseQuery(def) == Some(Query(def.outgoing.value.properties, def.tableName, [], None))
  {
    hide ParseQuery;
    if def.dataQuery == "" && IsWord(def.tableName) {
      if AsksForAll(def) {
        assert IsWord("*") && ItemTokens(["*"]) == [Word("*")];
        LexWord("*");
        SelectParses("*", ["*"], def.tableName);
      } else if def.outgoing.Some? && PlainNames(def.outgoing.value.properties) {
        var ps := def.outgoing.value.properties;
        LexColumns(ps);
        SelectParses(ColumnText(ps), ps, def.tableName);
      }
    }
  }

  // ---------------------------------------------------------------- errors

  /** When building fails, and with which error; otherwise the text continues the data query, if there is one. */
  lemma BuildFailsIff(def: Definition, since: string, maxSince: string, limit: int)
    ensures var r := BuildQuery(def, since, maxSince, limit);
            && (r == Err(MissingMapping) <==> NoMapping(def))
            && (r == Err(BadToken) <==>
                  !NoMapping(def) && maxSince != "" && (def.sinceTable != "" || def.sinceColumn != "") && since != "" && Base64.Decode(since).None?)
            && (r.Err? ==> r.error in {MissingMapping, BadToken})
            && (r.Ok? && def.dataQuery != "" ==> def.dataQuery <= r.value)
  {
    hide Contains;
    hide IntText;
    hide ColumnText;
    hide Base64.Decode;
  }

  /** Contains finds the part wherever it is. */
  lemma {:induction false} ContainsIff(s: string, part: string)
    ensures Contains(s, part) <==> exists i :: 0 <= i <= |s| && part <= s[i..]
    decreases |s|
  {
    if part <= s {
      assert s[0..] == s;
    } else if s != "" {
      ContainsIff(s[1..], part);
      if i :| 0 <= i <= |s[1..]| && part <= s[1..][i..] { assert s[1..][i..] == s[i + 1..]; }
      if i :| 0 <= i <= |s| && part <= s[i..] {
        assert s[0..] == s;
        assert s[1..][i - 1..] == s[i..];
      }
    } else {
      assert forall i :: 0 <= i <= |s| ==> s[i..] == s;
    }
  }

  // ---------------------------------------------------------------- what a consumer is given

  /** The selected columns of a row: all of it for a star, otherwise exactly the named columns, lower-cased. */
  lemma ProjectExact(cols: seq<string>, row: Row)
    ensures cols == ["*"] ==> Project(cols, row) == row
    ensures cols != ["*"] ==>
              (forall c :: c in Project(cols, row) <==> exists i :: 0 <= i < |cols| && Lower(cols[i]) == c) &&
              forall i :: 0 <= i < |cols| ==> Lower(cols[i]) in Project(cols, row) && Project(cols, row)[Lower(cols[i])] == CellIn(row, Lower(cols[i]))
  {
    hide Lower;
  }

  /** The columns of the base query. */
  function Shape(def: Definition): seq<string> {
    match BaseQuery(def) case None => [] case Some(q) => q.cols
  }

  /** The configured columns: exactly these properties. */
  predicate AsksFor(def: Definition, ps: seq<string>) {
    def.outgoing.Some? && !def.outgoing.value.mapAll && def.outgoing.value.properties == ps && PlainNames(ps)
  }

  /** A given row holds exactly the named columns of a row, lower-cased. */
  ghost predicate HasColumns(ps: seq<string>, row: Row, given: Row) {
    && (forall c :: c in given <==> exists i :: 0 <= i < |ps| && Lower(ps[i]) == c)
    && forall i :: 0 <= i < |ps| ==> Lower(ps[i]) in given && given[Lower(ps[i])] == CellIn(row, Lower(ps[i]))
  }

  /** What a read without a data query gives for a row: all of it, or exactly the mapped properties. */
  lemma GivenColumns(def: Definition, row: Row)
    requires def.dataQuery == "" && IsWord(def.tableName)
    ensures AsksForAll(def) ==> Project(Shape(def), row) == row
    ensures forall ps :: AsksFor(def, ps) ==> HasColumns(ps, row, Project(Shape(def), row))
  {
    BaseQueryExact(def);
    ProjectExact(Shape(def), row);
    if def.outgoing.Some? && PlainNames(def.outgoing.value.properties) {
      StarIsNotPlain(def.outgoing.value.properties);
    }
    hide BaseQuery;
    hide Project;
    hide PlainNames;
    hide Lower;
    hide IsWord;
  }

  lemma StarIsNotPlain(ps: seq<string>)
    requires PlainNames(ps)
    ensures ps != ["*"]
  {
    assert IsPlainName(ps[0]);
    assert "*"[0] == '*';
  }

  /** The given rows of a selection. */
  function ProjectAll(cols: seq<string>, rows: seq<Row>): (r: seq<Row>)
    ensures |r| == |rows|
  {
    seq(|rows|, i requires 0 <= i < |rows| => Project(cols, rows[i]))
  }
}
