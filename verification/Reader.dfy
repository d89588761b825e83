/** Incremental reads: query construction, the iterator, and what the constructed text selects. */
module Reader {
  import opened Basics
  import opened Lexer
  import opened Statements
  import opened SqlText
  import opened Select
  import Base64

  datatype Outgoing = Outgoing(mapAll: bool, properties: seq<string>)

  datatype Definition = Definition(
    tableName: string,
    sinceColumn: string,
    sinceTable: string,
    dataQuery: string,
    entityColumn: string,
    outgoing: Option<Outgoing>)

  datatype ReadError = MissingMapping | BadToken | BadQuery | MaxFailed | DataFailed

  // ---------------------------------------------------------------- the text

  function ColumnText(properties: seq<string>): string {
    if properties == [] then ""
    else
      var cols := ColumnText(properties[..|properties| - 1]);
      (if |cols| > 0 then cols + ", " else cols) + properties[|properties| - 1]
  }

  function Columns(def: Definition): Option<string> {
    match def.outgoing
    case None => if def.entityColumn != "" then Some("*") else None
    case Some(o) => Some(if o.mapAll then "*" else ColumnText(o.properties))
  }

  function BaseText(def: Definition, cols: string): string {
    if def.dataQuery != "" then def.dataQuery else "SELECT " + cols + " FROM " + def.tableName
  }

  predicate Contains(s: string, part: string)
    decreases |s|
  {
    part <= s || (s != "" && Contains(s[1..], part))
  }

  function Quoted(s: string): string { "'" + s + "'" }

  function WindowText(ref: string, since: Option<string>, maxSince: string): string {
    match since
    case Some(s) => ref + " > " + Quoted(s) + " AND " + ref + " <= " + Quoted(maxSince)
    case None => ref + " <= " + Quoted(maxSince)
  }

  function LimitText(limit: int): string { if limit != 0 then " LIMIT " + IntText(limit) else "" }

  /** No window is asked for. */
  predicate Unwindowed(def: Definition, maxSince: string) {
    maxSince == "" || (def.sinceTable == "" && def.sinceColumn == "")
  }

  /** The column the window is on, qualified by the since table or else by the table. */
  function Reference(def: Definition): string {
    (if def.sinceTable != "" then def.sinceTable else def.tableName) + "." + def.sinceColumn
  }

  /** With a since table a query that already contains WHERE is continued with AND; without one, always with WHERE. */
  function Connector(def: Definition, base: string): string {
    if def.sinceTable == "" then " WHERE " else if Contains(base, "WHERE") then " AND  " else " WHERE  "
  }

  function BuildQuery(def: Definition, since: string, maxSince: string, limit: int): Result<string, ReadError> {
    match Columns(def)
    case None => Err(MissingMapping)
    case Some(cols) =>
      var base := BaseText(def, cols);
      if Unwindowed(def, maxSince) then Ok(base + LimitText(limit))
      else if since != "" && Base64.Decode(since).None? then Err(BadToken)
      else
        var from := if since != "" then Base64.Decode(since) else None;
        Ok(base + Connector(def, base) + WindowText(Reference(def), from, maxSince) + LimitText(limit))
  }

  /** Builds the text of a data query by appending to local strings. */
  method MakeQuery(def: Definition, since: string, maxSince: string, limit: int) returns (r: Result<string, ReadError>)
    ensures r == BuildQuery(def, since, maxSince, limit)
  {
    var cols := "*";
    match def.outgoing {
      case None =>
        if def.entityColumn != "" {
          cols := "*";
        } else {
          return Err(MissingMapping);
        }
      case Some(o) =>
        if !o.mapAll {
          cols := "";
          for i := 0 to |o.properties|
            invariant cols == ColumnText(o.properties[..i])
          {
            if |cols| > 0 {
              cols := cols + ", ";
            }
            cols := cols + o.properties[i];
            assert o.properties[..i + 1][..i] == o.properties[..i];
          }
          assert o.properties[..|o.properties|] == o.properties;
        }
    }
    assert Columns(def) == Some(cols);
    var q: string;
    if def.dataQuery != "" {
      q := def.dataQuery;
    } else {
      q := "SELECT " + cols + " FROM " + def.tableName;
    }
    ghost var base := q;
    if maxSince != "" {
      if def.sinceTable != "" {
        var connectTerm := " AND ";
        if !Contains(q, "WHERE") {
          connectTerm := " WHERE ";
        }
        var ref := def.sinceTable + "." + def.sinceColumn;
        if since != "" {
          var value := Base64.Decode(since);
          if value.None? {
            return Err(BadToken);
          }
          q := q + (connectTerm + " ") + (ref + " > " + Quoted(value.value) + " AND " + ref + " <= " + Quoted(maxSince));
        } else {
          q := q + (connectTerm + " ") + (ref + " <= " + Quoted(maxSince));
        }
        assert connectTerm + " " == Connector(def, base);
      } else if def.sinceColumn != "" {
        var ref := def.tableName + "." + def.sinceColumn;
        if since != "" {
          var value := Base64.Decode(since);
          if value.None? {
            return Err(BadToken);
          }
          q := q + " WHERE " + (ref + " > " + Quoted(value.value) + " AND " + ref + " <= " + Quoted(maxSince));
        } else {
          q := q + " WHERE " + (ref + " <= " + Quoted(maxSince));
        }
      }
    }
    if limit != 0 {
      q := q + (" LIMIT " + IntText(limit));
    } else {
      assert q + "" == q;
    }
    return Ok(q);
  }

  // ---------------------------------------------------------------- lexing the appended text

  function WindowConds(ref: string, since: Option<string>, maxSince: string): seq<Cond> {
    (match since case Some(s) => [Cond(ref, Greater, LText(s))] case None => []) + [Cond(ref, AtMost, LText(maxSince))]
  }

  function WindowTokens(ref: string, since: Option<string>, maxSince: string): seq<Token> {
    (match since case Some(s) => [Word(ref), Sym('>'), Str(s), Word("AND")] case None => []) + [Word(ref), Le, Str(maxSince)]
  }

  lemma {:induction false} FirstIsAll(s: string, t: Token, n: nat)
    requires s != "" && First(s) == Take(t, n) && s[n..] == " "
    ensures Lex(s) == Some([t])
  {
    LexSpace(' ');
    assert [t] + [] == [t];
  }

  lemma LexComparisons()
    ensures Lex("> ") == Some([Sym('>')]) && Lex("<= ") == Some([Le])
  {
    hide Lex;
    hide WordLength;
    hide StringLength;
    assert "> "[1..] == " " && "<= "[2..] == " ";
    assert First("> ") == Take(Sym('>'), 1);
    assert First("<= ") == Take(Le, 2);
    FirstIsAll("> ", Sym('>'), 1);
    FirstIsAll("<= ", Le, 2);
  }

  lemma LexOperators()
    ensures Lex(" > ") == Some([Sym('>')]) && Lex(" <= ") == Some([Le])
    ensures Lex(" AND ") == Some([Word("AND")]) && Lex(" WHERE ") == Some([Word("WHERE")])
    ensures Lex(" AND  ") == Some([Word("AND")]) && Lex(" WHERE  ") == Some([Word("WHERE")])
    ensures Lex(" LIMIT ") == Some([Word("LIMIT")])
  {
    hide Lex;
    LexSpace(' ');
    LexComparisons();
    LexSpaced("AND");
    LexSpaced("WHERE");
    LexSpaced("LIMIT");
    assert [] + [Sym('>')] == [Sym('>')] && [] + [Le] == [Le];
    assert " " + "> " == " > " && " " + "<= " == " <= ";
    Glue(" ", [], "> ", [Sym('>')]);
    Glue(" ", [], "<= ", [Le]);
    assert " " + "AND" + " " == " AND " && " " + "WHERE" + " " == " WHERE " && " " + "LIMIT" + " " == " LIMIT ";
    assert [Word("AND")] + [] == [Word("AND")] && [Word("WHERE")] + [] == [Word("WHERE")];
    Glue(" AND ", [Word("AND")], " ", []);
    Glue(" WHERE ", [Word("WHERE")], " ", []);
    assert " AND " + " " == " AND  " && " WHERE " + " " == " WHERE  ";
  }

  lemma {:induction false} LexBound(ref: string, op: string, t: Token, value: string)
    requires IsWord(ref) && IsPlain(value) && ((op == " > " && t == Sym('>')) || (op == " <= " && t == Le))
    ensures Lex(ref + op + Quoted(value)) == Some([Word(ref), t, Str(value)])
  {
    hide Lex;
    LexOperators();
    LexWord(ref);
    LexString(value);
    Glue(ref, [Word(ref)], op, [t]);
    Glue(ref + op, [Word(ref)] + [t], Quoted(value), [Str(value)]);
    assert [Word(ref)] + [t] + [Str(value)] == [Word(ref), t, Str(value)];
  }

  lemma LexWindow(ref: string, since: Option<string>, maxSince: string)
    requires IsWord(ref) && IsPlain(maxSince) && (since.Some? ==> IsPlain(since.value))
    ensures Lex(WindowText(ref, since, maxSince)) == Some(WindowTokens(ref, since, maxSince))
    ensures WindowText(ref, since, maxSince) != ""
  {
    hide Lex;
    LexBound(ref, " <= ", Le, maxSince);
    match since {
      case None => assert [] + [Word(ref), Le, Str(maxSince)] == [Word(ref), Le, Str(maxSince)];
      case Some(s) =>
        var lower := ref + " > " + Quoted(s);
        var upper := ref + " <= " + Quoted(maxSince);
        var t := [Word(ref), Sym('>'), Str(s)];
        LexBound(ref, " > ", Sym('>'), s);
        LexOperators();
        Glue(lower, t, " AND ", [Word("AND")]);
        Glue(lower + " AND ", t + [Word("AND")], upper, [Word(ref), Le, Str(maxSince)]);
        assert WindowText(ref, since, maxSince) == lower + " AND " + upper;
        assert t + [Word("AND")] == [Word(ref), Sym('>'), Str(s), Word("AND")];
    }
  }

  function LimitTokens(limit: int): seq<Token> { if limit != 0 then [Word("LIMIT"), Word(IntText(limit))] else [] }

  lemma IntTextIsWord(n: int)
    ensures IsWord(IntText(n))
  {
  }

  lemma {:induction false} LexLimitWord(w: string)
    requires IsWord(w)
    ensures Lex(" LIMIT " + w) == Some([Word("LIMIT"), Word(w)])
  {
    hide Lex;
    LexOperators();
    LexWord(w);
    assert IsBreak(" LIMIT "[6]);
    hide *;
    Glue(" LIMIT ", [Word("LIMIT")], w, [Word(w)]);
    assert [Word("LIMIT")] + [Word(w)] == [Word("LIMIT"), Word(w)];
  }

  lemma LexLimit(limit: int)
    ensures Lex(LimitText(limit)) == Some(LimitTokens(limit))
  {
    if limit != 0 {
      hide Lex;
      hide IntText;
      IntTextIsWord(limit);
      LexLimitWord(IntText(limit));
    }
  }

  /** A text that begins with a space, or an empty one, can follow any text. */
  lemma {:induction false} GlueSpaced(a: string, ta: seq<Token>, b: string, tb: seq<Token>)
    requires Lex(a) == Some(ta) && Lex(b) == Some(tb) && (b == "" || b[0] == ' ')
    ensures Lex(a + b) == Some(ta + tb)
  {
    hide Lex;
    LexAppend(a, b);
  }

  lemma {:induction false} LexConnector(connector: string, word: string)
    requires (connector in {" WHERE ", " WHERE  "} && word == "WHERE") || (connector == " AND  " && word == "AND")
    ensures Lex(connector) == Some([Word(word)]) && connector != "" && connector[0] == ' ' && IsBreak(connector[|connector| - 1])
  {
    hide Lex;
    LexOperators();
  }

  lemma {:induction false} LexJoined(base: string, b: seq<Token>, connector: string, word: string, window: string, w: seq<Token>)
    requires Lex(base) == Some(b) && Lex(window) == Some(w) && window != ""
    requires Lex(connector) == Some([Word(word)]) && connector != "" && connector[0] == ' ' && IsBreak(connector[|connector| - 1])
    ensures Lex(base + connector + window) == Some(b + [Word(word)] + w)
  {
    hide *;
    GlueSpaced(base, b, connector, [Word(word)]);
    var head := base + connector;
    assert head[|head| - 1] == connector[|connector| - 1];
    Glue(head, b + [Word(word)], window, w);
  }

  lemma LimitIsSpaced(limit: int)
    ensures LimitText(limit) == "" || LimitText(limit)[0] == ' '
  {
    hide IntText;
  }

  /** The tokens of the built text are those of the base text and those of what was appended. */
  lemma {:induction false} LexBuilt(base: string, connector: string, word: string, window: string, w: seq<Token>, limit: int)
    requires Lex(base).Some? && Lex(window) == Some(w) && window != ""
    requires (connector in {" WHERE ", " WHERE  "} && word == "WHERE") || (connector == " AND  " && word == "AND")
    ensures Lex(base + connector + window + LimitText(limit)) == Some(Lex(base).value + ([Word(word)] + w + LimitTokens(limit)))
  {
    hide *;
    var b := Lex(base).value;
    LexConnector(connector, word);
    LexJoined(base, b, connector, word, window, w);
    LexLimit(limit);
    LimitIsSpaced(limit);
    GlueSpaced(base + connector + window, b + [Word(word)] + w, LimitText(limit), LimitTokens(limit));
    Assoc(b, [Word(word)], w);
    Assoc(b, [Word(word)] + w, LimitTokens(limit));
  }

  // ---------------------------------------------------------------- parsing the built text

  /** The conjunction that the window joins: the last one, or a new one. */
  function Narrow(where: seq<seq<Cond>>, window: seq<Cond>): seq<seq<Cond>> {
    if where == [] then [window] else where[..|where| - 1] + [where[|where| - 1] + window]
  }

  /** What the database makes of a limit: zero is none, and a negative one is no query. */
  function LimitOf(limit: int): Option<nat> { if limit > 0 then Some(limit) else None }

  lemma {:induction false} MinusIsNoNat(s: string)
    requires s != "" && s[0] == '-'
    ensures ParseNat(s).None?
  {
    if |s| > 1 { MinusIsNoNat(s[..|s| - 1]); }
  }

  lemma LimitParses(limit: int)
    ensures ParseLimit(LimitTokens(limit)) == if limit >= 0 then Some(LimitOf(limit)) else None
    ensures !Continues(LimitTokens(limit))
  {
    Keywords();
    if limit >= 0 { NatRoundTrip(limit); } else { MinusIsNoNat(IntText(limit)); }
    hide NatText;
    hide ParseNat;
  }

  lemma WindowParses(ref: string, since: Option<string>, maxSince: string, limit: int)
    ensures ParseWhere(WindowTokens(ref, since, maxSince) + LimitTokens(limit)) == Some(([WindowConds(ref, since, maxSince)], LimitTokens(limit)))
  {
    Keywords();
    LimitParses(limit);
    var upper := [Word(ref), Le, Str(maxSince)];
    var c := Cond(ref, AtMost, LText(maxSince));
    UpperParses(upper, c, LimitTokens(limit));
    match since {
      case None => assert [] + upper == upper && [] + [c] == [c];
      case Some(s) =>
        var lower := Cond(ref, Greater, LText(s));
        var ts := [Word(ref), Sym('>'), Str(s), Word("AND")] + upper + LimitTokens(limit);
        assert ts[4..] == upper + LimitTokens(limit);
        WhereAnd(ts, lower, [[c]], LimitTokens(limit));
        assert [[lower] + [[c]][0]] + [[c]][1..] == [[lower] + [c]];
    }
  }

  lemma {:induction false} UpperParses(ts: seq<Token>, c: Cond, more: seq<Token>)
    requires |ts| == 3 && ParseCond(ts) == Some(c) && !Continues(more)
    ensures ParseWhere(ts + more) == Some(([[c]], more))
  {
    WhereStops(ts, more);
  }

  lemma {:induction false} FilterParses(cols: seq<string>, table: string, ts: seq<Token>, ds: seq<seq<Cond>>, rest: seq<Token>)
    requires ParseWhere(ts) == Some((ds, rest))
    ensures ParseFilter(cols, table, ts) == match ParseLimit(rest) case None => None case Some(l) => Some(Query(cols, table, ds, l))
  {
  }

  /** What WHERE and AND mean after the table of a query, and that no condition or limit begins with WHERE. */
  lemma TailWords(cols: seq<string>, table: string, ts: seq<Token>)
    ensures ParseTail(cols, table, [Word("WHERE")] + ts) == ParseFilter(cols, table, ts)
    ensures ParseTail(cols, table, [Word("AND")] + ts).None? && Keyword(Word("AND"), "and")
    ensures ParseLimit([Word("WHERE")] + ts).None? && !Continues([Word("WHERE")] + ts)
  {
    Keywords();
    assert ([Word("WHERE")] + ts)[1..] == ts;
    hide ParseFilter;
  }

  /** Appending a WHERE clause to the tokens of a query: read if the query had none, an error otherwise. */
  lemma {:induction false} AppendWhere(ts: seq<Token>, cs: seq<Token>, w: seq<Cond>, limit: int)
    requires ParseTokens(ts).Some? && ParseTokens(ts).value.limit.None?
    requires ParseWhere(cs + LimitTokens(limit)) == Some(([w], LimitTokens(limit)))
    ensures var q := ParseTokens(ts).value;
            ParseTokens(ts + ([Word("WHERE")] + cs + LimitTokens(limit))) ==
            if q.where == [] && limit >= 0 then Some(q.(where := [w], limit := LimitOf(limit))) else None
  {
    hide *;
    LimitParses(limit);
    var q, rest := ParseTokens(ts).value, cs + LimitTokens(limit);
    var more := [Word("WHERE")] + rest;
    assert [Word("WHERE")] + cs + LimitTokens(limit) == more;
    TailWords(q.cols, q.table, rest);
    var head := QueryExtend(ts, more);
    if q.where == [] {
      FilterParses(q.cols, q.table, rest, [w], LimitTokens(limit));
    } else {
      WhereStops(head, more);
      FilterParses(q.cols, q.table, head + more, q.where, more);
    }
  }

  /** Appending a conjunction: read if the query had a WHERE clause, an error otherwise. */
  lemma {:induction false} AppendAnd(ts: seq<Token>, cs: seq<Token>, w: seq<Cond>, limit: int)
    requires ParseTokens(ts).Some? && ParseTokens(ts).value.limit.None?
    requires ParseWhere(cs + LimitTokens(limit)) == Some(([w], LimitTokens(limit)))
    ensures var q := ParseTokens(ts).value;
            ParseTokens(ts + ([Word("AND")] + cs + LimitTokens(limit))) ==
            if q.where == [] || limit < 0 then None else Some(q.(where := Narrow(q.where, w), limit := LimitOf(limit)))
  {
    hide *;
    LimitParses(limit);
    var q, rest := ParseTokens(ts).value, cs + LimitTokens(limit);
    var more := [Word("AND")] + rest;
    assert [Word("AND")] + cs + LimitTokens(limit) == more;
    TailWords(q.cols, q.table, rest);
    var head := QueryExtend(ts, more);
    if q.where != [] {
      WhereAttaches(head, Word("AND"), rest);
      assert head + more == head + [Word("AND")] + rest;
      AttachOne(q.where, w);
      FilterParses(q.cols, q.table, head + more, Narrow(q.where, w), LimitTokens(limit));
    }
  }

  lemma AttachOne(where: seq<seq<Cond>>, w: seq<Cond>)
    requires where != []
    ensures Attach(where, [w]) == Narrow(where, w)
  {
  }

  /** The base text has the shape that the branch of the code expects. */
  predicate Guard(def: Definition, base: string, q: Query) {
    if def.sinceTable != "" then Contains(base, "WHERE") <==> q.where != [] else q.where == []
  }

  /** The base query of a definition, as the database reads it. */
  function BaseQuery(def: Definition): Option<Query> {
    match Columns(def) case None => None case Some(cols) => ParseQuery(BaseText(def, cols))
  }

  /** The base query has the shape that the branch of the code expects. */
  predicate Guarded(def: Definition) {
    match (Columns(def), BaseQuery(def))
    case (Some(cols), Some(q)) => Guard(def, BaseText(def, cols), q)
    case _ => false
  }

  function From(since: string): Option<string> { if since != "" then Base64.Decode(since) else None }

  /**
   * For every base text that is a query without LIMIT: the built text is a query exactly when the
   * guard holds and the limit is not negative, and then it is the base query with the window joined
   * to its last conjunction.
   */
  lemma {:induction false} BuiltQuery(def: Definition, since: string, maxSince: string, limit: int)
    requires Columns(def).Some? && !Unwindowed(def, maxSince)
    requires ParseQuery(BaseText(def, Columns(def).value)).Some? && ParseQuery(BaseText(def, Columns(def).value)).value.limit.None?
    requires IsWord(Reference(def)) && IsPlain(maxSince) && (since != "" ==> From(since).Some? && IsPlain(From(since).value))
    ensures var text, base := BuildQuery(def, since, maxSince, limit), BaseText(def, Columns(def).value);
            var q := ParseQuery(base).value;
            var window := WindowConds(Reference(def), From(since), maxSince);
            text.Ok? && ParseQuery(text.value) ==
              if Guard(def, base, q) && limit >= 0 then Some(q.(where := Narrow(q.where, window), limit := LimitOf(limit))) else None
  {
    var base, ref, from := BaseText(def, Columns(def).value), Reference(def), From(since);
    var connector := Connector(def, base);
    var ts, cs := Lex(base).value, WindowTokens(ref, from, maxSince);
    LexWindow(ref, from, maxSince);
    WindowParses(ref, from, maxSince, limit);
    if connector == " AND  " {
      LexBuilt(base, connector, "AND", WindowText(ref, from, maxSince), cs, limit);
      AppendAnd(ts, cs, WindowConds(ref, from, maxSince), limit);
    } else {
      LexBuilt(base, connector, "WHERE", WindowText(ref, from, maxSince), cs, limit);
      AppendWhere(ts, cs, WindowConds(ref, from, maxSince), limit);
    }
  }

  /** Without a maximum the base query is only limited. */
  lemma {:induction false} BuiltUnwindowed(def: Definition, since: string, maxSince: string, limit: int)
    requires Columns(def).Some? && Unwindowed(def, maxSince)
    requires ParseQuery(BaseText(def, Columns(def).value)).Some? && ParseQuery(BaseText(def, Columns(def).value)).value.limit.None?
    ensures var text, q := BuildQuery(def, since, maxSince, limit), ParseQuery(BaseText(def, Columns(def).value)).value;
            text.Ok? && ParseQuery(text.value) == if limit >= 0 then Some(q.(limit := LimitOf(limit))) else None
  {
    var base := BaseText(def, Columns(def).value);
    assert BuildQuery(def, since, maxSince, limit) == Ok(base + LimitText(limit));
    hide BaseText;
    hide BuildQuery;
    hide Columns;
    hide Lex;
    hide ParseTokens;
    hide LimitText;
    LexLimit(limit);
    LimitIsSpaced(limit);
    GlueSpaced(base, Lex(base).value, LimitText(limit), LimitTokens(limit));
    LimitAppended(Lex(base).value, limit);
  }

  lemma LimitAppended(ts: seq<Token>, limit: int)
    requires ParseTokens(ts).Some? && ParseTokens(ts).value.limit.None?
    ensures ParseTokens(ts + LimitTokens(limit)) == if limit >= 0 then Some(ParseTokens(ts).value.(limit := LimitOf(limit))) else None
  {
    hide *;
    var q := ParseTokens(ts).value;
    var conditions := QueryExtend(ts, LimitTokens(limit));
    LimitParses(limit);
    if q.where == [] {
      LimitIsTail(q.cols, q.table, limit);
    } else {
      WhereStops(conditions, LimitTokens(limit));
      FilterParses(q.cols, q.table, conditions + LimitTokens(limit), q.where, LimitTokens(limit));
    }
  }

  lemma LimitIsTail(cols: seq<string>, table: string, limit: int)
    ensures ParseTail(cols, table, LimitTokens(limit)) ==
            match ParseLimit(LimitTokens(limit)) case None => None case Some(l) => Some(Query(cols, table, [], l))
  {
    Keywords();
    hide ParseLimit;
    hide IntText;
    hide ParseFilter;
  }
}
