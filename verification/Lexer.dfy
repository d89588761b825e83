/** A lexer for the SQL text that the layer builds. */
module Lexer {
  import opened Basics

  datatype Token =
    | Word(w: string)   // identifier, keyword, number or star
    | Str(s: string)    // quoted string without quotes or backslashes inside
    | Sym(c: char)
    | Le                // <=

  predicate IsSpace(c: char) { c == ' ' || c == '\n' || c == '\t' || c == '\r' }

  predicate IsWordChar(c: char) {
    'a' <= c <= 'z' || 'A' <= c <= 'Z' || IsDigit(c) || c == '_' || c == '.' || c == '*' || c == '-' || c == '$'
  }

  predicate IsWord(s: string) { s != "" && forall i :: 0 <= i < |s| ==> IsWordChar(s[i]) }

  /** No quote and no backslash: the strings whose quoted form needs no escaping. */
  predicate IsPlain(s: string) { forall i :: 0 <= i < |s| ==> s[i] != '\'' && s[i] != '\\' }

  function WordLength(s: string): (n: nat)
    ensures n <= |s|
    ensures forall i :: 0 <= i < n ==> IsWordChar(s[i])
    ensures n < |s| ==> !IsWordChar(s[n])
  {
    if s != "" && IsWordChar(s[0]) then 1 + WordLength(s[1..]) else 0
  }

  /** Position of the quote that closes a string; a backslash before it is not understood. */
  function StringLength(s: string): (r: Option<nat>)
    ensures r.Some? ==> r.value < |s| && s[r.value] == '\'' && IsPlain(s[..r.value])
  {
    if s == "" || s[0] == '\\' then None
    else if s[0] == '\'' then Some(0)
    else
      match StringLength(s[1..])
      case None => None
      case Some(n) =>
        assert s[..n + 1] == [s[0]] + s[1..][..n];
        Some(n + 1)
  }

  function Prepend(t: Token, rest: Option<seq<Token>>): Option<seq<Token>> {
    match rest case None => None case Some(ts) => Some([t] + ts)
  }

  function Append(ts: seq<Token>, rest: Option<seq<Token>>): Option<seq<Token>> {
    match rest case None => None case Some(us) => Some(ts + us)
  }

  /** The first token of s, or none for a space, with the number of characters it takes. */
  datatype Step = Skip | Take(t: Token, n: nat) | Stuck

  function First(s: string): (r: Step)
    requires s != ""
    ensures r.Take? ==> 0 < r.n <= |s|
  {
    if IsSpace(s[0]) then Skip
    else if s[0] == '\'' then
      match StringLength(s[1..])
      case None => Stuck
      case Some(n) =>
        // two quotes in a row are an escape, which this lexer does not understand
        if n + 2 < |s| && s[n + 2] == '\'' then Stuck else Take(Str(s[1..n + 1]), n + 2)
    else if IsWordChar(s[0]) then Take(Word(s[..WordLength(s)]), WordLength(s))
    else if s[0] == '<' && |s| > 1 && s[1] == '=' then Take(Le, 2)
    else Take(Sym(s[0]), 1)
  }

  function Lex(s: string): Option<seq<Token>>
    decreases |s|
  {
    if s == "" then Some([])
    else match First(s)
      case Stuck => None
      case Skip => Lex(s[1..])
      case Take(t, n) => Prepend(t, Lex(s[n..]))
  }

  // ---------------------------------------------------------------- composing texts

  /** Nothing at the seam of a and b could be read as one token. */
  predicate Seam(a: string, b: string) {
    a == "" || b == "" ||
    (var x, y := a[|a| - 1], b[0];
     !(IsWordChar(x) && IsWordChar(y)) && !(x == '\'' && y == '\'') && !(x == '<' && y == '='))
  }

  lemma {:induction false} WordLengthStable(a: string, b: string)
    requires a != "" && Seam(a, b) && IsWordChar(a[0])
    ensures WordLength(a + b) == WordLength(a)
  {
    assert (a + b)[1..] == a[1..] + b;
    if |a| > 1 && IsWordChar(a[1]) {
      WordLengthStable(a[1..], b);
    } else if |a| == 1 {
      assert a[1..] + b == b;
    } else {
      assert (a[1..] + b)[0] == a[1];
    }
  }

  lemma {:induction false} StringLengthStable(a: string, b: string)
    requires StringLength(a).Some?
    ensures StringLength(a + b) == StringLength(a)
  {
    assert (a + b)[1..] == a[1..] + b;
    if a[0] != '\'' {
      StringLengthStable(a[1..], b);
    }
  }

  lemma FirstStable(a: string, b: string)
    requires a != "" && Seam(a, b) && First(a) != Stuck
    ensures First(a + b) == First(a)
  {
    var s := a + b;
    assert s[0] == a[0];
    if IsSpace(a[0]) {
    } else if a[0] == '\'' {
      StringLengthStable(a[1..], b);
      assert s[1..] == a[1..] + b;
      var n := StringLength(a[1..]).value;
      assert s[1..n + 1] == a[1..n + 1];
    } else if IsWordChar(a[0]) {
      WordLengthStable(a, b);
      assert s[..WordLength(a)] == a[..WordLength(a)];
    }
  }

  lemma SeamOfRest(a: string, b: string, n: nat)
    requires Seam(a, b) && n <= |a|
    ensures Seam(a[n..], b)
  {
    if n < |a| { assert a[n..][|a| - n - 1] == a[|a| - 1]; }
  }

  /** Lexing is compositional wherever the seam is clean. */
  lemma {:induction false} LexAppend(a: string, b: string)
    requires Lex(a).Some? && Seam(a, b)
    ensures Lex(a + b) == Append(Lex(a).value, Lex(b))
    decreases |a|
  {
    hide Seam;
    hide First;
    if a == "" {
      assert a + b == b;
      assert forall ts: seq<Token> :: [] + ts == ts;
    } else {
      FirstStable(a, b);
      var n := if First(a).Skip? then 1 else First(a).n;
      assert (a + b)[n..] == a[n..] + b;
      SeamOfRest(a, b, n);
      LexAppend(a[n..], b);
      if First(a).Take? && Lex(b).Some? {
        assert [First(a).t] + (Lex(a[n..]).value + Lex(b).value) == Lex(a).value + Lex(b).value;
      }
    }
  }

  // ---------------------------------------------------------------- single tokens

  lemma {:induction false} WholeWord(s: string)
    requires IsWord(s)
    ensures WordLength(s) == |s|
  {
    if |s| > 1 { WholeWord(s[1..]); }
  }

  lemma {:induction false} LexWord(s: string)
    requires IsWord(s)
    ensures Lex(s) == Some([Word(s)])
  {
    WholeWord(s);
    assert s[..|s|] == s && s[|s|..] == "";
    assert First(s) == Take(Word(s), |s|);
    assert [Word(s)] + [] == [Word(s)];
  }

  lemma {:induction false} WholeString(s: string, rest: string)
    requires IsPlain(s)
    ensures StringLength(s + "'" + rest) == Some(|s|)
  {
    var t := s + "'" + rest;
    if s != "" {
      assert t[1..] == s[1..] + "'" + rest;
      WholeString(s[1..], rest);
    }
  }

  lemma {:induction false} LexString(s: string)
    requires IsPlain(s)
    ensures Lex("'" + s + "'") == Some([Str(s)])
  {
    var t := "'" + s + "'";
    WholeString(s, "");
    assert t[1..] == s + "'" + "";
    assert t[1..|s| + 1] == s;
    assert t[|s| + 2..] == "";
    assert First(t) == Take(Str(s), |s| + 2);
    assert [Str(s)] + [] == [Str(s)];
  }
}
