/** base64url with padding (section 5 of RFC 4648), the alphabet of continuation tokens. */
module Base64 {
  import opened Basics

  /** Go strings are byte strings. */
  predicate IsBytes(s: string) { forall i :: 0 <= i < |s| ==> s[i] as int < 256 }

  function Symbol(v: nat): char
    requires v < 64
  {
    if v < 26 then (65 + v) as char
    else if v < 52 then (71 + v) as char
    else if v < 62 then (v - 4) as char
    else if v == 62 then '-' else '_'
  }

  /** The alphabet of Table 2 in section 5 of RFC 4648. */
  const ALPHABET := CAPITALS + SMALL_LETTERS + "0123456789" + "-_"

  lemma SymbolIsInAlphabet(v: nat)
    requires v < 64
    ensures |ALPHABET| == 64 && Symbol(v) == ALPHABET[v]
  {
    CapitalsInOrder();
    if v < 26 {
      assert ALPHABET[v] == CAPITALS[v];
    } else if v < 52 {
      assert ALPHABET[v] == SMALL_LETTERS[v - 26];
    } else if v < 62 {
      assert ALPHABET[v] == "0123456789"[v - 52];
    } else {
      assert ALPHABET[v] == "-_"[v - 62];
    }
  }

  function Value(c: char): (r: Option<nat>)
    ensures r.Some? ==> r.value < 64 && Symbol(r.value) == c
  {
    if 'A' <= c <= 'Z' then Some(c as int - 65)
    else if 'a' <= c <= 'z' then Some(c as int - 71)
    else if '0' <= c <= '9' then Some(c as int + 4)
    else if c == '-' then Some(62)
    else if c == '_' then Some(63)
    else None
  }

  lemma ValueOfSymbol(v: nat)
    requires v < 64
    ensures Value(Symbol(v)) == Some(v) && Symbol(v) != '=' && Symbol(v) != '\n' && Symbol(v) != '\r'
  {
  }

  function Encode(s: string): string
    requires IsBytes(s)
  {
    if s == "" then ""
    else
      var a := s[0] as int;
      if |s| == 1 then [Symbol(a / 4), Symbol(a % 4 * 16), '=', '=']
      else
        var b := s[1] as int;
        if |s| == 2 then [Symbol(a / 4), Symbol(a % 4 * 16 + b / 16), Symbol(b % 16 * 4), '=']
        else
          var c := s[2] as int;
          [Symbol(a / 4), Symbol(a % 4 * 16 + b / 16), Symbol(b % 16 * 4 + c / 64), Symbol(c % 64)] + Encode(s[3..])
  }

  /** Decoding of text without line breaks: groups of four, padding only in the last. */
  function DecodeGroups(s: string): Option<string> {
    if s == "" then Some("")
    else if |s| < 4 then None
    else
      match (Value(s[0]), Value(s[1]))
      case (Some(p), Some(q)) =>
        if s[2] == '=' then
          if s[3] == '=' && |s| == 4 then Some([(p * 4 + q / 16) as char]) else None
        else (
          match Value(s[2])
          case None => None
          case Some(r) =>
            if s[3] == '=' then
              if |s| == 4 then Some([(p * 4 + q / 16) as char, (q % 16 * 16 + r / 4) as char]) else None
            else
              match (Value(s[3]), DecodeGroups(s[4..]))
              case (Some(t), Some(rest)) =>
                Some([(p * 4 + q / 16) as char, (q % 16 * 16 + r / 4) as char, (r % 4 * 64 + t) as char] + rest)
              case _ => None)
      case _ => None
  }

  function WithoutBreaks(s: string): string {
    if s == "" then ""
    else if s[0] == '\n' || s[0] == '\r' then WithoutBreaks(s[1..])
    else [s[0]] + WithoutBreaks(s[1..])
  }

  /** Line breaks are ignored, as Go's decoder ignores them. */
  function Decode(s: string): Option<string> { DecodeGroups(WithoutBreaks(s)) }

  /** Three bytes survive the regrouping into four sextets. */
  lemma Regroup(a: nat, b: nat, c: nat)
    requires a < 256 && b < 256 && c < 256
    ensures var p, q, r, t := a / 4, a % 4 * 16 + b / 16, b % 16 * 4 + c / 64, c % 64;
            p < 64 && q < 64 && r < 64 && p * 4 + q / 16 == a && q % 16 * 16 + r / 4 == b && r % 4 * 64 + t == c
  {
  }

  /** The values and the padding of the code of one or two bytes. */
  lemma {:induction false} ShortCode(s: string)
    requires IsBytes(s) && 1 <= |s| <= 2
    ensures var e, a, b := Encode(s), s[0] as int, if |s| == 2 then s[1] as int else 0;
            |e| == 4 && e[3] == '=' && Value(e[0]) == Some(a / 4) && Value(e[1]) == Some(a % 4 * 16 + b / 16) &&
            (if |s| == 1 then e[2] == '=' else e[2] != '=' && Value(e[2]) == Some(b % 16 * 4))
  {
    var a, b := s[0] as int, if |s| == 2 then s[1] as int else 0;
    ValueOfSymbol(a / 4);
    ValueOfSymbol(a % 4 * 16 + b / 16);
    ValueOfSymbol(b % 16 * 4);
  }

  lemma {:induction false} DecodeShort(e: string, s: string)
    requires IsBytes(s) && 1 <= |s| <= 2 && |e| == 4 && e[3] == '='
    requires var a, b := s[0] as int, if |s| == 2 then s[1] as int else 0;
             Value(e[0]) == Some(a / 4) && Value(e[1]) == Some(a % 4 * 16 + b / 16) &&
             (if |s| == 1 then e[2] == '=' else e[2] != '=' && Value(e[2]) == Some(b % 16 * 4))
    ensures DecodeGroups(e) == Some(s)
  {
    Regroup(s[0] as int, if |s| == 2 then s[1] as int else 0, 0);
    assert s == if |s| == 1 then [s[0]] else [s[0], s[1]];
  }

  /** The values of the code of the first three bytes. */
  lemma {:induction false} LongCode(s: string)
    requires IsBytes(s) && |s| >= 3
    ensures var e, a, b, c := Encode(s), s[0] as int, s[1] as int, s[2] as int;
            |e| >= 4 && e[2] != '=' && e[3] != '=' && e[4..] == Encode(s[3..]) &&
            Value(e[0]) == Some(a / 4) && Value(e[1]) == Some(a % 4 * 16 + b / 16) &&
            Value(e[2]) == Some(b % 16 * 4 + c / 64) && Value(e[3]) == Some(c % 64)
  {
    var a, b, c := s[0] as int, s[1] as int, s[2] as int;
    ValueOfSymbol(a / 4);
    ValueOfSymbol(a % 4 * 16 + b / 16);
    ValueOfSymbol(b % 16 * 4 + c / 64);
    ValueOfSymbol(c % 64);
    assert Encode(s)[4..] == Encode(s[3..]);
    hide Value;
    hide Symbol;
  }

  lemma {:induction false} DecodeLong(e: string, s: string)
    requires IsBytes(s) && |s| >= 3 && |e| >= 4 && e[2] != '=' && e[3] != '='
    requires var a, b, c := s[0] as int, s[1] as int, s[2] as int;
             Value(e[0]) == Some(a / 4) && Value(e[1]) == Some(a % 4 * 16 + b / 16) &&
             Value(e[2]) == Some(b % 16 * 4 + c / 64) && Value(e[3]) == Some(c % 64)
    requires DecodeGroups(e[4..]) == Some(s[3..])
    ensures DecodeGroups(e) == Some(s)
  {
    hide Value;
    Regroup(s[0] as int, s[1] as int, s[2] as int);
    assert s == [s[0], s[1], s[2]] + s[3..];
  }

  lemma {:induction false} GroupsRoundTrip(s: string)
    requires IsBytes(s)
    ensures DecodeGroups(Encode(s)) == Some(s)
  {
    if |s| == 1 || |s| == 2 {
      ShortCode(s);
      DecodeShort(Encode(s), s);
    } else if s != "" {
      LongCode(s);
      GroupsRoundTrip(s[3..]);
      DecodeLong(Encode(s), s);
    }
  }

  lemma {:induction false} EncodeHasNoBreaks(s: string)
    requires IsBytes(s)
    ensures forall i :: 0 <= i < |Encode(s)| ==> Encode(s)[i] != '\n' && Encode(s)[i] != '\r'
  {
    forall v: nat | v < 64 ensures Symbol(v) != '\n' && Symbol(v) != '\r' { ValueOfSymbol(v); }
    if |s| > 2 { EncodeHasNoBreaks(s[3..]); }
  }

  lemma {:induction false} NoBreaksUnchanged(s: string)
    requires forall i :: 0 <= i < |s| ==> s[i] != '\n' && s[i] != '\r'
    ensures WithoutBreaks(s) == s
  {
    if s != "" { NoBreaksUnchanged(s[1..]); }
  }

  /** What was encoded comes back, and only the empty string has the empty code. */
  lemma {:induction false} RoundTrip(s: string)
    requires IsBytes(s)
    ensures Decode(Encode(s)) == Some(s)
    ensures Encode(s) == "" <==> s == ""
  {
    GroupsRoundTrip(s);
    EncodeHasNoBreaks(s);
    NoBreaksUnchanged(Encode(s));
  }
}
