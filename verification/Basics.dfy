/** Options, results and the few string operations the other modules share. */
module Basics {

  datatype Option<+T> = None | Some(value: T)

  datatype Result<+T, +E> = Ok(value: T) | Err(error: E)

  // ---------------------------------------------------------------- case and order

  /** Lower-casing, on ASCII letters only. */
  function LowerChar(c: char): char {
    if 'A' <= c <= 'Z' then (c as int + 32) as char else c
  }

  function Lower(s: string): (r: string)
    ensures |r| == |s|
  {
    seq(|s|, i requires 0 <= i < |s| => LowerChar(s[i]))
  }

  const CAPITALS := "ABCDEFGHIJKLMNOPQRSTUVWXYZ"
  const SMALL_LETTERS := "abcdefghijklmnopqrstuvwxyz"

  /** Every capital letter becomes its small letter, and every other character stays. */
  lemma LowerExact(s: string, i: nat)
    requires i < |s|
    ensures forall k :: 0 <= k < 26 && s[i] == CAPITALS[k] ==> Lower(s)[i] == SMALL_LETTERS[k]
    ensures s[i] !in CAPITALS ==> Lower(s)[i] == s[i]
  {
    CapitalsInOrder();
    if 'A' <= s[i] <= 'Z' {
      var k := s[i] as int - 65;
      assert CAPITALS[k] == s[i];
    }
  }

  lemma CapitalsInOrder()
    ensures |CAPITALS| == |SMALL_LETTERS| == 26
    ensures forall k :: 0 <= k < 26 ==> CAPITALS[k] as int == 65 + k && SMALL_LETTERS[k] as int == 97 + k
  {
  }

  /** Lexicographic order on strings, as Go and MySQL (binary collation) compare them. */
  predicate TextLess(a: string, b: string) {
    b != [] && (a == [] || a[0] < b[0] || (a[0] == b[0] && TextLess(a[1..], b[1..])))
  }

  predicate TextLeq(a: string, b: string) {
    a == b || TextLess(a, b)
  }

  lemma {:induction false} TextLessTotal(a: string, b: string)
    ensures a == b || TextLess(a, b) || TextLess(b, a)
    ensures !(TextLess(a, b) && TextLess(b, a))
    ensures !TextLess(a, a)
  {
    if a != [] && b != [] && a[0] == b[0] {
      TextLessTotal(a[1..], b[1..]);
      assert a == [a[0]] + a[1..] && b == [b[0]] + b[1..];
    }
    if a != [] {
      TextLessTotal(a[1..], a[1..]);
    }
  }

  lemma {:induction false} TextLessTransitive(a: string, b: string, c: string)
    requires TextLess(a, b) && TextLess(b, c)
    ensures TextLess(a, c)
  {
    if a != [] && a[0] == b[0] == c[0] {
      TextLessTransitive(a[1..], b[1..], c[1..]);
    }
  }

  /** On equally long prefixes the prefixes decide first. */
  lemma {:induction false} TextLessConcat(a: string, b: string, c: string, d: string)
    requires |a| == |c|
    ensures TextLess(a + b, c + d) <==> TextLess(a, c) || (a == c && TextLess(b, d))
  {
    if a == [] {
      assert a + b == b && c + d == d;
    } else {
      assert (a + b)[1..] == a[1..] + b && (c + d)[1..] == c[1..] + d;
      TextLessConcat(a[1..], b, c[1..], d);
      assert a == [a[0]] + a[1..] && c == [c[0]] + c[1..];
    }
  }

  // ---------------------------------------------------------------- joining

  function Join(parts: seq<string>, sep: string): string {
    if |parts| == 0 then ""
    else if |parts| == 1 then parts[0]
    else Join(parts[..|parts| - 1], sep) + sep + parts[|parts| - 1]
  }

  // ---------------------------------------------------------------- sequences from the back

  function Init<T>(s: seq<T>): seq<T>
    requires s != []
  {
    s[..|s| - 1]
  }

  function Last<T>(s: seq<T>): T
    requires s != []
  {
    s[|s| - 1]
  }

  lemma InitLast<T>(s: seq<T>)
    requires s != []
    ensures s == Init(s) + [Last(s)]
  {
  }

  function Flatten<T>(parts: seq<seq<T>>): seq<T> {
    if parts == [] then [] else Flatten(Init(parts)) + Last(parts)
  }

  lemma {:induction false} FlattenCons<T>(part: seq<T>, parts: seq<seq<T>>)
    ensures Flatten([part] + parts) == part + Flatten(parts)
  {
    if parts == [] {
      assert Init([part]) == [] && Last([part]) == part;
    } else {
      assert Init([part] + parts) == [part] + Init(parts);
      FlattenCons(part, Init(parts));
      assert (part + Flatten(Init(parts))) + Last(parts) == part + (Flatten(Init(parts)) + Last(parts));
    }
  }

  // ---------------------------------------------------------------- numerals

  predicate IsDigit(c: char) { '0' <= c <= '9' }

  function Digit(d: nat): (c: char)
    requires d < 10
    ensures IsDigit(c) && c == "0123456789"[d]
  {
    ('0' as int + d) as char
  }

  function DigitValue(c: char): (d: nat)
    requires IsDigit(c)
    ensures d < 10 && Digit(d) == c
  {
    c as int - '0' as int
  }

  function Pow10(w: nat): (p: nat)
    ensures p > 0
  {
    if w == 0 then 1 else 10 * Pow10(w - 1)
  }

  /** Decimal numeral without leading zeros. */
  function NatText(n: nat): (s: string)
    ensures s != "" && forall i :: 0 <= i < |s| ==> IsDigit(s[i])
  {
    if n < 10 then [Digit(n)] else NatText(n / 10) + [Digit(n % 10)]
  }

  function ParseNat(s: string): Option<nat> {
    if s == "" || !IsDigit(s[|s| - 1]) then None
    else if |s| == 1 then Some(DigitValue(s[0]))
    else match ParseNat(s[..|s| - 1])
      case None => None
      case Some(n) => Some(10 * n + DigitValue(s[|s| - 1]))
  }

  function IntText(n: int): string {
    if n < 0 then "-" + NatText(-n) else NatText(n)
  }

  function ParseInt(s: string): Option<int> {
    var negative := s != "" && s[0] == '-';
    match ParseNat(if negative then s[1..] else s)
    case None => None
    case Some(n) =>
      var m: int := n;
      Some(if negative then -m else m)
  }

  lemma {:induction false} NatRoundTrip(n: nat)
    ensures ParseNat(NatText(n)) == Some(n)
  {
    if n >= 10 {
      NatRoundTrip(n / 10);
      var s := NatText(n);
      assert s[..|s| - 1] == NatText(n / 10);
    }
  }

  lemma Apart(a: nat, b: nat, d: nat)
    ensures a < b ==> a * d + d <= b * d
  {
    if a < b { assert (a + 1) * d <= b * d; }
  }

  lemma Quotient(n: nat, d: nat, q: nat)
    requires q * d <= n < q * d + d
    ensures n / d == q
  {
    var other := n / d;
    assert other * d <= n < other * d + d;
    Apart(other, q, d);
    Apart(q, other, d);
  }

  lemma DividedTwice(n: nat, p: nat)
    requires p > 0
    ensures n / 10 / p == n / (10 * p)
  {
    var m := n / 10;
    var q, r := m / p, m % p;
    assert m == q * p + r;
    assert q * (10 * p) == 10 * (q * p);
    Quotient(n, 10 * p, q);
  }

  /** The numeral is as long as the number needs, and its digit i is the one at that power of ten. */
  lemma {:induction false} NatTextExact(n: nat, i: nat)
    requires i < |NatText(n)|
    ensures n < Pow10(|NatText(n)|) && (n > 0 ==> Pow10(|NatText(n)| - 1) <= n) && (n == 0 ==> |NatText(n)| == 1)
    ensures NatText(n)[i] == "0123456789"[n / Pow10(|NatText(n)| - 1 - i) % 10]
  {
    var w := |NatText(n)| - 1;
    if n >= 10 {
      NatTextExact(n / 10, if i < w then i else 0);
      if i < w { DividedTwice(n, Pow10(w - 1 - i)); }
    }
  }

  /** Leading zeros do not count. */
  lemma {:induction false} ParseZeros(zeros: string, n: nat)
    requires forall i :: 0 <= i < |zeros| ==> zeros[i] == '0'
    ensures zeros != "" ==> ParseNat(zeros) == Some(0)
    ensures ParseNat(zeros + NatText(n)) == Some(n)
  {
    var s := zeros + NatText(n);
    if zeros != "" { ParseZeros(zeros[..|zeros| - 1], 0); }
    if n >= 10 {
      ParseZeros(zeros, n / 10);
      assert s[..|s| - 1] == zeros + NatText(n / 10);
    } else {
      assert s[..|s| - 1] == zeros;
    }
  }

  /** A digit after a numeral makes the next numeral; the numeral of zero becomes a leading zero. */
  lemma NumeralGrows(zeros: string, m: nat, d: nat) returns (more: string)
    requires d < 10 && forall i :: 0 <= i < |zeros| ==> zeros[i] == '0'
    ensures (forall i :: 0 <= i < |more| ==> more[i] == '0') && zeros + NatText(m) + [Digit(d)] == more + NatText(10 * m + d)
  {
    assert (10 * m + d) / 10 == m && (10 * m + d) % 10 == d;
    more := if m == 0 then zeros + "0" else zeros;
    assert zeros + NatText(m) + [Digit(d)] == zeros + (NatText(m) + [Digit(d)]);
  }

  lemma {:induction false} LastDigit(s: string)
    requires |s| > 1 && ParseNat(s).Some?
    ensures ParseNat(Init(s)).Some? && IsDigit(Last(s)) && ParseNat(s).value == 10 * ParseNat(Init(s)).value + DigitValue(Last(s))
  {
  }

  /** Only zeros and the numeral of a number are read as it. */
  lemma {:induction false} ParsedIsNumeral(s: string) returns (zeros: string)
    requires ParseNat(s).Some?
    ensures (forall i :: 0 <= i < |zeros| ==> zeros[i] == '0') && s == zeros + NatText(ParseNat(s).value)
  {
    if |s| == 1 {
      zeros := "";
      assert s == [Digit(DigitValue(s[0]))];
    } else {
      LastDigit(s);
      InitLast(s);
      hide *;
      zeros := ParsedIsNumeral(Init(s));
      zeros := NumeralGrows(zeros, ParseNat(Init(s)).value, DigitValue(Last(s)));
    }
  }

  lemma IntRoundTrip(n: int)
    ensures ParseInt(IntText(n)) == Some(n)
  {
    var s := NatText(if n < 0 then -n else n);
    NatRoundTrip(if n < 0 then -n else n);
    hide NatText;
    hide ParseNat;
    if n < 0 {
      assert ("-" + s)[1..] == s;
    } else {
      assert IsDigit(s[0]);
    }
  }

  // ---------------------------------------------------------------- listings of finite sets

  /** s names every element of keys exactly once: one order in which Go may range over a map. */
  ghost predicate IsListing<T(!new)>(s: seq<T>, keys: set<T>) {
    && (forall i, j :: 0 <= i < j < |s| ==> s[i] != s[j])
    && (forall x :: x in s <==> x in keys)
  }
}
