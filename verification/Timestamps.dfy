/** Timestamps, their fixed-width text, and the RFC 3339 conversions of property mappings. */
module Timestamps {
  import opened Basics

  datatype Time = Time(year: nat, month: nat, day: nat, hour: nat, minute: nat, second: nat, nano: nat)

  /** The fields fit the fixed-width layout: years 0 to 9999. */
  predicate Proper(t: Time) {
    t.year <= 9999 && 1 <= t.month <= 12 && 1 <= t.day <= DaysIn(t.year, t.month) &&
    t.hour < 24 && t.minute < 60 && t.second < 60 && t.nano < 1_000_000_000
  }

  function DaysIn(year: nat, month: nat): (d: nat)
    ensures d <= 31
  {
    if month in {4, 6, 9, 11} then 30
    else if month == 2 then
      if year % 4 == 0 && (year % 100 != 0 || year % 400 == 0) then 29 else 28
    else 31
  }

  /** The zero time of Go, which a NULL maximum leaves in the token. */
  const ZERO := Time(1, 1, 1, 0, 0, 0, 0)

  function Micro(t: Time): nat { t.nano / 1000 }

  /** The time with its fraction cut to p digits: what a DATETIME(p) column keeps of NOW(p). */
  function CutTo(t: Time, p: nat): (r: Time)
    requires p <= 6
    ensures r.nano <= t.nano
  {
    t.(nano := Floor(t.nano, Pow10(9 - p)))
  }

  function Floor(n: nat, step: nat): (r: nat)
    requires step > 0
    ensures r <= n
  {
    n / step * step
  }

  // ---------------------------------------------------------------- order

  function Date(t: Time): nat { (t.year * 13 + t.month) * 32 + t.day }

  function Clock(t: Time): nat { (t.hour * 60 + t.minute) * 60 + t.second }

  /** A number that orders proper times by their value cut to microseconds. */
  function Rank(t: Time): nat { (Date(t) * 86_400 + Clock(t)) * 1_000_000 + Micro(t) }

  lemma SameParts(d: nat, c: nat, m: nat, d': nat, c': nat, m': nat)
    requires c < 86_400 && c' < 86_400 && m < 1_000_000 && m' < 1_000_000
    ensures (d * 86_400 + c) * 1_000_000 + m == (d' * 86_400 + c') * 1_000_000 + m' <==> d == d' && c == c' && m == m'
  {
  }

  lemma {:induction false} RankInjective(a: Time, b: Time)
    requires Proper(a) && Proper(b)
    ensures Rank(a) == Rank(b) <==> CutTo(a, 6) == CutTo(b, 6)
  {
    Powers();
    assert Clock(a) < 86_400 && Clock(b) < 86_400;
    assert Micro(a) < 1_000_000 && Micro(b) < 1_000_000;
    SameParts(Date(a), Clock(a), Micro(a), Date(b), Clock(b), Micro(b));
  }

  lemma Powers()
    ensures Pow10(2) == 100 && Pow10(3) == 1000 && Pow10(4) == 10_000 && Pow10(6) == 1_000_000
  {
    assert Pow10(2) == 100;
    assert Pow10(4) == 10_000;
    assert Pow10(6) == 1_000_000;
  }

  // ---------------------------------------------------------------- fixed-width digits

  function Pad(n: nat, w: nat): (s: string)
    ensures |s| == w
    ensures forall i :: 0 <= i < w ==> IsDigit(s[i])
  {
    if w == 0 then "" else Pad(n / 10, w - 1) + [Digit(n % 10)]
  }

  lemma {:induction false} PadOrder(n: nat, m: nat, w: nat)
    requires n < Pow10(w) && m < Pow10(w)
    ensures TextLess(Pad(n, w), Pad(m, w)) <==> n < m
    ensures Pad(n, w) == Pad(m, w) <==> n == m
  {
    if w > 0 {
      var a, b := Pad(n / 10, w - 1), Pad(m / 10, w - 1);
      PadOrder(n / 10, m / 10, w - 1);
      TextLessConcat(a, [Digit(n % 10)], b, [Digit(m % 10)]);
      assert Pad(n, w)[..w - 1] == a && Pad(m, w)[..w - 1] == b;
      assert Pad(n, w)[w - 1] == Digit(n % 10) && Pad(m, w)[w - 1] == Digit(m % 10);
    }
  }

  lemma {:induction false} PadValue(n: nat, w: nat)
    requires 0 < w && n < Pow10(w)
    ensures ParseNat(Pad(n, w)) == Some(n)
  {
    var s := Pad(n, w);
    if w > 1 {
      PadValue(n / 10, w - 1);
      assert s[..w - 1] == Pad(n / 10, w - 1);
    }
  }

  // ---------------------------------------------------------------- the text of a timestamp

  /** Three padded fields, the first w digits wide, with a separator between them. */
  function Three(x: nat, y: nat, z: nat, w: nat, sep: char): (s: string)
    ensures |s| == w + 6
  {
    Pad(x, w) + ([sep] + (Pad(y, 2) + ([sep] + Pad(z, 2))))
  }

  function DateText(t: Time): (s: string)
    ensures |s| == 10
  {
    Three(t.year, t.month, t.day, 4, '-')
  }

  function ClockText(t: Time): (s: string)
    ensures |s| == 8
  {
    Three(t.hour, t.minute, t.second, 2, ':')
  }

  /** Go's layout 2006-01-02 15:04:05.000000, which cuts and does not round. */
  function Format(t: Time): (s: string)
    ensures |s| == 26
  {
    DateText(t) + (" " + (ClockText(t) + ("." + Pad(Micro(t), 6))))
  }

  function Field(s: string, from: nat, to: nat): Option<nat>
    requires from <= to <= |s|
  {
    ParseNat(s[from..to])
  }

  /** How the database reads a timestamp literal in that layout. */
  function ParseStamp(s: string): Option<Time> {
    if |s| != 26 || s[4] != '-' || s[7] != '-' || s[10] != ' ' || s[13] != ':' || s[16] != ':' || s[19] != '.' then None
    else match (Field(s, 0, 4), Field(s, 5, 7), Field(s, 8, 10), Field(s, 11, 13), Field(s, 14, 16), Field(s, 17, 19), Field(s, 20, 26))
      case (Some(y), Some(mo), Some(d), Some(h), Some(mi), Some(sec), Some(us)) =>
        Some(Time(y, mo, d, h, mi, sec, us * 1000))
      case _ => None
  }

  lemma FormatFields(t: Time)
    ensures var s := Format(t);
            s[4] == '-' && s[7] == '-' && s[10] == ' ' && s[13] == ':' && s[16] == ':' && s[19] == '.' &&
            s[0..4] == Pad(t.year, 4) && s[5..7] == Pad(t.month, 2) && s[8..10] == Pad(t.day, 2) &&
            s[11..13] == Pad(t.hour, 2) && s[14..16] == Pad(t.minute, 2) && s[17..19] == Pad(t.second, 2) &&
            s[20..26] == Pad(Micro(t), 6)
  {
    var s, d, c := Format(t), DateText(t), ClockText(t);
    assert s[..10] == d && s[11..19] == c;
    assert s[0..4] == d[0..4] && s[5..7] == d[5..7] && s[8..10] == d[8..10];
    assert s[11..13] == c[0..2] && s[14..16] == c[3..5] && s[17..19] == c[6..8];
  }

  lemma {:induction false} StampRoundTrip(t: Time)
    requires Proper(t)
    ensures ParseStamp(Format(t)) == Some(CutTo(t, 6))
  {
    var s := Format(t);
    Powers();
    FormatFields(t);
    PadValue(t.year, 4);
    PadValue(t.month, 2);
    PadValue(t.day, 2);
    PadValue(t.hour, 2);
    PadValue(t.minute, 2);
    PadValue(t.second, 2);
    PadValue(Micro(t), 6);
  }

  lemma DateTextOrder(a: Time, b: Time)
    requires Proper(a) && Proper(b)
    ensures TextLess(DateText(a), DateText(b)) <==> Date(a) < Date(b)
    ensures DateText(a) == DateText(b) <==> Date(a) == Date(b)
  {
    Powers();
    ThreeFields(a.year, a.month, a.day, b.year, b.month, b.day, 4, '-');
  }

  lemma ClockTextOrder(a: Time, b: Time)
    requires Proper(a) && Proper(b)
    ensures TextLess(ClockText(a), ClockText(b)) <==> Clock(a) < Clock(b)
    ensures ClockText(a) == ClockText(b) <==> Clock(a) == Clock(b)
  {
    Powers();
    ThreeFields(a.hour, a.minute, a.second, b.hour, b.minute, b.second, 2, ':');
  }

  /** A padded field followed by any text orders by the field first. */
  lemma {:induction false} FieldThen(n: nat, m: nat, w: nat, a: string, b: string)
    requires n < Pow10(w) && m < Pow10(w)
    ensures TextLess(Pad(n, w) + a, Pad(m, w) + b) <==> n < m || (n == m && TextLess(a, b))
    ensures Pad(n, w) + a == Pad(m, w) + b <==> n == m && a == b
  {
    PadOrder(n, m, w);
    TextLessConcat(Pad(n, w), a, Pad(m, w), b);
    assert (Pad(n, w) + a)[..w] == Pad(n, w) && (Pad(m, w) + b)[..w] == Pad(m, w);
    assert (Pad(n, w) + a)[w..] == a && (Pad(m, w) + b)[w..] == b;
  }

  lemma {:induction false} SepThen(sep: char, a: string, b: string)
    ensures TextLess([sep] + a, [sep] + b) <==> TextLess(a, b)
    ensures [sep] + a == [sep] + b <==> a == b
  {
    TextLessConcat([sep], a, [sep], b);
    TextLessTotal([sep], [sep]);
    assert ([sep] + a)[1..] == a && ([sep] + b)[1..] == b;
  }

  /** Three padded fields order as the triple does. */
  lemma {:induction false} ThreeFields(x: nat, y: nat, z: nat, x': nat, y': nat, z': nat, w: nat, sep: char)
    requires x < Pow10(w) && x' < Pow10(w) && y < 100 && y' < 100 && z < 100 && z' < 100
    ensures var s, s' := Three(x, y, z, w, sep), Three(x', y', z', w, sep);
            (TextLess(s, s') <==> x < x' || (x == x' && (y < y' || (y == y' && z < z')))) &&
            (s == s' <==> x == x' && y == y' && z == z')
  {
    Powers();
    PadOrder(z, z', 2);
    SepThen(sep, Pad(z, 2), Pad(z', 2));
    FieldThen(y, y', 2, [sep] + Pad(z, 2), [sep] + Pad(z', 2));
    SepThen(sep, Pad(y, 2) + ([sep] + Pad(z, 2)), Pad(y', 2) + ([sep] + Pad(z', 2)));
    FieldThen(x, x', w, [sep] + (Pad(y, 2) + ([sep] + Pad(z, 2))), [sep] + (Pad(y', 2) + ([sep] + Pad(z', 2))));
  }

  /** Lexicographic order of the text is the order of the times cut to microseconds. */
  lemma {:induction false} FormatOrder(a: Time, b: Time)
    requires Proper(a) && Proper(b)
    ensures TextLess(Format(a), Format(b)) <==> Rank(a) < Rank(b)
  {
    Powers();
    DateTextOrder(a, b);
    ClockTextOrder(a, b);
    PadOrder(Micro(a), Micro(b), 6);
    var fa, fb := ['.'] + Pad(Micro(a), 6), ['.'] + Pad(Micro(b), 6);
    SepThen('.', Pad(Micro(a), 6), Pad(Micro(b), 6));
    TextLessConcat(ClockText(a), fa, ClockText(b), fb);
    SepThen(' ', ClockText(a) + fa, ClockText(b) + fb);
    TextLessConcat(DateText(a), [' '] + (ClockText(a) + fa), DateText(b), [' '] + (ClockText(b) + fb));
    RankByParts(a, b);
  }

  lemma RankByParts(a: Time, b: Time)
    requires Proper(a) && Proper(b)
    ensures Rank(a) < Rank(b) <==>
            Date(a) < Date(b) || (Date(a) == Date(b) && (Clock(a) < Clock(b) || (Clock(a) == Clock(b) && Micro(a) < Micro(b))))
  {
    assert Clock(a) < 86_400 && Clock(b) < 86_400;
  }

  // ---------------------------------------------------------------- RFC 3339 text in incoming entities

  predicate DigitsAt(s: string, from: nat, to: nat) {
    from <= to <= |s| && forall i :: from <= i < to ==> IsDigit(s[i])
  }

  function Number(s: string, from: nat, to: nat): nat
    requires from <= to <= |s|
  {
    match Field(s, from, to) case Some(n) => n case None => 0
  }

  /** Length of the fraction that starts at position 19, point included. */
  function FractionEnd(s: string, i: nat): (e: nat)
    requires i <= |s|
    ensures i <= e <= |s|
    decreases |s| - i
  {
    if i < |s| && IsDigit(s[i]) then FractionEnd(s, i + 1) else i
  }

  /** Position where the zone begins in a well-formed RFC 3339 timestamp. */
  function ZoneStart(s: string): Option<nat> {
    if |s| < 20 || !DigitsAt(s, 0, 4) || s[4] != '-' || !DigitsAt(s, 5, 7) || s[7] != '-' || !DigitsAt(s, 8, 10) || s[10] != 'T' ||
       !DigitsAt(s, 11, 13) || s[13] != ':' || !DigitsAt(s, 14, 16) || s[16] != ':' || !DigitsAt(s, 17, 19) ||
       !(1 <= Number(s, 5, 7) <= 12 && 1 <= Number(s, 8, 10) <= DaysIn(Number(s, 0, 4), Number(s, 5, 7))) ||
       !(Number(s, 11, 13) < 24 && Number(s, 14, 16) < 60 && Number(s, 17, 19) < 60) then None
    else if s[19] != '.' then Some(19)
    else if FractionEnd(s, 20) > 20 then Some(FractionEnd(s, 20))
    else None
  }

  /** The zone as Go's layout -0700 prints it. */
  function Zone(s: string): Option<string> {
    if s == "Z" then Some("+0000")
    else if |s| == 6 && (s[0] == '+' || s[0] == '-') && DigitsAt(s, 1, 3) && s[3] == ':' && DigitsAt(s, 4, 6) &&
            Number(s, 1, 3) < 24 && Number(s, 4, 6) < 60 then
      // an offset of zero is printed with a plus sign, however it was written
      Some(if Number(s, 1, 3) == 0 && Number(s, 4, 6) == 0 then "+0000" else s[..3] + s[4..])
    else None
  }

  /** RFC 3339 text as the text of a DATETIME, or with its offset as the text of a TIMESTAMP. */
  function Convert(s: string, withZone: bool): Option<string> {
    match ZoneStart(s)
    case None => None
    case Some(z) =>
      match Zone(s[z..])
      case None => None
      case Some(zone) => Some(s[..10] + " " + s[11..19] + if withZone then zone else "")
  }

  lemma {:induction false} FractionStops(s: string, i: nat, e: nat)
    requires i <= e < |s| && (forall k :: i <= k < e ==> IsDigit(s[k])) && !IsDigit(s[e])
    ensures FractionEnd(s, i) == e
    decreases e - i
  {
    if i < e { FractionStops(s, i + 1, e); }
  }

  /** An optional fraction of a second. */
  predicate IsFraction(f: string) {
    f == "" || (|f| > 1 && f[0] == '.' && forall i :: 1 <= i < |f| ==> IsDigit(f[i]))
  }

  lemma {:induction false} ConvertsByZone(t: Time, fraction: string, zone: string)
    requires Proper(t) && IsFraction(fraction) && Zone(zone).Some?
    ensures var s := DateText(t) + "T" + ClockText(t) + fraction + zone;
            Convert(s, false) == Some(DateText(t) + " " + ClockText(t)) &&
            Convert(s, true) == Some(DateText(t) + " " + ClockText(t) + Zone(zone).value)
  {
    var d, c := DateText(t), ClockText(t);
    var s := d + "T" + c + fraction + zone;
    var z := 19 + |fraction|;
    assert s[..10] == d && s[10] == 'T' && s[11..19] == c && s[19..z] == fraction && s[z..] == zone;
    ZoneStartsAt(t, s, z, zone);
    assert d + " " + c + "" == d + " " + c;
    hide ZoneStart;
    hide Zone;
    hide DateText;
    hide ClockText;
  }

  lemma ZoneStartsAt(t: Time, s: string, z: nat, zone: string)
    requires Proper(t) && 19 <= z < |s| && Zone(zone).Some? && s[z..] == zone
    requires s[..10] == DateText(t) && s[10] == 'T' && s[11..19] == ClockText(t) && IsFraction(s[19..z])
    ensures ZoneStart(s) == Some(z)
  {
    RfcFields(t, s);
    assert s[z] == zone[0];
    if z > 19 {
      assert s[19] == s[19..z][0];
      assert forall k :: 20 <= k < z ==> s[k] == s[19..z][k - 19];
      FractionStops(s, 20, z);
    }
    hide Number;
    hide DateText;
    hide ClockText;
  }

  /** One padded field inside a text. */
  lemma {:induction false} FieldAt(s: string, from: nat, n: nat, w: nat)
    requires 0 < w && n < Pow10(w) && from + w <= |s| && s[from..from + w] == Pad(n, w)
    ensures DigitsAt(s, from, from + w) && Number(s, from, from + w) == n
  {
    PadValue(n, w);
    hide ParseNat;
    forall i | from <= i < from + w ensures IsDigit(s[i]) {
      assert s[i] == Pad(n, w)[i - from];
    }
  }

  lemma SliceOfSlice(s: string, a: nat, b: nat, i: nat, j: nat)
    requires a <= b <= |s| && i <= j <= b - a
    ensures s[a..b][i..j] == s[a + i..a + j]
  {
    var l, r := s[a..b][i..j], s[a + i..a + j];
    assert |l| == |r|;
    forall k | 0 <= k < |l| ensures l[k] == r[k] {
      assert l[k] == s[a..b][i + k];
    }
  }

  lemma {:induction false} ThreeAt(s: string, from: nat, x: nat, y: nat, z: nat, w: nat, sep: char)
    requires 0 < w && x < Pow10(w) && y < 100 && z < 100 && from + w + 6 <= |s| && s[from..from + w + 6] == Three(x, y, z, w, sep)
    ensures DigitsAt(s, from, from + w) && Number(s, from, from + w) == x && s[from + w] == sep
    ensures DigitsAt(s, from + w + 1, from + w + 3) && Number(s, from + w + 1, from + w + 3) == y && s[from + w + 3] == sep
    ensures DigitsAt(s, from + w + 4, from + w + 6) && Number(s, from + w + 4, from + w + 6) == z
  {
    Powers();
    hide Pad;
    hide Pow10;
    hide Number;
    hide DigitsAt;
    var t := s[from..from + w + 6];
    assert t[..w] == Pad(x, w) && t[w + 1..w + 3] == Pad(y, 2) && t[w + 4..] == Pad(z, 2) && t[w] == sep && t[w + 3] == sep;
    SliceOfSlice(s, from, from + w + 6, 0, w);
    SliceOfSlice(s, from, from + w + 6, w + 1, w + 3);
    SliceOfSlice(s, from, from + w + 6, w + 4, w + 6);
    assert t[0..w] == t[..w] && t[w + 4..w + 6] == t[w + 4..];
    FieldAt(s, from, x, w);
    FieldAt(s, from + w + 1, y, 2);
    FieldAt(s, from + w + 4, z, 2);
  }

  lemma RfcFields(t: Time, s: string)
    requires Proper(t) && |s| >= 20 && s[..10] == DateText(t) && s[10] == 'T' && s[11..19] == ClockText(t)
    ensures DigitsAt(s, 0, 4) && s[4] == '-' && DigitsAt(s, 5, 7) && s[7] == '-' && DigitsAt(s, 8, 10)
    ensures DigitsAt(s, 11, 13) && s[13] == ':' && DigitsAt(s, 14, 16) && s[16] == ':' && DigitsAt(s, 17, 19)
    ensures Number(s, 0, 4) == t.year && Number(s, 5, 7) == t.month && Number(s, 8, 10) == t.day
    ensures Number(s, 11, 13) == t.hour && Number(s, 14, 16) == t.minute && Number(s, 17, 19) == t.second
  {
    Powers();
    assert s[0..10] == s[..10];
    ThreeAt(s, 0, t.year, t.month, t.day, 4, '-');
    ThreeAt(s, 11, t.hour, t.minute, t.second, 2, ':');
  }

  /** The two forms of a zone, as Go's layout -0700 prints them. */
  lemma {:induction false} ZoneForms(sign: char, hours: nat, minutes: nat)
    requires sign in {'+', '-'} && hours < 24 && minutes < 60
    ensures Zone("Z") == Some("+0000")
    ensures Zone([sign] + Pad(hours, 2) + ":" + Pad(minutes, 2)) ==
            Some(if hours + minutes == 0 then "+0000" else [sign] + Pad(hours, 2) + Pad(minutes, 2))
  {
    var z := [sign] + Pad(hours, 2) + ":" + Pad(minutes, 2);
    Powers();
    PadValue(hours, 2);
    PadValue(minutes, 2);
    assert z[1..3] == Pad(hours, 2) && z[4..6] == Pad(minutes, 2);
    assert z[..3] == [sign] + Pad(hours, 2) && z[4..] == Pad(minutes, 2);
    assert z[..3] + z[4..] == [sign] + Pad(hours, 2) + Pad(minutes, 2);
    assert forall i :: 0 <= i < 2 ==> z[1 + i] == Pad(hours, 2)[i] && z[4 + i] == Pad(minutes, 2)[i];
  }

  // ---------------------------------------------------------------- exactly the RFC 3339 texts

  /** An offset from UTC, as an RFC 3339 text has it. */
  datatype Offset = Zulu | Shift(sign: char, hours: nat, minutes: nat)

  predicate IsOffset(o: Offset) {
    o.Shift? ==> o.sign in {'+', '-'} && o.hours < 24 && o.minutes < 60
  }

  function OffsetText(o: Offset): string {
    match o case Zulu => "Z" case Shift(sign, hours, minutes) => [sign] + Pad(hours, 2) + ":" + Pad(minutes, 2)
  }

  /** How an offset is printed for a timestamp: without a colon, and zero with a plus sign. */
  function OffsetPrinted(o: Offset): string {
    match o
    case Zulu => "+0000"
    case Shift(sign, hours, minutes) => if hours + minutes == 0 then "+0000" else [sign] + Pad(hours, 2) + Pad(minutes, 2)
  }

  function Rfc3339(t: Time, fraction: string, o: Offset): string {
    DateText(t) + "T" + ClockText(t) + fraction + OffsetText(o)
  }

  predicate IsRfc3339(t: Time, fraction: string, o: Offset) { Proper(t) && IsFraction(fraction) && IsOffset(o) }

  /** RFC 3339 text is converted to its date and clock; the fraction is dropped, and the offset kept only for timestamps. */
  lemma {:induction false} ConvertsRfc3339(t: Time, fraction: string, o: Offset)
    requires IsRfc3339(t, fraction, o)
    ensures Convert(Rfc3339(t, fraction, o), false) == Some(DateText(t) + " " + ClockText(t))
    ensures Convert(Rfc3339(t, fraction, o), true) == Some(DateText(t) + " " + ClockText(t) + OffsetPrinted(o))
  {
    match o {
      case Zulu => ZoneForms('+', 0, 0);
      case Shift(sign, hours, minutes) => ZoneForms(sign, hours, minutes);
    }
    hide Zone;
    hide Pad;
    ConvertsByZone(t, fraction, OffsetText(o));
  }

  /** Digits are the padded form of the number they denote. */
  lemma {:induction false} PadOfDigits(d: string)
    requires d != "" && forall i :: 0 <= i < |d| ==> IsDigit(d[i])
    ensures ParseNat(d).Some? && ParseNat(d).value < Pow10(|d|) && Pad(ParseNat(d).value, |d|) == d
  {
    var n := |d| - 1;
    assert d == d[..n] + [d[n]];
    if n > 0 {
      PadOfDigits(d[..n]);
      var m := ParseNat(d[..n]).value;
      assert (10 * m + DigitValue(d[n])) / 10 == m && (10 * m + DigitValue(d[n])) % 10 == DigitValue(d[n]);
    } else {
      assert d[..0] == "" && Pad(0, 0) == "";
      assert Pad(DigitValue(d[0]), 1) == Pad(0, 0) + [Digit(DigitValue(d[0]))];
    }
  }

  lemma {:induction false} DigitsArePadded(s: string, from: nat, w: nat)
    requires 0 < w && DigitsAt(s, from, from + w)
    ensures Number(s, from, from + w) < Pow10(w) && s[from..from + w] == Pad(Number(s, from, from + w), w)
  {
    PadOfDigits(s[from..from + w]);
  }

  lemma {:induction false} FractionIsDigits(s: string, i: nat)
    requires i <= |s|
    ensures forall k :: i <= k < FractionEnd(s, i) ==> IsDigit(s[k])
    decreases |s| - i
  {
    if i < |s| && IsDigit(s[i]) { FractionIsDigits(s, i + 1); }
  }

  lemma SliceInFive(s: string, from: nat, w: nat)
    requires from + w + 6 <= |s|
    ensures s[from..from + w + 6] ==
            s[from..from + w] + ([s[from + w]] + (s[from + w + 1..from + w + 3] + ([s[from + w + 3]] + s[from + w + 4..from + w + 6])))
  {
  }

  /** Three padded fields, from their pieces. */
  lemma ThreeFrom(s: string, from: nat, w: nat, sep: char)
    requires 0 < w && from + w + 6 <= |s| && s[from + w] == sep && s[from + w + 3] == sep
    requires DigitsAt(s, from, from + w) && DigitsAt(s, from + w + 1, from + w + 3) && DigitsAt(s, from + w + 4, from + w + 6)
    ensures s[from..from + w + 6] ==
            Three(Number(s, from, from + w), Number(s, from + w + 1, from + w + 3), Number(s, from + w + 4, from + w + 6), w, sep)
  {
    hide Number;
    hide DigitsAt;
    hide Pad;
    DigitsArePadded(s, from, w);
    DigitsArePadded(s, from + w + 1, 2);
    DigitsArePadded(s, from + w + 4, 2);
    SliceInFive(s, from, w);
  }

  lemma {:induction false} FractionBefore(s: string)
    requires 20 <= |s| && s[19] == '.' && FractionEnd(s, 20) > 20
    ensures IsFraction(s[19..FractionEnd(s, 20)])
  {
    FractionIsDigits(s, 20);
    hide FractionEnd;
    var z := FractionEnd(s, 20);
    assert forall i :: 1 <= i < z - 19 ==> s[19..z][i] == s[19 + i];
  }

  /** Where a zone begins, a date, a clock and a fraction come before it. */
  lemma TimeBeforeZone(s: string) returns (t: Time)
    requires ZoneStart(s).Some?
    ensures var z := ZoneStart(s).value;
            19 <= z <= |s| && Proper(t) && s[..10] == DateText(t) && s[10] == 'T' && s[11..19] == ClockText(t) && IsFraction(s[19..z])
  {
    hide FractionEnd;
    hide Number;
    hide IsFraction;
    Powers();
    t := Time(Number(s, 0, 4), Number(s, 5, 7), Number(s, 8, 10), Number(s, 11, 13), Number(s, 14, 16), Number(s, 17, 19), 0);
    DigitsArePadded(s, 0, 4);
    ThreeFrom(s, 0, 4, '-');
    ThreeFrom(s, 11, 2, ':');
    assert s[0..10] == s[..10];
    var z := ZoneStart(s).value;
    if z > 19 { FractionBefore(s); } else { NoFraction(s); }
  }

  lemma NoFraction(s: string)
    requires 19 <= |s|
    ensures IsFraction(s[19..19])
  {
    assert s[19..19] == "";
  }

  lemma OffsetOf(s: string) returns (o: Offset)
    requires Zone(s).Some?
    ensures IsOffset(o) && s == OffsetText(o)
  {
    if s == "Z" {
      o := Zulu;
    } else {
      o := Shift(s[0], Number(s, 1, 3), Number(s, 4, 6));
      DigitsArePadded(s, 1, 2);
      DigitsArePadded(s, 4, 2);
      hide Pad;
      hide Number;
      assert s == [s[0]] + s[1..3] + [s[3]] + s[4..6];
    }
  }

  /** Nothing but an RFC 3339 text is converted. */
  lemma OnlyRfc3339(s: string, withZone: bool) returns (t: Time, fraction: string, o: Offset)
    requires Convert(s, withZone).Some?
    ensures IsRfc3339(t, fraction, o) && s == Rfc3339(t, fraction, o)
  {
    hide ZoneStart;
    hide Zone;
    var z := ZoneStart(s).value;
    t := TimeBeforeZone(s);
    o := OffsetOf(s[z..]);
    fraction := s[19..z];
    hide DateText;
    hide ClockText;
    hide OffsetText;
    hide Proper;
    hide IsFraction;
    assert s == s[..10] + [s[10]] + s[11..19] + s[19..z] + s[z..];
  }
}
