/**
 * The shapes the pages print durations in, and how such text reads back.
 *
 * The colon forms ("m:ss", "h:mm:ss") are read back with `parseInt` on each
 * ':'-separated field and combined in base 60; the unit forms ("3h 5m",
 * "2d 4h 0m") with `parseInt` on each ' '-separated field, which stops at the
 * unit letter.
 */
module Clock {
  import opened Common
  import opened Text
  import opened Numbers

  /** `n.toString().padStart(2, '0')`. */
  function Padded(n: int): string {
    PadStart2(IntToString(n))
  }

  /** `${m}:${s.toString().padStart(2, '0')}`. */
  function MinSec(m: int, s: int): string {
    IntToString(m) + ":" + Padded(s)
  }

  /** `${h}:${m.toString().padStart(2, '0')}:${s.toString().padStart(2, '0')}`. */
  function HourMinSec(h: int, m: int, s: int): string {
    IntToString(h) + ":" + Padded(m) + ":" + Padded(s)
  }

  /**
   * `${Math.floor(s / 60)}:${(s % 60).toString().padStart(2, '0')}`: whole
   * minutes, unbounded, and the remaining seconds.
   */
  function MinutesSeconds(seconds: int): (r: string)
    ensures seconds >= 0 ==> ReadFields(r, ':') == [Some(seconds / 60), Some(seconds % 60)]
    ensures seconds >= 0 ==> ClockValue(r) == Some(seconds)
  {
    SecondsRead(seconds);
    MinSec(seconds / 60, JsRem(seconds, 60))
  }

  /** A number followed by its unit letter, as in `${hours}h`. */
  function Unit(n: int, u: char): string {
    IntToString(n) + [u]
  }

  // ---------------------------------------------------------------- reading back

  /** `parseInt(part, 10)` of every part. */
  function ReadEach(parts: seq<string>): (r: seq<Option<int>>)
    ensures |r| == |parts|
  {
    if parts == [] then [] else [ParseInt(parts[0], false)] + ReadEach(parts[1..])
  }

  /** The numbers read from the sep-separated fields of t. */
  function ReadFields(t: string, sep: char): seq<Option<int>> {
    ReadEach(Split(t, sep))
  }

  /** Fields in base 60 after the value acc of the fields before them; None if one is unreadable. */
  function Base60(acc: int, fields: seq<Option<int>>): Option<int>
    decreases |fields|
  {
    if fields == [] then Some(acc)
    else if fields[0].None? then None
    else Base60(acc * 60 + fields[0].value, fields[1..])
  }

  /** The number of seconds a colon form denotes. */
  function ClockValue(t: string): Option<int> {
    Base60(0, ReadFields(t, ':'))
  }

  // ---------------------------------------------------------------- lemmas

  lemma {:induction false} DigitPrefixThen(d: string, rest: string)
    requires AllDigits(d) && (rest == [] || !IsDigit(rest[0]))
    ensures DigitPrefix(d + rest, 10) == d
    decreases |d|
  {
    if d == [] {
      assert d + rest == rest;
    } else {
      assert (d + rest)[0] == d[0];
      assert (d + rest)[1..] == d[1..] + rest;
      DigitPrefixThen(d[1..], rest);
    }
  }

  /** A run of digits followed by a non-digit reads as the digits. */
  lemma ReadDigitsThen(d: string, rest: string)
    requires AllDigits(d) && d != [] && (rest == [] || !IsDigit(rest[0]))
    ensures ParseInt(d + rest, false) == Some(DigitsValue(d, 10) as int)
  {
    var t := d + rest;
    assert t[0] == d[0] && !IsJsWhitespace(t[0]);
    assert TrimStart(t) == t;
    DigitPrefixThen(d, rest);
  }

  /** A printed natural number followed by a non-digit reads as that number. */
  lemma ReadNat(n: nat, rest: string)
    requires rest == [] || !IsDigit(rest[0])
    ensures ParseInt(IntToString(n) + rest, false) == Some(n)
    ensures ' ' !in IntToString(n) && ':' !in IntToString(n)
  {
    DigitsValueOfNatToString(n);
    ReadDigitsThen(NatToString(n), rest);
  }

  /** A padded number below 100 reads back as itself. */
  lemma ReadPadded(n: nat)
    requires n < 100
    ensures ParseInt(Padded(n), false) == Some(n)
    ensures ':' !in Padded(n)
  {
    var d := NatToString(n);
    DigitsValueOfNatToString(n);
    if |d| < 2 {
      assert Padded(n) == "0" + d;
      DigitsValueLeadingZero(d);
      ReadDigitsThen("0" + d, "");
      assert "0" + d + "" == "0" + d;
    } else {
      ReadNat(n, "");
      assert IntToString(n) + "" == Padded(n);
    }
  }

  /** A field without the separator is split off whole. */
  lemma SplitAfter(a: string, rest: string, sep: char)
    requires sep !in a
    ensures Split(a + [sep] + rest, sep) == [a] + Split(rest, sep)
  {
    var s := a + [sep] + rest;
    assert s[..|a|] == a;
    IndexOfUnique(s, sep, |a|);
    assert s[|a| + 1..] == rest;
  }

  /** Text without the separator is one field. */
  lemma SplitWhole(a: string, sep: char)
    requires sep !in a
    ensures Split(a, sep) == [a]
  {
  }

  /** Reading a list of fields one by one. */
  lemma ReadEachTwo(a: string, b: string)
    ensures ReadEach([a, b]) == [ParseInt(a, false), ParseInt(b, false)]
  {
    assert [a, b][1..] == [b];
    assert ReadEach([b]) == [ParseInt(b, false)] + ReadEach([]);
  }

  lemma ReadEachThree(a: string, b: string, c: string)
    ensures ReadEach([a, b, c]) == [ParseInt(a, false), ParseInt(b, false), ParseInt(c, false)]
  {
    assert [a, b, c][1..] == [b, c];
    ReadEachTwo(b, c);
  }

  /** Two fields without the separator, joined by it, read as two numbers. */
  lemma ReadTwo(a: string, b: string, sep: char)
    requires sep !in a && sep !in b
    ensures ReadFields(a + [sep] + b, sep) == [ParseInt(a, false), ParseInt(b, false)]
  {
    SplitAfter(a, b, sep);
    SplitWhole(b, sep);
    ReadEachTwo(a, b);
  }

  /** Three fields without the separator, joined by it, read as three numbers. */
  lemma ReadThree(a: string, b: string, c: string, sep: char)
    requires sep !in a && sep !in b && sep !in c
    ensures ReadFields(a + [sep] + b + [sep] + c, sep) == [ParseInt(a, false), ParseInt(b, false), ParseInt(c, false)]
  {
    var tail := b + [sep] + c;
    assert a + [sep] + b + [sep] + c == a + [sep] + tail;
    SplitAfter(b, c, sep);
    SplitWhole(c, sep);
    assert Split(tail, sep) == [b, c];
    SplitAfter(a, tail, sep);
    assert Split(a + [sep] + tail, sep) == [a] + [b, c] == [a, b, c];
    ReadEachThree(a, b, c);
  }

  lemma Base60Pair(x: int, y: int)
    ensures Base60(0, [Some(x), Some(y)]) == Some(x * 60 + y)
  {
    var f := [Some(x), Some(y)];
    assert f[1..] == [Some(y)];
    assert [Some(y)][1..] == [];
    assert Base60(0, f) == Base60(x, [Some(y)]);
    assert Base60(x, [Some(y)]) == Base60(x * 60 + y, []);
  }

  lemma Base60Triple(x: int, y: int, z: int)
    ensures Base60(0, [Some(x), Some(y), Some(z)]) == Some(x * 3600 + y * 60 + z)
  {
    var f := [Some(x), Some(y), Some(z)];
    assert f[1..] == [Some(y), Some(z)];
    assert [Some(y), Some(z)][1..] == [Some(z)];
    assert [Some(z)][1..] == [];
    assert Base60(0, f) == Base60(x, [Some(y), Some(z)]);
    assert Base60(x, [Some(y), Some(z)]) == Base60(x * 60 + y, [Some(z)]);
    assert Base60(x * 60 + y, [Some(z)]) == Base60((x * 60 + y) * 60 + z, []);
  }

  /** Two fields read as x and y denote 60 x + y. */
  lemma PairDenotes(f: seq<Option<int>>, x: int, y: int, v: int)
    requires f == [Some(x), Some(y)] && x * 60 + y == v
    ensures Base60(0, f) == Some(v)
  {
    Base60Pair(x, y);
  }

  /** Three fields read as x, y and z denote 3600 x + 60 y + z. */
  lemma TripleDenotes(f: seq<Option<int>>, x: int, y: int, z: int, v: int)
    requires f == [Some(x), Some(y), Some(z)] && x * 3600 + y * 60 + z == v
    ensures Base60(0, f) == Some(v)
  {
    Base60Triple(x, y, z);
  }

  /** "x:y" denotes 60 x + y seconds when x and y read as numbers. */
  lemma ColonPairValue(x: string, y: string, vx: int, vy: int)
    requires ':' !in x && ':' !in y
    requires ParseInt(x, false) == Some(vx) && ParseInt(y, false) == Some(vy)
    ensures ReadFields(x + ":" + y, ':') == [Some(vx), Some(vy)]
    ensures ClockValue(x + ":" + y) == Some(vx * 60 + vy)
  {
    assert x + ":" + y == x + [':'] + y;
    ReadTwo(x, y, ':');
    Base60Pair(vx, vy);
  }

  /** "x:y:z" denotes 3600 x + 60 y + z seconds when x, y and z read as numbers. */
  lemma ColonTripleValue(x: string, y: string, z: string, vx: int, vy: int, vz: int)
    requires ':' !in x && ':' !in y && ':' !in z
    requires ParseInt(x, false) == Some(vx) && ParseInt(y, false) == Some(vy) && ParseInt(z, false) == Some(vz)
    ensures ReadFields(x + ":" + y + ":" + z, ':') == [Some(vx), Some(vy), Some(vz)]
    ensures ClockValue(x + ":" + y + ":" + z) == Some(vx * 3600 + vy * 60 + vz)
  {
    assert x + ":" + y + ":" + z == x + [':'] + y + [':'] + z;
    ReadThree(x, y, z, ':');
    Base60Triple(vx, vy, vz);
  }

  /** A printed natural number is digits only and reads back as itself. */
  lemma ReadPrinted(n: nat)
    ensures ParseInt(IntToString(n), false) == Some(n)
    ensures ' ' !in IntToString(n) && ':' !in IntToString(n)
  {
    ParseIntOfIntToString(n, false);
    assert !IsDigit(' ') && !IsDigit(':');
  }

  /** "m:ss" with ss below 60 denotes m minutes and ss seconds. */
  lemma MinSecReads(m: nat, s: nat)
    requires s < 60
    ensures ReadFields(MinSec(m, s), ':') == [Some(m), Some(s)]
    ensures ClockValue(MinSec(m, s)) == Some(m * 60 + s)
  {
    ReadPrinted(m);
    ReadPadded(s);
    ColonPairValue(IntToString(m), Padded(s), m, s);
  }

  /** "h:mm:ss" with mm and ss below 60 denotes h hours, mm minutes and ss seconds. */
  lemma HourMinSecReads(h: nat, m: nat, s: nat)
    requires m < 60 && s < 60
    ensures ReadFields(HourMinSec(h, m, s), ':') == [Some(h), Some(m), Some(s)]
    ensures ClockValue(HourMinSec(h, m, s)) == Some(h * 3600 + m * 60 + s)
  {
    ReadPrinted(h);
    ReadPadded(m);
    ReadPadded(s);
    ColonTripleValue(IntToString(h), Padded(m), Padded(s), h, m, s);
  }

  /** Zero is printed "0", and no time at all "0:00", which reads back as 0 seconds in two fields. */
  lemma ZeroClock()
    ensures IntToString(0) == "0"
    ensures MinSec(0, 0) == "0:00"
    ensures ClockValue("0:00") == Some(0) && |ReadFields("0:00", ':')| == 2
  {
    assert DigitChar(0) == '0';
    assert NatToString(0) == "0";
    assert Padded(0) == "00";
    assert "0" + ":" + "00" == "0:00";
    MinSecReads(0, 0);
  }

  /** "m:ss" built from the minutes and the seconds of x denotes x. */
  lemma MinSecDenotes(x: int, m: int, s: int)
    requires x >= 0 && m == x / 60 && s == x % 60
    ensures ClockValue(MinSec(m, s)) == Some(x)
  {
    MinSecReads(m, s);
    PairDenotes(ReadFields(MinSec(m, s), ':'), m, s, x);
  }

  lemma SecondsRead(seconds: int)
    ensures seconds >= 0 ==> ReadFields(MinSec(seconds / 60, JsRem(seconds, 60)), ':') == [Some(seconds / 60), Some(seconds % 60)]
    ensures seconds >= 0 ==> ClockValue(MinSec(seconds / 60, JsRem(seconds, 60))) == Some(seconds)
  {
    if seconds >= 0 {
      var m, s := seconds / 60, seconds % 60;
      assert JsRem(seconds, 60) == s;
      MinSecReads(m, s);
      MinSecDenotes(seconds, m, s);
    }
  }

  predicate UnitLetter(u: char) {
    !IsDigit(u) && u != ' '
  }

  /** A number with its unit letter reads back as the number. */
  lemma UnitReads(n: nat, u: char)
    requires UnitLetter(u)
    ensures ParseInt(Unit(n, u), false) == Some(n)
    ensures ' ' !in Unit(n, u)
  {
    ReadNat(n, [u]);
  }

  /** "Xa Yb" reads back as X and Y. */
  lemma TwoUnitsRead(x: nat, a: char, y: nat, b: char)
    requires UnitLetter(a) && UnitLetter(b)
    ensures ReadFields(Unit(x, a) + " " + Unit(y, b), ' ') == [Some(x), Some(y)]
  {
    UnitReads(x, a);
    UnitReads(y, b);
    assert Unit(x, a) + " " + Unit(y, b) == Unit(x, a) + [' '] + Unit(y, b);
    ReadTwo(Unit(x, a), Unit(y, b), ' ');
  }

  /** "Xa Yb Zc" reads back as X, Y and Z. */
  lemma ThreeUnitsRead(x: nat, a: char, y: nat, b: char, z: nat, c: char)
    requires UnitLetter(a) && UnitLetter(b) && UnitLetter(c)
    ensures ReadFields(Unit(x, a) + " " + Unit(y, b) + " " + Unit(z, c), ' ') == [Some(x), Some(y), Some(z)]
  {
    UnitReads(x, a);
    UnitReads(y, b);
    UnitReads(z, c);
    assert Unit(x, a) + " " + Unit(y, b) + " " + Unit(z, c) == Unit(x, a) + [' '] + Unit(y, b) + [' '] + Unit(z, c);
    ReadThree(Unit(x, a), Unit(y, b), Unit(z, c), ' ');
  }

  /** "Xa" reads back as X. */
  lemma OneUnitReads(x: nat, a: char)
    requires UnitLetter(a)
    ensures ReadFields(Unit(x, a), ' ') == [Some(x)]
  {
    UnitReads(x, a);
    assert ReadEach([Unit(x, a)]) == [Some(x)];
  }
}
