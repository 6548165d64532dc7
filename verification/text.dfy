/**
 * The string primitives the task service relies on: rendering integers in
 * decimal (Python's `str()` on an `int`), zero-padded numeric fields (the
 * `%Y`, `%m`, `%d` directives of `strftime`), and joining and splitting on a
 * one-character separator (`"\n".join(...)` and `str.split("\n")`).
 */
module Text {

  predicate IsDigit(c: char) {
    '0' <= c <= '9'
  }

  predicate AllDigits(s: string) {
    forall i :: 0 <= i < |s| ==> IsDigit(s[i])
  }

  function DigitChar(d: nat): (c: char)
    requires d < 10
    ensures IsDigit(c) && DigitValue(c) == d
  {
    ('0' as int + d) as char
  }

  function DigitValue(c: char): nat
    requires IsDigit(c)
  {
    (c as int) - ('0' as int)
  }

  /** The number a string of decimal digits denotes, most significant digit first. */
  function DigitsValue(s: string): nat
    requires AllDigits(s)
  {
    if s == [] then 0 else 10 * DigitsValue(s[..|s| - 1]) + DigitValue(s[|s| - 1])
  }

  function Pow10(k: nat): (p: nat)
    ensures p >= 1
  {
    if k == 0 then 1 else 10 * Pow10(k - 1)
  }

  /** Decimal text of a natural number, without leading zeros. */
  function NatToString(n: nat): (s: string)
    ensures 1 <= |s| && AllDigits(s)
    ensures DigitsValue(s) == n
    ensures |s| > 1 ==> s[0] != '0'
    ensures s[0] == '0' <==> n == 0
    decreases n
  {
    if n < 10 then [DigitChar(n)]
    else
      var prefix := NatToString(n / 10);
      var s := prefix + [DigitChar(n % 10)];
      assert s[..|s| - 1] == prefix && s[0] == prefix[0];
      s
  }

  /** A number below 10^w never needs more than w digits. */
  lemma {:induction false} NatToStringLength(n: nat, w: nat)
    requires 1 <= w && n < Pow10(w)
    ensures |NatToString(n)| <= w
    decreases n
  {
    if n >= 10 {
      NatToStringLength(n / 10, w - 1);
    }
  }

  /** Python's `str(n)` for any integer: a minus sign before the digits of a negative number. */
  function IntToString(n: int): (s: string)
    ensures IsIntText(s)
    ensures IntValue(s) == n
    ensures s[0] == '-' <==> n < 0
    ensures n >= 0 && |s| > 1 ==> s[0] != '0'
    ensures n < 0 ==> s[1] != '0'
  {
    if n < 0 then "-" + NatToString(-n) else NatToString(n)
  }

  /** Text that an integer renders to: digits, optionally after a minus sign. */
  predicate IsIntText(s: string) {
    if |s| > 0 && s[0] == '-' then |s| > 1 && AllDigits(s[1..]) else |s| > 0 && AllDigits(s)
  }

  /** Python's `int(s)` on text of the shape `IsIntText` describes. */
  function IntValue(s: string): int
    requires IsIntText(s)
  {
    if s[0] == '-' then 0 - DigitsValue(s[1..]) as int else DigitsValue(s)
  }

  /** Different integers render to different text. */
  lemma IntToStringInjective(m: int, n: int)
    requires IntToString(m) == IntToString(n)
    ensures m == n
  {
    assert IntValue(IntToString(m)) == IntValue(IntToString(n));
  }

  function Zeros(k: nat): (z: string)
    ensures |z| == k && AllDigits(z)
  {
    if k == 0 then "" else "0" + Zeros(k - 1)
  }

  /** Leading zeros do not change the value of a digit string. */
  lemma {:induction false} LeadingZeros(k: nat, s: string)
    requires AllDigits(s)
    ensures AllDigits(Zeros(k) + s) && DigitsValue(Zeros(k) + s) == DigitsValue(s)
    decreases |s|
  {
    var t := Zeros(k) + s;
    if s == [] {
      assert t == Zeros(k);
      ZerosValue(k);
    } else {
      var init := s[..|s| - 1];
      LeadingZeros(k, init);
      assert t[..|t| - 1] == Zeros(k) + init;
      assert t[|t| - 1] == s[|s| - 1];
    }
  }

  lemma {:induction false} ZerosValue(k: nat)
    ensures DigitsValue(Zeros(k)) == 0
  {
    if k > 0 {
      var z := Zeros(k);
      assert z == Zeros(k - 1) + "0" by { ZerosShift(k); }
      ZerosValue(k - 1);
      assert z[..|z| - 1] == Zeros(k - 1);
    }
  }

  lemma {:induction false} ZerosShift(k: nat)
    requires k > 0
    ensures Zeros(k) == Zeros(k - 1) + "0"
  {
    if k > 1 {
      ZerosShift(k - 1);
    }
  }

  /**
   * A numeric field padded on the left with zeros to at least `width`
   * characters (the `%Y`, `%m` and `%d` directives of `strftime`).
   */
  function ZeroPad(n: nat, width: nat): (s: string)
    ensures AllDigits(s) && DigitsValue(s) == n
    ensures |s| >= width
    ensures 1 <= width && n < Pow10(width) ==> |s| == width
  {
    var digits := NatToString(n);
    var pad := if |digits| < width then width - |digits| else 0;
    LeadingZeros(pad, digits);
    assert 1 <= width && n < Pow10(width) ==> |digits| <= width by {
      if 1 <= width && n < Pow10(width) { NatToStringLength(n, width); }
    }
    Zeros(pad) + digits
  }

  /** `sep.join(parts)`: the parts in order, with `sep` between neighbours. */
  function Join(parts: seq<string>, sep: string): string
  {
    if |parts| == 0 then ""
    else if |parts| == 1 then parts[0]
    else parts[0] + sep + Join(parts[1..], sep)
  }

  /** `s.split(c)`: the maximal pieces of `s` between occurrences of `c`; never an empty list. */
  function Split(s: string, c: char): (pieces: seq<string>)
    ensures |pieces| >= 1
    decreases |s|
  {
    if |s| == 0 then [""]
    else
      var rest := Split(s[1..], c);
      if s[0] == c then [""] + rest else [[s[0]] + rest[0]] + rest[1..]
  }

  /** Text without the separator splits into itself alone. */
  lemma {:induction false} SplitWithoutSeparator(s: string, c: char)
    requires c !in s
    ensures Split(s, c) == [s]
    decreases |s|
  {
    if |s| > 0 {
      SplitWithoutSeparator(s[1..], c);
      assert [s[0]] + s[1..] == s;
    }
  }

  /** A separator-free piece followed by the separator splits off as the first piece. */
  lemma {:induction false} SplitAfterPiece(p: string, t: string, c: char)
    requires c !in p
    ensures Split(p + [c] + t, c) == [p] + Split(t, c)
    decreases |p|
  {
    var s := p + [c] + t;
    if |p| == 0 {
      assert s[1..] == t;
    } else {
      assert s[1..] == p[1..] + [c] + t;
      SplitAfterPiece(p[1..], t, c);
      assert [p[0]] + p[1..] == p;
    }
  }

  /** Splitting undoes joining when no part contains the separator. */
  lemma {:induction false} SplitJoin(parts: seq<string>, c: char)
    requires |parts| >= 1
    requires forall i :: 0 <= i < |parts| ==> c !in parts[i]
    ensures Split(Join(parts, [c]), c) == parts
    decreases |parts|
  {
    if |parts| == 1 {
      SplitWithoutSeparator(parts[0], c);
    } else {
      SplitJoin(parts[1..], c);
      SplitAfterPiece(parts[0], Join(parts[1..], [c]), c);
      assert [parts[0]] + parts[1..] == parts;
    }
  }

  /** `s.startswith(prefix)`. */
  predicate StartsWith(s: string, prefix: string) {
    |prefix| <= |s| && s[..|prefix|] == prefix
  }
}
