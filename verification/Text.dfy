/** Digits, decimal values and the byte order of text, as the shell tools see them. */
module Text {

  predicate IsDigit(c: char) {
    '0' <= c <= '9'
  }

  predicate AllDigits(s: string) {
    forall i | 0 <= i < |s| :: IsDigit(s[i])
  }

  predicate StartsWith(s: string, prefix: string) {
    |prefix| <= |s| && s[..|prefix|] == prefix
  }

  function SkipBlanks(s: string): string {
    if s != [] && s[0] == ' ' then SkipBlanks(s[1..]) else s
  }

  /** What the shell's `echo` takes for options instead of text: -n, -e, -E and their combinations. */
  predicate IsEchoOption(s: string) {
    |s| >= 2 && s[0] == '-' && forall i | 1 <= i < |s| :: s[i] == 'n' || s[i] == 'e' || s[i] == 'E'
  }

  function DigitValue(c: char): (d: nat)
    requires IsDigit(c)
    ensures d <= 9
  {
    c as int - '0' as int
  }

  function DigitChar(d: nat): (c: char)
    requires d <= 9
    ensures IsDigit(c) && DigitValue(c) == d
  {
    ('0' as int + d) as char
  }

  /** Reads digits from left to right on top of the number read so far. */
  function Horner(acc: nat, s: string): nat
    requires AllDigits(s)
    decreases |s|
  {
    if s == [] then acc else Horner(acc * 10 + DigitValue(s[0]), s[1..])
  }

  function Value(s: string): nat
    requires AllDigits(s)
  {
    Horner(0, s)
  }

  /** `n` written with exactly `width` digits, zeros in front; the leading digits are cut if it is longer. */
  function Padded(n: nat, width: nat): (s: string)
    ensures |s| == width && AllDigits(s)
  {
    if width == 0 then "" else Padded(n / 10, width - 1) + [DigitChar(n % 10)]
  }

  function Power10(k: nat): nat {
    if k == 0 then 1 else 10 * Power10(k - 1)
  }

  /** Strict byte order, a proper prefix first. */
  predicate TextLess(a: string, b: string) {
    b != [] && (a == [] || a[0] < b[0] || (a[0] == b[0] && TextLess(a[1..], b[1..])))
  }

  /** The length of the run of digits a text starts with. */
  function DigitRun(s: string): (k: nat)
    ensures k <= |s| && AllDigits(s[..k]) && (k < |s| ==> !IsDigit(s[k]))
  {
    if s == [] || !IsDigit(s[0]) then 0
    else
      var k := DigitRun(s[1..]);
      assert s[..k + 1] == [s[0]] + s[1..][..k];
      k + 1
  }

  lemma {:induction false} DigitRunOf(p: string, rest: string)
    requires AllDigits(p) && (rest != [] ==> !IsDigit(rest[0]))
    ensures DigitRun(p + rest) == |p|
  {
    var s := p + rest;
    if p == [] {
      assert s == rest;
    } else {
      assert s[1..] == p[1..] + rest;
      DigitRunOf(p[1..], rest);
    }
  }

  lemma HornerAt(s: string, k: nat, acc: nat)
    requires k < |s| && AllDigits(s)
    ensures Horner(acc, s[k..]) == Horner(acc * 10 + DigitValue(s[k]), s[k + 1..])
  {
    assert s[k..][1..] == s[k + 1..];
  }

  lemma FiveDigits(s: string, k: nat, acc: nat)
    requires k + 5 <= |s| && AllDigits(s)
    ensures Horner(acc, s[k..]) ==
            Horner(acc * 100000 + DigitValue(s[k]) * 10000 + DigitValue(s[k + 1]) * 1000 + DigitValue(s[k + 2]) * 100 +
                   DigitValue(s[k + 3]) * 10 + DigitValue(s[k + 4]), s[k + 5..])
  {
    var a := acc * 10 + DigitValue(s[k]);
    var b := a * 10 + DigitValue(s[k + 1]);
    var c := b * 10 + DigitValue(s[k + 2]);
    var d := c * 10 + DigitValue(s[k + 3]);
    HornerAt(s, k, acc);
    HornerAt(s, k + 1, a);
    HornerAt(s, k + 2, b);
    HornerAt(s, k + 3, c);
    HornerAt(s, k + 4, d);
  }

  /** Concretely, the digits of a version. */
  lemma SpelledVersion(s: string)
    requires s == "1507560488"
    ensures AllDigits(s) && Value(s) == 1_507_560_488
  {
    assert s[0] == '1' && s[1] == '5' && s[2] == '0' && s[3] == '7' && s[4] == '5';
    assert s[5] == '6' && s[6] == '0' && s[7] == '4' && s[8] == '8' && s[9] == '8';
    FiveDigits(s, 0, 0);
    FiveDigits(s, 5, 15075);
    assert s[0..] == s && s[10..] == "";
  }

  lemma {:induction false} HornerSnoc(acc: nat, s: string, c: char)
    requires AllDigits(s) && IsDigit(c)
    ensures Horner(acc, s + [c]) == Horner(acc, s) * 10 + DigitValue(c)
    decreases |s|
  {
    if s != [] {
      assert (s + [c])[1..] == s[1..] + [c];
      HornerSnoc(acc * 10 + DigitValue(s[0]), s[1..], c);
    }
  }

  lemma {:induction false} PaddedValue(n: nat, width: nat)
    requires n < Power10(width)
    ensures Value(Padded(n, width)) == n
  {
    if width != 0 {
      PaddedValue(n / 10, width - 1);
      HornerSnoc(0, Padded(n / 10, width - 1), DigitChar(n % 10));
    }
  }

  /** Numbers of equal width: a larger number so far stays larger, whatever digits follow. */
  lemma {:induction false} HornerMonotone(x: nat, y: nat, a: string, b: string)
    requires AllDigits(a) && AllDigits(b) && |a| == |b| && x < y
    ensures Horner(x, a) < Horner(y, b)
    decreases |a|
  {
    if a != [] {
      HornerMonotone(x * 10 + DigitValue(a[0]), y * 10 + DigitValue(b[0]), a[1..], b[1..]);
    }
  }

  /** Between digit runs of equal width, text order is numeric order. */
  lemma {:induction false} EqualWidthOrder(acc: nat, a: string, b: string)
    requires AllDigits(a) && AllDigits(b) && |a| == |b|
    ensures TextLess(a, b) <==> Horner(acc, a) < Horner(acc, b)
    decreases |a|
  {
    if a != [] {
      var x, y := acc * 10 + DigitValue(a[0]), acc * 10 + DigitValue(b[0]);
      if a[0] < b[0] {
        HornerMonotone(x, y, a[1..], b[1..]);
      } else if b[0] < a[0] {
        HornerMonotone(y, x, b[1..], a[1..]);
      } else {
        EqualWidthOrder(x, a[1..], b[1..]);
      }
    }
  }

  lemma EqualWidthInjective(a: string, b: string)
    requires AllDigits(a) && AllDigits(b) && |a| == |b| && Value(a) == Value(b)
    ensures a == b
  {
    EqualWidthOrder(0, a, b);
    EqualWidthOrder(0, b, a);
    TextLessTotal(a, b);
  }

  lemma {:induction false} TextLessTotal(a: string, b: string)
    ensures TextLess(a, b) || a == b || TextLess(b, a)
  {
    if a != [] && b != [] && a[0] == b[0] {
      TextLessTotal(a[1..], b[1..]);
      if a[1..] == b[1..] {
        assert a == [a[0]] + a[1..] && b == [b[0]] + b[1..];
      }
    }
  }

  lemma {:induction false} TextLessIrreflexive(a: string)
    ensures !TextLess(a, a)
  {
    if a != [] {
      TextLessIrreflexive(a[1..]);
    }
  }

  lemma {:induction false} TextLessTransitive(a: string, b: string, c: string)
    requires TextLess(a, b) && TextLess(b, c)
    ensures TextLess(a, c)
  {
    if a != [] && a[0] == b[0] == c[0] {
      TextLessTransitive(a[1..], b[1..], c[1..]);
    }
  }

  lemma {:induction false} TextLessCommonPrefix(p: string, a: string, b: string)
    ensures TextLess(p + a, p + b) <==> TextLess(a, b)
  {
    if p == [] {
      assert p + a == a && p + b == b;
    } else {
      assert (p + a)[1..] == p[1..] + a && (p + b)[1..] == p[1..] + b;
      TextLessCommonPrefix(p[1..], a, b);
    }
  }

  /** Text order is settled by prefixes of equal width that differ. */
  lemma {:induction false} TextLessDiffering(a: string, b: string, x: string, y: string)
    requires |a| == |b| && a != b
    ensures TextLess(a + x, b + y) <==> TextLess(a, b)
  {
    assert (a + x)[1..] == a[1..] + x && (b + y)[1..] == b[1..] + y;
    if a[0] == b[0] {
      assert a[1..] != b[1..] by {
        assert a == [a[0]] + a[1..] && b == [b[0]] + b[1..];
      }
      TextLessDiffering(a[1..], b[1..], x, y);
    }
  }

  /** The digits that follow move a number only inside the gap its leading digits leave. */
  lemma {:induction false} HornerBounds(acc: nat, s: string)
    requires AllDigits(s)
    ensures acc * Power10(|s|) <= Horner(acc, s) < (acc + 1) * Power10(|s|)
    decreases |s|
  {
    if s != [] {
      var d, p := DigitValue(s[0]), Power10(|s| - 1);
      HornerBounds(acc * 10 + d, s[1..]);
      ShiftBounds(acc, d, p);
    }
  }

  lemma ShiftBounds(acc: nat, d: nat, p: nat)
    requires d <= 9
    ensures acc * (10 * p) <= (acc * 10 + d) * p
    ensures (acc * 10 + d + 1) * p <= (acc + 1) * (10 * p)
  {
    assert (acc * 10 + d) * p == acc * (10 * p) + d * p;
    assert (acc * 10 + d + 1) * p == acc * (10 * p) + (d + 1) * p;
    assert (d + 1) * p <= 10 * p;
  }

  /** A ten-digit number written with ten digits. */
  lemma TenDigits(v: nat)
    requires 1_000_000_000 <= v <= 9_999_999_999
    ensures Value(Padded(v, 10)) == v && Padded(v, 10)[0] != '0'
  {
    assert Power10(9) == 1_000_000_000 && Power10(10) == 10_000_000_000;
    PaddedValue(v, 10);
    var p := Padded(v, 10);
    assert Value(p) == Horner(DigitValue(p[0]), p[1..]);
    HornerBounds(0, p[1..]);
  }
}
