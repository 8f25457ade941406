/**
 Decimal numerals, zero padding and the code-unit order on strings, as JavaScript's `String(n)`,
 `padStart` and the default `sort` have them.
 */
module Decimal {

  function DigitChar(d: nat): char
    requires d < 10
  {
    '0' + d as char
  }

  predicate IsNumeral(s: string) {
    forall i | 0 <= i < |s| :: '0' <= s[i] <= '9'
  }

  function ToText(n: nat): string {
    if n < 10 then [DigitChar(n)] else ToText(n / 10) + [DigitChar(n % 10)]
  }

  function Value(s: string): nat
    requires IsNumeral(s)
  {
    if s == [] then 0 else 10 * Value(s[..|s| - 1]) + (s[|s| - 1] - '0') as nat
  }

  function Pow10(k: nat): (r: nat)
    ensures r > 0
  {
    if k == 0 then 1 else 10 * Pow10(k - 1)
  }

  function Zeros(k: nat): (s: string)
    ensures |s| == k && forall i | 0 <= i < k :: s[i] == '0'
  {
    seq(k, _ => '0')
  }

  function PadStart(s: string, width: nat): string {
    if |s| >= width then s else Zeros(width - |s|) + s
  }

  /** Reading a numeral back gives the number it was printed from. */
  lemma {:induction false} ValueOfText(n: nat)
    ensures IsNumeral(ToText(n)) && |ToText(n)| > 0
    ensures Value(ToText(n)) == n
  {
    if n >= 10 {
      ValueOfText(n / 10);
      var s := ToText(n);
      assert s[..|s| - 1] == ToText(n / 10);
    }
  }

  /** A number below 10^k prints in at most k digits, and one from 10^k on in more. */
  lemma {:induction false} TextLength(n: nat, k: nat)
    requires k >= 1
    ensures |ToText(n)| <= k <==> n < Pow10(k)
  {
    if n < 10 {
      Pow10AtLeast(k);
    } else if k > 1 {
      TextLength(n / 10, k - 1);
    }
  }

  lemma {:induction false} Pow10AtLeast(k: nat)
    requires k >= 1
    ensures Pow10(k) >= 10
  {
    if k > 1 {
      Pow10AtLeast(k - 1);
    }
  }

  lemma {:induction false} PaddedValue(s: string, z: nat)
    requires IsNumeral(s)
    ensures IsNumeral(Zeros(z) + s) && Value(Zeros(z) + s) == Value(s)
    decreases |s| + z
  {
    var t := Zeros(z) + s;
    if s != [] {
      PaddedValue(s[..|s| - 1], z);
      assert t[..|t| - 1] == Zeros(z) + s[..|s| - 1];
    } else if z > 0 {
      PaddedValue(s, z - 1);
      assert t[..|t| - 1] == Zeros(z - 1) + s;
    }
  }

  // --- the code-unit order ---

  predicate Less(a: string, b: string) {
    b != [] && (a == [] || a[0] < b[0] || (a[0] == b[0] && Less(a[1..], b[1..])))
  }

  lemma {:induction false} LessTransitive(a: string, b: string, c: string)
    requires Less(a, b) && Less(b, c)
    ensures Less(a, c)
  {
    if a != [] && a[0] == b[0] && b[0] == c[0] {
      LessTransitive(a[1..], b[1..], c[1..]);
    }
  }

  lemma {:induction false} LessTrichotomy(a: string, b: string)
    ensures Less(a, b) || a == b || Less(b, a)
    ensures !(Less(a, b) && Less(b, a)) && !Less(a, a)
  {
    if a != [] && b != [] && a[0] == b[0] {
      LessTrichotomy(a[1..], b[1..]);
      assert a == [a[0]] + a[1..] && b == [b[0]] + b[1..];
    }
    if a != [] {
      LessIrreflexive(a);
    }
  }

  lemma {:induction false} LessIrreflexive(a: string)
    ensures !Less(a, a)
  {
    if a != [] {
      LessIrreflexive(a[1..]);
    }
  }

  /** A common prefix does not affect the order. */
  lemma {:induction false} LessAfterPrefix(p: string, a: string, b: string)
    ensures Less(p + a, p + b) <==> Less(a, b)
  {
    if p == [] {
      assert p + a == a && p + b == b;
    } else {
      LessAfterPrefix(p[1..], a, b);
      assert (p + a)[1..] == p[1..] + a && (p + b)[1..] == p[1..] + b;
    }
  }

  /** What follows two different strings of one length does not affect their order. */
  lemma {:induction false} LessBeforeSuffix(a: string, b: string, s: string, t: string)
    requires |a| == |b| && a != b
    ensures Less(a + s, b + t) <==> Less(a, b)
  {
    assert a == [a[0]] + a[1..] && b == [b[0]] + b[1..];
    assert (a + s)[1..] == a[1..] + s && (b + t)[1..] == b[1..] + t;
    if a[0] == b[0] {
      LessBeforeSuffix(a[1..], b[1..], s, t);
    }
  }

  lemma LessOne(x: char, y: char)
    ensures Less([x], [y]) <==> x < y
  {
  }

  /** Numerals of one length are ordered by value, and only equal ones have equal value. */
  lemma {:induction false} SameLengthOrder(a: string, b: string)
    requires |a| == |b| && IsNumeral(a) && IsNumeral(b)
    ensures Less(a, b) <==> Value(a) < Value(b)
    ensures a == b <==> Value(a) == Value(b)
  {
    hide Less;
    if a == [] {
      LessIrreflexive(a);
      return;
    }
    var a', b' := a[..|a| - 1], b[..|b| - 1];
    var x, y := [a[|a| - 1]], [b[|b| - 1]];
    assert a == a' + x && b == b' + y;
    SameLengthOrder(a', b');
    LessOne(x[0], y[0]);
    if a' == b' {
      LessAfterPrefix(a', x, y);
    } else {
      LessBeforeSuffix(a', b', x, y);
    }
  }

  /** A number that fits the width is padded to exactly that many digits and keeps its value. */
  lemma PaddedText(n: nat, width: nat)
    requires width >= 1 && n < Pow10(width)
    ensures var s := PadStart(ToText(n), width); |s| == width && IsNumeral(s) && Value(s) == n
  {
    ValueOfText(n);
    TextLength(n, width);
    PaddedValue(ToText(n), width - |ToText(n)|);
    assert Zeros(0) + ToText(n) == ToText(n);
  }

  /** Zero-padded numerals of numbers that fit the width sort by value. */
  lemma PaddedOrder(m: nat, n: nat, width: nat)
    requires width >= 1 && m < Pow10(width) && n < Pow10(width)
    ensures Less(PadStart(ToText(m), width), PadStart(ToText(n), width)) <==> m < n
    ensures PadStart(ToText(m), width) == PadStart(ToText(n), width) <==> m == n
  {
    PaddedText(m, width);
    PaddedText(n, width);
    SameLengthOrder(PadStart(ToText(m), width), PadStart(ToText(n), width));
  }
}
