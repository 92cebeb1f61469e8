/**
 Fixed-width decimal fields and byte-wise string order, shared by the period keys
 of the meter and the timestamps of the key table.
 */
module Text {

  function Digit(n: int): (c: char)
    requires 0 <= n < 10
    ensures '0' <= c <= '9'
  {
    '0' + n as char
  }

  function Pow10(width: nat): (r: nat)
    ensures r > 0
  {
    if width == 0 then 1 else 10 * Pow10(width - 1)
  }

  // `n` in exactly `width` decimal digits.
  function Pad(n: nat, width: nat): (s: string)
    requires n < Pow10(width)
    ensures |s| == width
    ensures forall i :: 0 <= i < |s| ==> '0' <= s[i] <= '9'
  {
    if width == 0 then "" else Pad(n / 10, width - 1) + [Digit(n % 10)]
  }

  // Strict byte-wise order, a proper prefix first.
  predicate Less(a: string, b: string) {
    if b == [] then false
    else if a == [] then true
    else a[0] < b[0] || (a[0] == b[0] && Less(a[1..], b[1..]))
  }

  // ---- Order -----------------------------------------------------------------------

  lemma {:induction false} LessTrichotomy(a: string, b: string)
    ensures Less(a, b) || Less(b, a) || a == b
    ensures !(Less(a, b) && Less(b, a)) && !Less(a, a)
  {
    if a != [] && b != [] {
      LessTrichotomy(a[1..], b[1..]);
      LessTrichotomy(a[1..], a[1..]);
      assert a == [a[0]] + a[1..] && b == [b[0]] + b[1..];
    } else if a != [] {
      LessTrichotomy(a[1..], a[1..]);
    }
  }

  // A common prefix does not matter.
  lemma {:induction false} LessAfterPrefix(p: string, a: string, b: string)
    ensures Less(p + a, p + b) == Less(a, b)
  {
    if p == [] {
      assert p + a == a && p + b == b;
    } else {
      LessAfterPrefix(p[1..], a, b);
      assert (p + a)[1..] == p[1..] + a && (p + b)[1..] == p[1..] + b;
    }
  }

  // Fields of equal width decide before anything that follows them.
  lemma {:induction false} LessByField(a: string, b: string, x: string, y: string)
    requires |a| == |b|
    ensures Less(a + x, b + y) <==> Less(a, b) || (a == b && Less(x, y))
  {
    if a == [] {
      assert a + x == x && b + y == y;
    } else {
      LessByField(a[1..], b[1..], x, y);
      assert (a + x)[1..] == a[1..] + x && (b + y)[1..] == b[1..] + y;
      assert a == [a[0]] + a[1..] && b == [b[0]] + b[1..];
    }
  }

  lemma {:induction false} PadOrder(m: nat, n: nat, width: nat)
    requires m < Pow10(width) && n < Pow10(width)
    ensures Less(Pad(m, width), Pad(n, width)) <==> m < n
    ensures Pad(m, width) == Pad(n, width) <==> m == n
  {
    if width > 0 {
      PadOrder(m / 10, n / 10, width - 1);
      var x, y := [Digit(m % 10)], [Digit(n % 10)];
      LessByField(Pad(m / 10, width - 1), Pad(n / 10, width - 1), x, y);
      assert Less(x, y) <==> m % 10 < n % 10 by {
        assert x[1..] == y[1..] == [];
        LessTrichotomy("", "");
      }
      FieldSplit(Pad(m / 10, width - 1), Pad(n / 10, width - 1), x, y);
    } else {
      LessTrichotomy("", "");
    }
  }

  lemma FieldSplit(a: string, b: string, x: string, y: string)
    requires |a| == |b|
    ensures a + x == b + y <==> a == b && x == y
  {
    if a + x == b + y {
      assert a == (a + x)[..|a|] && b == (b + y)[..|b|];
      assert x == (a + x)[|a|..] && y == (b + y)[|b|..];
    }
  }

  lemma FieldWidths(n: nat)
    ensures n < 100 ==> n < Pow10(2)
    ensures n < 10000 ==> n < Pow10(4)
    ensures n < 1_000_000_000 ==> n < Pow10(9)
  {
    assert Pow10(2) == 100 by { assert Pow10(1) == 10; }
    assert Pow10(4) == 10000 by { assert Pow10(3) == 1000; }
    assert Pow10(9) == 1_000_000_000 by {
      assert Pow10(6) == 1_000_000 by { assert Pow10(5) == 100000; }
      assert Pow10(8) == 100_000_000 by { assert Pow10(7) == 10_000_000; }
    }
  }

  // ---- Calendar fields ---------------------------------------------------------------

  function Two(n: nat): (s: string)
    requires n < 100
    ensures |s| == 2 && forall i :: 0 <= i < |s| ==> '0' <= s[i] <= '9'
  {
    FieldWidths(n);
    Pad(n, 2)
  }

  function Four(n: nat): (s: string)
    requires n < 10000
    ensures |s| == 4 && forall i :: 0 <= i < |s| ==> '0' <= s[i] <= '9'
  {
    FieldWidths(n);
    Pad(n, 4)
  }

  lemma TwoInjective(m: nat, n: nat)
    requires m < 100 && n < 100 && Two(m) == Two(n)
    ensures m == n
  {
    FieldWidths(m);
    FieldWidths(n);
    PadOrder(m, n, 2);
  }

  lemma FourInjective(m: nat, n: nat)
    requires m < 10000 && n < 10000 && Four(m) == Four(n)
    ensures m == n
  {
    FieldWidths(m);
    FieldWidths(n);
    PadOrder(m, n, 4);
  }

  // ---- Reading digits ----------------------------------------------------------------

  // The number a run of digits stands for.
  function ValueOf(s: string): int {
    if s == [] then 0 else 10 * ValueOf(s[..|s| - 1]) + (s[|s| - 1] as int - '0' as int)
  }

  lemma {:induction false} PadValue(n: nat, width: nat)
    requires n < Pow10(width)
    ensures ValueOf(Pad(n, width)) == n
  {
    if width > 0 {
      PadValue(n / 10, width - 1);
      assert Pad(n, width)[..width - 1] == Pad(n / 10, width - 1);
    }
  }

  lemma TwoValue(n: nat)
    requires n < 100
    ensures ValueOf(Two(n)) == n
  {
    FieldWidths(n);
    PadValue(n, 2);
  }

  lemma FourValue(n: nat)
    requires n < 10000
    ensures ValueOf(Four(n)) == n
  {
    FieldWidths(n);
    PadValue(n, 4);
  }

  // A zero at the end is a factor of ten.
  lemma {:induction false} TrailingZeros(s: string, zeros: string)
    requires forall i :: 0 <= i < |zeros| ==> zeros[i] == '0'
    ensures ValueOf(s + zeros) == ValueOf(s) * Pow10(|zeros|)
  {
    if zeros == [] {
      assert s + zeros == s;
    } else {
      TrailingZeros(s, zeros[..|zeros| - 1]);
      assert (s + zeros)[..|s + zeros| - 1] == s + zeros[..|zeros| - 1];
    }
  }
}
