/**
 UTC instants, their trimmed RFC 3339 text, and how the order of the text compares
 with the order of time. The key table compares the text.
 */
module Timestamps {
  import opened Text

  datatype Civil = Civil(year: nat, month: nat, day: nat, hour: nat, minute: nat, second: nat, nano: nat) {
    predicate Valid() {
      && year < 10000 && 1 <= month <= 12 && 1 <= day <= 31
      && hour < 24 && minute < 60 && second < 60 && nano < 1_000_000_000
    }
  }

  type Time = t: Civil | t.Valid() witness Civil(1970, 1, 1, 0, 0, 0, 0)

  // ---- Time order --------------------------------------------------------------------

  predicate SameSecond(a: Time, b: Time) {
    a.(nano := 0) == b.(nano := 0)
  }

  predicate EarlierSecond(a: Time, b: Time) {
    if a.year != b.year then a.year < b.year
    else if a.month != b.month then a.month < b.month
    else if a.day != b.day then a.day < b.day
    else if a.hour != b.hour then a.hour < b.hour
    else if a.minute != b.minute then a.minute < b.minute
    else a.second < b.second
  }

  predicate Before(a: Time, b: Time) {
    EarlierSecond(a, b) || (SameSecond(a, b) && a.nano < b.nano)
  }

  predicate AtMost(a: Time, b: Time) {
    !Before(b, a)
  }

  lemma BeforeTotal(a: Time, b: Time)
    ensures Before(a, b) || Before(b, a) || a == b
    ensures !(Before(a, b) && Before(b, a)) && !Before(a, a)
    ensures EarlierSecond(a, b) ==> !SameSecond(a, b) && !EarlierSecond(b, a)
    ensures EarlierSecond(a, b) || EarlierSecond(b, a) || SameSecond(a, b)
  {
  }

  lemma BeforeTransitive(a: Time, b: Time, c: Time)
    requires AtMost(a, b) && AtMost(b, c)
    ensures AtMost(a, c)
    ensures Before(a, b) || Before(b, c) ==> Before(a, c)
  {
  }

  // ---- Text ----------------------------------------------------------------------------

  // YYYY-MM-DDTHH:MM:SS
  function SecondText(t: Time): string {
    Four(t.year) + ("-" + (Two(t.month) + ("-" + (Two(t.day) + ("T" + ClockText(t))))))
  }

  function ClockText(t: Time): string {
    Two(t.hour) + (":" + (Two(t.minute) + (":" + Two(t.second))))
  }

  function TrimZeros(s: string): (r: string)
    ensures r <= s
    ensures r != [] ==> r[|r| - 1] != '0'
    ensures forall i :: |r| <= i < |s| ==> s[i] == '0'
  {
    if s != [] && s[|s| - 1] == '0' then TrimZeros(s[..|s| - 1]) else s
  }

  // The fraction digits that are written out, without trailing zeros.
  function Digits(nano: nat): (s: string)
    requires nano < 1_000_000_000
    ensures forall i :: 0 <= i < |s| ==> '0' <= s[i] <= '9'
  {
    FieldWidths(nano);
    TrimZeros(Pad(nano, 9))
  }

  function Fraction(nano: nat): string
    requires nano < 1_000_000_000
  {
    if Digits(nano) == [] then "" else "." + Digits(nano)
  }

  function Format(t: Time): string {
    SecondText(t) + (Fraction(t.nano) + "Z")
  }

  // ---- Whole seconds ---------------------------------------------------------------------

  // One separated field decides before what follows it.
  lemma FieldDecides(m: nat, n: nat, width: nat, sep: string, x: string, y: string)
    requires m < Pow10(width) && n < Pow10(width)
    ensures Less(Pad(m, width) + (sep + x), Pad(n, width) + (sep + y)) <==> m < n || (m == n && Less(x, y))
    ensures Pad(m, width) + (sep + x) == Pad(n, width) + (sep + y) <==> m == n && x == y
  {
    PadOrder(m, n, width);
    LessByField(Pad(m, width), Pad(n, width), sep + x, sep + y);
    LessAfterPrefix(sep, x, y);
    FieldSplit(Pad(m, width), Pad(n, width), sep + x, sep + y);
    FieldSplit(sep, sep, x, y);
  }

  lemma TwoDecides(m: nat, n: nat, sep: string, x: string, y: string)
    requires m < 100 && n < 100
    ensures Less(Two(m) + (sep + x), Two(n) + (sep + y)) <==> m < n || (m == n && Less(x, y))
    ensures Two(m) + (sep + x) == Two(n) + (sep + y) <==> m == n && x == y
  {
    FieldWidths(m);
    FieldWidths(n);
    FieldDecides(m, n, 2, sep, x, y);
  }

  lemma ClockOrder(a: Time, b: Time)
    ensures |ClockText(a)| == 8
    ensures Less(ClockText(a), ClockText(b)) <==>
            if a.hour != b.hour then a.hour < b.hour
            else if a.minute != b.minute then a.minute < b.minute
            else a.second < b.second
    ensures ClockText(a) == ClockText(b) <==> a.hour == b.hour && a.minute == b.minute && a.second == b.second
  {
    FieldWidths(a.second);
    FieldWidths(b.second);
    PadOrder(a.second, b.second, 2);
    TwoDecides(a.minute, b.minute, ":", Two(a.second), Two(b.second));
    TwoDecides(a.hour, b.hour, ":", Two(a.minute) + (":" + Two(a.second)), Two(b.minute) + (":" + Two(b.second)));
  }

  lemma SecondOrder(a: Time, b: Time)
    ensures |SecondText(a)| == 19
    ensures Less(SecondText(a), SecondText(b)) <==> EarlierSecond(a, b)
    ensures SecondText(a) == SecondText(b) <==> SameSecond(a, b)
  {
    ClockOrder(a, b);
    var xa, xb := ClockText(a), ClockText(b);
    TwoDecides(a.day, b.day, "T", xa, xb);
    var ya, yb := Two(a.day) + ("T" + xa), Two(b.day) + ("T" + xb);
    TwoDecides(a.month, b.month, "-", ya, yb);
    var za, zb := Two(a.month) + ("-" + ya), Two(b.month) + ("-" + yb);
    FieldWidths(a.year);
    FieldWidths(b.year);
    FieldDecides(a.year, b.year, 4, "-", za, zb);
    hide ClockText, Less, Pad;
  }

  // ---- Fractions ---------------------------------------------------------------------------

  // Strings that part ways before either ends compare the same whatever follows.
  lemma {:induction false} PartWays(a: string, b: string, x: string, y: string)
    requires !(a <= b) && !(b <= a)
    ensures Less(a + x, b + y) == Less(a, b)
  {
    assert (a + x)[1..] == a[1..] + x && (b + y)[1..] == b[1..] + y;
    if a[0] == b[0] {
      assert a == [a[0]] + a[1..] && b == [b[0]] + b[1..];
      PartWays(a[1..], b[1..], x, y);
    }
  }

  lemma {:induction false} ZerosAreLeast(z: string, c: string)
    requires |z| == |c| && (forall i :: 0 <= i < |z| ==> z[i] == '0' <= c[i])
    requires exists i :: 0 <= i < |c| && c[i] != '0'
    ensures Less(z, c)
  {
    if c[0] == '0' {
      ZerosAreLeast(z[1..], c[1..]);
    }
  }

  // A shorter run of digits that starts a longer one is the smaller fraction.
  lemma PrefixIsSmaller(m: nat, n: nat)
    requires m < 1_000_000_000 && n < 1_000_000_000 && Digits(m) < Digits(n)
    ensures m < n
  {
    FieldWidths(m);
    FieldWidths(n);
    PadOrder(m, n, 9);
    var p, q, a, b := Pad(m, 9), Pad(n, 9), Digits(m), Digits(n);
    hide Pad, Less, TrimZeros;
    TrimmedPrefix(p, q, a, b);
  }

  lemma TrimmedPrefix(p: string, q: string, a: string, b: string)
    requires |p| == |q| && a <= p && b <= q && a < b && b[|b| - 1] != '0'
    requires (forall i :: |a| <= i < |p| ==> p[i] == '0') && (forall i :: 0 <= i < |q| ==> '0' <= q[i])
    ensures Less(p, q)
  {
    var z, c := p[|a|..], q[|a|..];
    assert p == a + z && q == a + c;
    assert c[|b| - 1 - |a|] == b[|b| - 1];
    ZerosAreLeast(z, c);
    LessAfterPrefix(a, z, c);
  }

  lemma DigitsOrder(m: nat, n: nat)
    requires m < 1_000_000_000 && n < 1_000_000_000
    requires !(Digits(m) <= Digits(n)) && !(Digits(n) <= Digits(m))
    ensures Less(Digits(m), Digits(n)) <==> m < n
  {
    FieldWidths(m);
    FieldWidths(n);
    var p, q, a, b := Pad(m, 9), Pad(n, 9), Digits(m), Digits(n);
    assert p == a + p[|a|..] && q == b + q[|b|..];
    PartWays(a, b, p[|a|..], q[|b|..]);
    PadOrder(m, n, 9);
  }

  lemma DigitsInjective(m: nat, n: nat)
    requires m < 1_000_000_000 && n < 1_000_000_000 && Digits(m) == Digits(n)
    ensures m == n
  {
    FieldWidths(m);
    FieldWidths(n);
    assert Pad(m, 9) == Pad(n, 9);
    PadOrder(m, n, 9);
  }

  // Before the closing Z a longer run of digits comes first.
  lemma PrefixComesLater(a: string, b: string)
    requires a < b && (forall i :: 0 <= i < |b| ==> '0' <= b[i] <= '9')
    ensures !Less(a + "Z", b + "Z") && Less(b + "Z", a + "Z")
  {
    var c := b[|a|..] + "Z";
    assert b + "Z" == a + c;
    LessAfterPrefix(a, "Z", c);
    LessAfterPrefix(a, c, "Z");
  }

  // Within one second the text order is the time order unless the earlier fraction's
  // digits start the later one's.
  lemma FractionOrder(m: nat, n: nat)
    requires m < n < 1_000_000_000
    ensures Less(Fraction(m) + "Z", Fraction(n) + "Z") <==> !(Digits(m) < Digits(n))
  {
    hide Digits;
    var a, b := Digits(m), Digits(n);
    if b <= a {
      if a == b {
        DigitsInjective(m, n);
      } else {
        PrefixIsSmaller(n, m);
      }
      assert false;
    }
    if a == [] {
      assert Fraction(n) + "Z" == "." + (b + "Z");
      assert !Less("Z", "." + (b + "Z"));
    } else {
      assert Fraction(m) + "Z" == "." + (a + "Z") && Fraction(n) + "Z" == "." + (b + "Z");
      LessAfterPrefix(".", a + "Z", b + "Z");
      if a < b {
        PrefixComesLater(a, b);
      } else {
        PartWays(a, b, "Z", "Z");
        DigitsOrder(m, n);
      }
    }
  }

  // ---- The two orders compared -----------------------------------------------------------

  // The earlier instant's text sorts after the later one's: both fall in one second
  // and the written digits of the earlier one start those of the later one.
  predicate Misordered(earlier: Time, later: Time) {
    SameSecond(earlier, later) && Digits(earlier.nano) < Digits(later.nano)
  }

  // Exactly when text order is time order, for all instants of years 0 to 9999.
  lemma TextOrderExact(a: Time, b: Time)
    requires Before(a, b)
    ensures Less(Format(a), Format(b)) <==> !Misordered(a, b)
    ensures Less(Format(b), Format(a)) <==> Misordered(a, b)
    ensures Format(a) != Format(b)
  {
    SecondOrder(a, b);
    BeforeTotal(a, b);
    var x, y := Fraction(a.nano) + "Z", Fraction(b.nano) + "Z";
    LessByField(SecondText(a), SecondText(b), x, y);
    FieldSplit(SecondText(a), SecondText(b), x, y);
    if SameSecond(a, b) {
      FractionOrder(a.nano, b.nano);
      FractionsDiffer(a.nano, b.nano);
    }
    hide SecondText, Fraction, Less;
    LessTrichotomy(Format(a), Format(b));
  }

  lemma FractionsDiffer(m: nat, n: nat)
    requires m < n < 1_000_000_000
    ensures Fraction(m) + "Z" != Fraction(n) + "Z"
  {
    if Fraction(m) + "Z" == Fraction(n) + "Z" {
      assert Fraction(m) == (Fraction(m) + "Z")[..|Fraction(m)|] == Fraction(n);
      assert Digits(m) == if Fraction(m) == "" then "" else Fraction(m)[1..];
      assert Digits(n) == if Fraction(n) == "" then "" else Fraction(n)[1..];
      DigitsInjective(m, n);
      assert false;
    }
  }

  // The text determines the instant, so parsing can give it back.
  lemma FormatInjective(a: Time, b: Time)
    requires Format(a) == Format(b)
    ensures a == b
  {
    BeforeTotal(a, b);
    if Before(a, b) {
      TextOrderExact(a, b);
      assert false;
    } else if Before(b, a) {
      TextOrderExact(b, a);
      assert false;
    }
  }

  // The comparison `expires_at <= ?` on the text columns.
  predicate TextAtMost(a: Time, b: Time) {
    !Less(Format(b), Format(a))
  }

  lemma TextAtMostExact(a: Time, b: Time)
    ensures TextAtMost(a, b) <==> (AtMost(a, b) && !Misordered(a, b)) || Misordered(b, a)
  {
    BeforeTotal(a, b);
    if Before(a, b) {
      TextOrderExact(a, b);
      if Misordered(b, a) {
        PrefixIsSmaller(b.nano, a.nano);
      }
    } else if Before(b, a) {
      TextOrderExact(b, a);
    } else {
      LessTrichotomy(Format(a), Format(a));
    }
  }

  // In different seconds the text never lies.
  lemma TextAtMostAcrossSeconds(a: Time, b: Time)
    requires !SameSecond(a, b)
    ensures TextAtMost(a, b) <==> AtMost(a, b)
  {
    TextAtMostExact(a, b);
  }

  lemma MisorderedExample()
    ensures var a, b := Civil(2025, 1, 1, 12, 0, 0, 0), Civil(2025, 1, 1, 12, 0, 0, 500_000_000);
            Misordered(a, b) && Before(a, b) && !TextAtMost(a, b) && TextAtMost(b, a)
  {
    var a, b := Civil(2025, 1, 1, 12, 0, 0, 0), Civil(2025, 1, 1, 12, 0, 0, 500_000_000);
    hide Digits, Format, Less;
    ZeroDigits();
    if Digits(b.nano) == [] {
      DigitsInjective(0, b.nano);
      assert false;
    }
    TextOrderExact(a, b);
  }

  // ---- The text reads back ---------------------------------------------------------------

  // Every field stands in its columns, so reading the columns gives the instant back.
  lemma FieldsReadBack(t: Time)
    ensures var f := Format(t);
            && |f| >= 20 && f[4] == f[7] == '-' && f[10] == 'T' && f[13] == f[16] == ':' && f[|f| - 1] == 'Z'
            && ValueOf(f[..4]) == t.year && ValueOf(f[5..7]) == t.month && ValueOf(f[8..10]) == t.day
            && ValueOf(f[11..13]) == t.hour && ValueOf(f[14..16]) == t.minute && ValueOf(f[17..19]) == t.second
    ensures var f := Format(t);
            if t.nano == 0 then |f| == 20
            else
              && 22 <= |f| <= 30 && f[19] == '.' && f[|f| - 2] != '0'
              && ValueOf(f[20..|f| - 1]) * Pow10(30 - |f|) == t.nano
  {
    hide Two, Four, ClockText, SecondText, Fraction, ValueOf, Pow10, Digits, Format;
    FieldValues(t);
    SecondColumns(t);
    ColumnsOf(SecondText(t), Fraction(t.nano) + "Z");
    FormatParts(t);
    FractionReadsBack(t.nano);
  }

  lemma FormatParts(t: Time)
    ensures Format(t) == SecondText(t) + (Fraction(t.nano) + "Z")
    ensures var f, ds := Format(t), Digits(t.nano);
            && f[|f| - 1] == 'Z' && |f| == (if ds == [] then 20 else 21 + |ds|)
            && (ds != [] ==> f[19] == '.' && f[20..|f| - 1] == ds && f[|f| - 2] == ds[|ds| - 1])
  {
    SecondColumns(t);
    hide SecondText, Digits;
    var f, ds, s := Format(t), Digits(t.nano), SecondText(t);
    if ds != [] {
      assert f == s + ("." + ds + "Z");
      assert f[19..] == "." + ds + "Z";
      assert f[20..|f| - 1] == f[19..][1..1 + |ds|] == ds;
    }
  }

  lemma FieldValues(t: Time)
    ensures ValueOf(Four(t.year)) == t.year && ValueOf(Two(t.month)) == t.month && ValueOf(Two(t.day)) == t.day
    ensures ValueOf(Two(t.hour)) == t.hour && ValueOf(Two(t.minute)) == t.minute && ValueOf(Two(t.second)) == t.second
  {
    hide ValueOf, Pad, Pow10;
    FourValue(t.year);
    TwoValue(t.month);
    TwoValue(t.day);
    TwoValue(t.hour);
    TwoValue(t.minute);
    TwoValue(t.second);
  }

  lemma SecondColumns(t: Time)
    ensures var s := SecondText(t);
            && |s| == 19 && s[4] == s[7] == '-' && s[10] == 'T' && s[13] == s[16] == ':'
            && s[..4] == Four(t.year) && s[5..7] == Two(t.month) && s[8..10] == Two(t.day)
            && s[11..13] == Two(t.hour) && s[14..16] == Two(t.minute) && s[17..19] == Two(t.second)
  {
    hide Two, Four;
    var y, mo, d, h, mi, se := Four(t.year), Two(t.month), Two(t.day), Two(t.hour), Two(t.minute), Two(t.second);
    var clock := ClockText(t);
    assert clock == h + (":" + (mi + (":" + se)));
    assert clock[..2] == h && clock[3..5] == mi && clock[6..8] == se && clock[2] == clock[5] == ':';
    hide ClockText;
    var s := SecondText(t);
    assert s == y + ("-" + (mo + ("-" + (d + ("T" + clock)))));
    assert s[..4] == y && s[5..7] == mo && s[8..10] == d && s[11..] == clock;
    hide SecondText;
    assert s[11..13] == clock[..2] && s[14..16] == clock[3..5] && s[17..19] == clock[6..8];
  }

  // What follows the whole second leaves its columns alone.
  lemma ColumnsOf(s: string, tail: string)
    requires |s| == 19
    ensures var f := s + tail;
            && f[..4] == s[..4] && f[5..7] == s[5..7] && f[8..10] == s[8..10]
            && f[11..13] == s[11..13] && f[14..16] == s[14..16] && f[17..19] == s[17..19]
            && f[4] == s[4] && f[7] == s[7] && f[10] == s[10] && f[13] == s[13] && f[16] == s[16]
  {
  }

  lemma FractionReadsBack(nano: nat)
    requires nano < 1_000_000_000
    ensures var ds := Digits(nano);
            && |ds| <= 9 && ValueOf(ds) * Pow10(9 - |ds|) == nano
            && (ds == [] <==> nano == 0) && (ds != [] ==> ds[|ds| - 1] != '0')
  {
    FieldWidths(nano);
    PadValue(nano, 9);
    var p, ds := Pad(nano, 9), Digits(nano);
    assert p == ds + p[|ds|..];
    TrailingZeros(ds, p[|ds|..]);
    if nano == 0 {
      ZeroDigits();
    }
  }

  lemma ZeroDigits()
    ensures Digits(0) == []
  {
    FieldWidths(0);
    ZeroPad(9);
  }

  lemma {:induction false} ZeroPad(width: nat)
    ensures 0 < Pow10(width) && forall i :: 0 <= i < width ==> Pad(0, width)[i] == '0'
  {
    if width > 0 {
      ZeroPad(width - 1);
    }
  }
}
