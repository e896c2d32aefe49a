/**
 * Number text as JSON.stringify prints it (Number::toString, ECMA-262 section 6.1.6.1.20).
 *
 * A finite double is represented by the shortest decimal that denotes it: `digits` without
 * leading or trailing zeros, read as 0.d1d2d3... times ten to the power `exponent`. Distinct
 * finite doubles have distinct shortest decimals, except that 0 and -0 are both Zero.
 */
module EcmaNumber {
  import opened Utf16
  import opened Wrappers

  type Digit = d: int | 0 <= d <= 9

  datatype RawNumber = Zero | Shortest(neg: bool, digits: seq<Digit>, exponent: int)

  predicate Normal(x: RawNumber) {
    x.Shortest? ==> |x.digits| > 0 && x.digits[0] != 0 && x.digits[|x.digits| - 1] != 0
  }

  type Number = x: RawNumber | Normal(x) witness Zero

  /** A decimal literal before it is written: integer part, fraction, exponent. */
  datatype Decimal = Decimal(neg: bool, whole: seq<Digit>, frac: seq<Digit>, power: Option<int>)

  const MINUS: CodeUnit := 45
  const PLUS: CodeUnit := 43
  const DOT: CodeUnit := 46
  const LOWER_E: CodeUnit := 101

  predicate IsDigit(c: int) {
    48 <= c <= 57
  }

  function Zeros(n: nat): (ds: seq<Digit>)
    ensures |ds| == n && forall i :: 0 <= i < n ==> ds[i] == 0
  {
    seq(n, _ => 0)
  }

  function DigitText(ds: seq<Digit>): (t: Text)
    ensures |t| == |ds| && forall i :: 0 <= i < |t| ==> t[i] as int == 48 + ds[i] as int
  {
    seq(|ds|, i requires 0 <= i < |ds| => ds[i] as int + 48)
  }

  /** Decimal digits of a natural number, without leading zeros. */
  function NatDigits(n: nat): (ds: seq<Digit>)
    ensures |ds| > 0
    ensures n > 0 ==> ds[0] != 0
  {
    if n < 10 then [n] else NatDigits(n / 10) + [n % 10]
  }

  function NatOf(ds: seq<Digit>): nat {
    if ds == [] then 0 else 10 * NatOf(ds[..|ds| - 1]) + ds[|ds| - 1]
  }

  lemma {:induction false} NatOfNatDigits(n: nat)
    ensures NatOf(NatDigits(n)) == n
  {
    if n >= 10 {
      NatOfNatDigits(n / 10);
      var ds := NatDigits(n);
      assert ds[..|ds| - 1] == NatDigits(n / 10);
    }
  }

  // ---------------------------------------------------------------------- printing

  /** The four layouts of Number::toString. */
  function Layout(x: Number): (d: Decimal) {
    if x == Zero then Decimal(false, [0], [], None)
    else
      var k, n := |x.digits|, x.exponent;
      if k <= n <= 21 then Decimal(x.neg, x.digits + Zeros(n - k), [], None)
      else if 0 < n <= 21 then Decimal(x.neg, x.digits[..n], x.digits[n..], None)
      else if -6 < n <= 0 then Decimal(x.neg, [0], Zeros(-n) + x.digits, None)
      else Decimal(x.neg, x.digits[..1], x.digits[1..], Some(n - 1))
  }

  function PowerText(power: Option<int>): Text {
    match power
    case None => []
    case Some(e) => [LOWER_E, if e < 0 then MINUS else PLUS] + DigitText(NatDigits(if e < 0 then -e else e))
  }

  function FracText(frac: seq<Digit>): Text {
    if frac == [] then [] else [DOT] + DigitText(frac)
  }

  function Render(d: Decimal): Text {
    (if d.neg then [MINUS] else []) + DigitText(d.whole) + FracText(d.frac) + PowerText(d.power)
  }

  function Format(x: Number): Text {
    Render(Layout(x))
  }

  // ---------------------------------------------------------------------- reading

  function DigitRun(t: Text): (n: nat)
    ensures n <= |t|
    ensures forall i :: 0 <= i < n ==> IsDigit(t[i])
  {
    if t == [] || !IsDigit(t[0]) then 0 else 1 + DigitRun(t[1..])
  }

  function DigitOf(c: CodeUnit): (d: Digit)
    requires IsDigit(c)
  {
    var d: int := c; d - 48
  }

  function ReadDigits(t: Text): (ds: seq<Digit>)
    requires forall i :: 0 <= i < |t| ==> IsDigit(t[i])
    ensures |ds| == |t|
    ensures forall i :: 0 <= i < |t| ==> ds[i] == DigitOf(t[i])
  {
    seq(|t|, i requires 0 <= i < |t| => DigitOf(t[i]))
  }

  /** Longest digit prefix and what follows it. */
  function ScanDigits(t: Text): (r: (seq<Digit>, Text))
    ensures |r.0| + |r.1| == |t|
  {
    var n := DigitRun(t);
    (ReadDigits(t[..n]), t[n..])
  }

  function ScanFrac(t: Text): (r: (seq<Digit>, Text))
    ensures |r.1| <= |t|
  {
    if t != [] && t[0] == DOT then ScanDigits(t[1..]) else ([], t)
  }

  function ScanPower(t: Text): (r: (Option<int>, Text))
    ensures |r.1| <= |t|
  {
    if |t| > 1 && t[0] == LOWER_E then
      var (ds, rest) := ScanDigits(t[2..]);
      var m: int := NatOf(ds);
      (Some(if t[1] == MINUS then -m else m), rest)
    else (None, t)
  }

  function ScanDecimal(t: Text): (r: (Decimal, Text))
    ensures |r.1| <= |t|
  {
    var neg := t != [] && t[0] == MINUS;
    ScanUnsigned(neg, if neg then t[1..] else t)
  }

  function ScanUnsigned(neg: bool, t: Text): (r: (Decimal, Text))
    ensures |r.1| <= |t|
  {
    var (whole, t1) := ScanDigits(t);
    var (frac, t2) := ScanFrac(t1);
    var (power, t3) := ScanPower(t2);
    (Decimal(neg, whole, frac, power), t3)
  }

  function LeadingZeros(ds: seq<Digit>): (z: nat)
    ensures z <= |ds|
    ensures z < |ds| ==> ds[z] != 0
  {
    if ds == [] || ds[0] != 0 then 0 else 1 + LeadingZeros(ds[1..])
  }

  function DropTrailingZeros(ds: seq<Digit>): (r: seq<Digit>)
    ensures r <= ds
    ensures r != [] ==> r[|r| - 1] != 0
    ensures ds != [] && ds[0] != 0 ==> r != []
  {
    if ds == [] || ds[|ds| - 1] != 0 then ds else DropTrailingZeros(ds[..|ds| - 1])
  }

  /** The number 0.ds times ten to the power point. */
  function Normalise(neg: bool, ds: seq<Digit>, point: int): Number {
    var z := LeadingZeros(ds);
    if z == |ds| then Zero
    else Shortest(neg, DropTrailingZeros(ds[z..]), point - z)
  }

  function Value(d: Decimal): Number {
    Normalise(d.neg, d.whole + d.frac, Point(d))
  }

  /** Where the decimal point stands, counted from the front of the digits. */
  function Point(d: Decimal): int {
    match d.power
    case None => |d.whole|
    case Some(e) => |d.whole| + e
  }

  /** Inverse of Format on the front of a text. */
  function Scan(t: Text): (r: (Number, Text))
    ensures |r.1| <= |t|
  {
    var (d, rest) := ScanDecimal(t);
    (Value(d), rest)
  }

  // ---------------------------------------------------------------------- round trip

  /** A text that can follow a number: it starts with none of the characters of a number. */
  predicate Ends(rest: Text) {
    rest == [] || (!IsDigit(rest[0]) && rest[0] != DOT && rest[0] != LOWER_E)
  }

  lemma {:induction false} DigitRunExact(t: Text, n: nat)
    requires n <= |t|
    requires forall i :: 0 <= i < n ==> IsDigit(t[i])
    requires n < |t| ==> !IsDigit(t[n])
    ensures DigitRun(t) == n
  {
    if n > 0 {
      DigitRunExact(t[1..], n - 1);
    }
  }

  lemma ScanDigitText(ds: seq<Digit>, rest: Text)
    requires rest == [] || !IsDigit(rest[0])
    ensures ScanDigits(DigitText(ds) + rest) == (ds, rest)
  {
    var t := DigitText(ds) + rest;
    DigitRunExact(t, |ds|);
    assert t[|ds|..] == rest;
    assert ReadDigits(t[..|ds|]) == ds;
  }

  lemma ScanPowerText(power: Option<int>, rest: Text)
    requires Ends(rest)
    ensures ScanPower(PowerText(power) + rest) == (power, rest)
  {
    match power
    case None =>
      assert PowerText(power) + rest == rest;
    case Some(e) =>
      var m := if e < 0 then -e else e;
      var sign := if e < 0 then MINUS else PLUS;
      var digits := DigitText(NatDigits(m));
      Assoc([LOWER_E, sign], digits, rest);
      var t := [LOWER_E, sign] + (digits + rest);
      assert t[2..] == digits + rest;
      ScanDigitText(NatDigits(m), rest);
      NatOfNatDigits(m);
  }

  lemma ScanFracText(frac: seq<Digit>, rest: Text)
    requires rest == [] || (!IsDigit(rest[0]) && rest[0] != DOT)
    ensures ScanFrac(FracText(frac) + rest) == (frac, rest)
  {
    if frac == [] {
      assert FracText(frac) + rest == rest;
    } else {
      Assoc([DOT], DigitText(frac), rest);
      TailOfCons(DOT, DigitText(frac) + rest);
      ScanDigitText(frac, rest);
    }
  }

  /** What follows the whole part starts with no digit; what follows the fraction, with no dot either. */
  lemma PartBoundaries(d: Decimal, rest: Text)
    requires Ends(rest)
    ensures var t2 := PowerText(d.power) + rest; t2 == [] || (!IsDigit(t2[0]) && t2[0] != DOT)
    ensures var t1 := FracText(d.frac) + (PowerText(d.power) + rest); t1 == [] || !IsDigit(t1[0])
  {
    var t2 := PowerText(d.power) + rest;
    assert d.power == None ==> t2 == rest;
    assert d.frac == [] ==> FracText(d.frac) + t2 == t2;
  }

  lemma ScanSign(neg: bool, t0: Text)
    requires t0 != [] && IsDigit(t0[0])
    ensures ScanDecimal((if neg then [MINUS] else []) + t0) == ScanUnsigned(neg, t0)
  {
    var t := (if neg then [MINUS] else []) + t0;
    if neg {
      assert t[1..] == t0;
    } else {
      assert t == t0;
    }
  }

  lemma ScanRender(d: Decimal, rest: Text)
    requires d.whole != [] && Ends(rest)
    ensures ScanDecimal(Render(d) + rest) == (d, rest)
  {
    var t2 := PowerText(d.power) + rest;
    var t1 := FracText(d.frac) + t2;
    var t0 := DigitText(d.whole) + t1;
    var sign := if d.neg then [MINUS] else [];
    Assoc(sign + DigitText(d.whole) + FracText(d.frac), PowerText(d.power), rest);
    Assoc(sign + DigitText(d.whole), FracText(d.frac), t2);
    Assoc(sign, DigitText(d.whole), t1);
    ScanSign(d.neg, t0);
    PartBoundaries(d, rest);
    ScanDigitText(d.whole, t1);
    ScanFracText(d.frac, t2);
    ScanPowerText(d.power, rest);
  }

  lemma {:induction false} LeadingZerosExact(ds: seq<Digit>, z: nat)
    requires z < |ds| && ds[z] != 0
    requires forall i :: 0 <= i < z ==> ds[i] == 0
    ensures LeadingZeros(ds) == z
  {
    if z > 0 {
      LeadingZerosExact(ds[1..], z - 1);
    }
  }

  lemma {:induction false} DropTrailingExact(ds: seq<Digit>, n: nat)
    requires ds != [] && ds[|ds| - 1] != 0
    ensures DropTrailingZeros(ds + Zeros(n)) == ds
  {
    if n == 0 {
      assert ds + Zeros(n) == ds;
    } else {
      var t := ds + Zeros(n);
      assert t[..|t| - 1] == ds + Zeros(n - 1);
      DropTrailingExact(ds, n - 1);
    }
  }

  lemma NormaliseExact(neg: bool, lead: nat, digits: seq<Digit>, trail: nat, point: int)
    requires |digits| > 0 && digits[0] != 0 && digits[|digits| - 1] != 0
    ensures Normalise(neg, Zeros(lead) + digits + Zeros(trail), point) == Shortest(neg, digits, point - lead)
  {
    var ds := Zeros(lead) + digits + Zeros(trail);
    LeadingZerosExact(ds, lead);
    assert ds[lead..] == digits + Zeros(trail);
    DropTrailingExact(digits, trail);
  }

  function Lead(x: Number): nat
    requires x != Zero
  {
    if -6 < x.exponent <= 0 then 1 - x.exponent else 0
  }

  function Trail(x: Number): nat
    requires x != Zero
  {
    if |x.digits| <= x.exponent <= 21 then x.exponent - |x.digits| else 0
  }

  /** Every layout is the shortest digits padded with zeros, the decimal point in the right place. */
  lemma LayoutDigits(x: Number)
    requires x != Zero
    ensures Layout(x).whole + Layout(x).frac == Zeros(Lead(x)) + x.digits + Zeros(Trail(x))
    ensures Point(Layout(x)) == x.exponent + Lead(x)
  {
    var k, n, ds := |x.digits|, x.exponent, Layout(x).whole + Layout(x).frac;
    if k <= n <= 21 {
      assert ds == x.digits + Zeros(n - k);
    } else if 0 < n <= 21 {
      assert ds == x.digits;
    } else if -6 < n <= 0 {
      assert ds == Zeros(1 - n) + x.digits;
    } else {
      assert ds == x.digits;
    }
  }

  lemma ValueLayout(x: Number)
    ensures Value(Layout(x)) == x
  {
    if x == Zero {
      assert LeadingZeros([0][1..]) == 0;
      assert [0] + [] == [0];
    } else {
      LayoutDigits(x);
      NormaliseExact(x.neg, Lead(x), x.digits, Trail(x), Point(Layout(x)));
      assert Layout(x).neg == x.neg;
    }
  }

  /** A number is recovered from its text, whatever may legally follow it. */
  lemma ScanFormat(x: Number, rest: Text)
    requires Ends(rest)
    ensures Scan(Format(x) + rest) == (x, rest)
  {
    ScanRender(Layout(x), rest);
    ValueLayout(x);
  }

  // ---------------------------------------------------------------------- natural numbers

  /** The number of an array index or length. */
  function NatNumber(n: nat): Number {
    Normalise(false, NatDigits(n), |NatDigits(n)|)
  }

  function NatValue(x: Number): nat {
    if x == Zero || x.exponent < |x.digits| then 0
    else NatOf(x.digits + Zeros(x.exponent - |x.digits|))
  }

  lemma {:induction false} DropTrailingPads(ds: seq<Digit>)
    ensures DropTrailingZeros(ds) + Zeros(|ds| - |DropTrailingZeros(ds)|) == ds
  {
    if ds != [] && ds[|ds| - 1] == 0 {
      DropTrailingPads(ds[..|ds| - 1]);
    }
  }

  lemma NatNumberShape(n: nat)
    requires n > 0
    ensures DropTrailingZeros(NatDigits(n)) != []
    ensures NatNumber(n) == Shortest(false, DropTrailingZeros(NatDigits(n)), |NatDigits(n)|)
  {
    var ds := NatDigits(n);
    assert ds[0..] == ds;
    LeadingZerosExact(ds, 0);
  }

  lemma ZeroDigits()
    ensures NatDigits(0) == [0] && NatNumber(0) == Zero
  {
    assert LeadingZeros([0][1..]) == 0;
  }

  /** Distinct naturals are distinct numbers. */
  lemma NatNumberFaithful(n: nat)
    ensures NatValue(NatNumber(n)) == n
  {
    NatOfNatDigits(n);
    if n == 0 {
      ZeroDigits();
    } else {
      NatNumberShape(n);
      DropTrailingPads(NatDigits(n));
    }
  }
}
