/**
 * Version 7 UUIDs (RFC 9562, sections 5.7 and 6.2): 48 bits of clock, a 12-bit counter that
 * restarts with each millisecond, and random bits. Clock and random bytes are parameters.
 */
module UuidV7 {
  import opened Wrappers
  import opened Strings

  type Byte = b: int | 0 <= b < 256

  type HexDigit = d: int | 0 <= d < 16

  function HexChar(d: HexDigit): char {
    if d < 10 then '0' + d as char else 'a' + (d - 10) as char
  }

  /** toString(16).padStart(2, '0') */
  function HexByte(b: Byte): string {
    [HexChar(b / 16), HexChar(b % 16)]
  }

  function HexText(bytes: seq<Byte>): (t: string)
    ensures |t| == 2 * |bytes|
  {
    if bytes == [] then "" else HexByte(bytes[0]) + HexText(bytes[1..])
  }

  lemma {:induction false} HexTextConcat(a: seq<Byte>, b: seq<Byte>)
    ensures HexText(a + b) == HexText(a) + HexText(b)
  {
    if a == [] {
      assert a + b == b;
    } else {
      HexTextConcat(a[1..], b);
      assert (a + b)[1..] == a[1..] + b;
    }
  }

  /** Clock, version and counter. */
  function HighBytes(now: nat, counter: nat): (bytes: seq<Byte>)
    ensures |bytes| == 8
  {
    [now / 0x100_0000_0000 % 256, now / 0x1_0000_0000 % 256, now / 0x100_0000 % 256, now / 0x1_0000 % 256,
     now / 0x100 % 256, now % 256, 0x70 + counter / 256 % 16, counter % 256]
  }

  /** Variant and random bits. */
  function LowBytes(rand: seq<Byte>): (bytes: seq<Byte>)
    requires |rand| == 8
    ensures |bytes| == 8
  {
    [0x80 + rand[0] % 64, rand[1]] + rand[2..]
  }

  function IdBytes(now: nat, counter: nat, rand: seq<Byte>): (bytes: seq<Byte>)
    requires |rand| == 8
    ensures |bytes| == 16
  {
    HighBytes(now, counter) + LowBytes(rand)
  }

  /** Groups of 8, 4, 4, 4 and 12 hexadecimal digits. */
  function Dashed(hex: string): (t: string)
    requires |hex| == 32
    ensures |t| == 36
  {
    hex[0..8] + "-" + hex[8..12] + "-" + hex[12..16] + "-" + hex[16..20] + "-" + hex[20..32]
  }

  function IdText(now: nat, counter: nat, rand: seq<Byte>): (t: string)
    requires |rand| == 8
    ensures |t| == 36
  {
    Dashed(HexText(IdBytes(now, counter, rand)))
  }

  class UuidGenerator {
    var lastTimestamp: nat
    var counter: nat

    constructor ()
      ensures lastTimestamp == 0 && counter == 0
    {
      lastTimestamp := 0;
      counter := 0;
    }

    method Generate(now: nat, rand: seq<Byte>) returns (id: string)
      requires |rand| == 8
      modifies this
      ensures (lastTimestamp, counter) == Tick((old(lastTimestamp), old(counter)), now)
      ensures id == IdText(now, counter, rand)
    {
      if now == lastTimestamp {
        counter := counter + 1;
      } else {
        lastTimestamp := now;
        counter := 0;
      }
      var bytes := new Byte[16](_ => 0);
      FillHigh(bytes, now, counter);
      FillLow(bytes, rand);
      assert bytes[..] == bytes[..8] + bytes[8..];
      id := Dashed(HexText(bytes[..]));
    }
  }

  method FillHigh(bytes: array<Byte>, now: nat, counter: nat)
    requires bytes.Length == 16
    modifies bytes
    ensures bytes[..8] == HighBytes(now, counter) && bytes[8..] == old(bytes[8..])
  {
    bytes[0] := now / 0x100_0000_0000 % 256;
    bytes[1] := now / 0x1_0000_0000 % 256;
    bytes[2] := now / 0x100_0000 % 256;
    bytes[3] := now / 0x1_0000 % 256;
    bytes[4] := now / 0x100 % 256;
    bytes[5] := now % 256;
    bytes[6] := 0x70 + counter / 256 % 16;
    bytes[7] := counter % 256;
  }

  method FillLow(bytes: array<Byte>, rand: seq<Byte>)
    requires bytes.Length == 16 && |rand| == 8
    modifies bytes
    ensures bytes[..8] == old(bytes[..8]) && bytes[8..] == LowBytes(rand)
  {
    bytes[8] := 0x80 + rand[0] % 64;
    bytes[9] := rand[1];
    bytes[10] := rand[2];
    bytes[11] := rand[3];
    bytes[12] := rand[4];
    bytes[13] := rand[5];
    bytes[14] := rand[6];
    bytes[15] := rand[7];
  }

  /** The generator's state after a call at clock reading `now`. */
  function Tick(state: (nat, nat), now: nat): (nat, nat) {
    (now, if now == state.0 then state.1 + 1 else 0)
  }

  // ---------------------------------------------------------------------- the text by its numbers

  /** Fixed-width, big-endian hexadecimal. */
  function Hex(n: nat, width: nat): (t: string)
    ensures |t| == width
  {
    if width == 0 then "" else Hex(n / 16, width - 1) + [HexChar(n % 16)]
  }

  function Power16(w: nat): (p: nat)
    ensures p > 0
  {
    if w == 0 then 1 else 16 * Power16(w - 1)
  }

  lemma HexTwo(n: nat, w: nat)
    ensures Hex(n, w + 2) == Hex(n / 256, w) + HexByte(n % 256)
  {
    assert n / 16 / 16 == n / 256 && n % 16 == n % 256 % 16 && n / 16 % 16 == n % 256 / 16;
    assert Hex(n, w + 2) == Hex(n / 256, w) + [HexChar(n / 16 % 16)] + [HexChar(n % 16)];
  }

  /** Fixed-width hexadecimal texts compare as their numbers. */
  lemma {:induction false} HexOrder(m: nat, n: nat, w: nat)
    requires m < Power16(w) && n < Power16(w)
    ensures TextLess(Hex(m, w), Hex(n, w)) <==> m < n
    ensures Hex(m, w) == Hex(n, w) <==> m == n
  {
    if w > 0 {
      HexOrder(m / 16, n / 16, w - 1);
      TextOrderConcat(Hex(m / 16, w - 1), [HexChar(m % 16)], Hex(n / 16, w - 1), [HexChar(n % 16)]);
      TextOrderCons(HexChar(m % 16), HexChar(n % 16), "", "");
      assert [HexChar(m % 16)] + "" == [HexChar(m % 16)] && [HexChar(n % 16)] + "" == [HexChar(n % 16)];
      assert Hex(m, w)[..w - 1] == Hex(m / 16, w - 1) && Hex(n, w)[..w - 1] == Hex(n / 16, w - 1);
      assert Hex(m, w)[w - 1] == HexChar(m % 16) && Hex(n, w)[w - 1] == HexChar(n % 16);
    }
  }

  lemma HexFour(n: nat)
    ensures Hex(n, 4) == HexByte(n / 256 % 256) + HexByte(n % 256)
  {
    HexTwo(n, 2);
    HexTwo(n / 256, 0);
  }

  lemma HexEight(n: nat)
    ensures Hex(n, 8) == HexByte(n / 0x100_0000 % 256) + HexByte(n / 0x1_0000 % 256) + HexByte(n / 0x100 % 256) + HexByte(n % 256)
  {
    hide Hex, HexByte;
    HexTwo(n, 6);
    HexTwo(n / 0x100, 4);
    HexTwo(n / 0x100 / 0x100, 2);
    HexTwo(n / 0x100 / 0x100 / 0x100, 0);
    assert n / 0x100 / 0x100 == n / 0x1_0000 && n / 0x100 / 0x100 / 0x100 == n / 0x100_0000;
  }

  lemma FourBytes(a: Byte, b: Byte, c: Byte, d: Byte)
    ensures HexText([a, b, c, d]) == HexByte(a) + HexByte(b) + HexByte(c) + HexByte(d)
  {
    assert [a, b, c, d][1..] == [b, c, d] && [b, c, d][1..] == [c, d] && [c, d][1..] == [d] && [d][1..] == [];
    assert HexText([d]) == HexByte(d) && HexText([c, d]) == HexByte(c) + HexByte(d);
    assert HexText([b, c, d]) == HexByte(b) + (HexByte(c) + HexByte(d));
  }

  lemma DivMod(n: int, d: int, q: int, r: int)
    requires n == d * q + r && 0 <= r < d
    ensures n / d == q && n % d == r
  {
    if n / d > q {
      assert d * (n / d) >= d * (q + 1) by { Monotone(d, q + 1, n / d); }
    } else if n / d < q {
      assert d * (n / d + 1) <= d * q by { Monotone(d, n / d + 1, q); }
    }
  }

  lemma Monotone(d: int, x: int, y: int)
    requires d >= 0 && x <= y
    ensures d * x <= d * y
  {
  }

  /** The low bits of n, split in two. */
  lemma LowBits(n: nat, d: nat, e: nat)
    requires d > 0 && e > 0
    ensures var m := d * e; m > 0 && n % m / d == n / d % e && n % m % d == n % d
    ensures n / d / e == n / (d * e)
  {
    var q, t := n / d, n % d;
    var p, s := q / e, q % e;
    assert n == d * q + t && q == e * p + s;
    assert d * q == d * (e * p) + d * s;
    assert d * (e * p) == (d * e) * p;
    assert d * s <= d * (e - 1) by { Monotone(d, s, e - 1); }
    assert d * (e - 1) == d * e - d;
    DivMod(n, d * e, p, d * s + t);
    DivMod(d * s + t, d, s, t);
  }

  lemma CounterHex(counter: nat)
    ensures HexByte(0x70 + counter / 256 % 16) + HexByte(counter % 256) == "7" + Hex(counter % 4096, 3)
  {
    var c := counter % 4096;
    LowBits(counter, 256, 16);
    VersionNibble(c / 256);
    HexTwo(c, 1);
    assert Hex(c / 256, 1) == [HexChar(c / 256 % 16)];
  }

  lemma VersionNibble(k: HexDigit)
    ensures HexByte(0x70 + k) == ['7', HexChar(k)] && k % 16 == k
  {
    DivMod(0x70 + k, 16, 7, k);
  }

  /** The first sixteen digits show the clock, the version and the counter. */
  lemma HighText(now: nat, counter: nat)
    requires now < 0x1_0000_0000_0000
    ensures HexText(HighBytes(now, counter)) ==
      Hex(now / 0x1_0000, 8) + Hex(now % 0x1_0000, 4) + "7" + Hex(counter % 4096, 3)
  {
    var b := HighBytes(now, counter);
    assert b == [b[0], b[1], b[2], b[3]] + [b[4], b[5], b[6], b[7]];
    HexTextConcat([b[0], b[1], b[2], b[3]], [b[4], b[5], b[6], b[7]]);
    FourBytes(b[0], b[1], b[2], b[3]);
    FourBytes(b[4], b[5], b[6], b[7]);
    HexEight(now / 0x1_0000);
    HexFour(now % 0x1_0000);
    CounterHex(counter);
    ClockBytes(now);
    assert HexText([b[4], b[5], b[6], b[7]]) == (HexByte(b[4]) + HexByte(b[5])) + (HexByte(b[6]) + HexByte(b[7]));
  }

  lemma ClockBytes(now: nat)
    ensures now / 0x1_0000 / 0x100_0000 % 256 == now / 0x100_0000_0000 % 256
    ensures now / 0x1_0000 / 0x1_0000 % 256 == now / 0x1_0000_0000 % 256
    ensures now / 0x1_0000 / 0x100 % 256 == now / 0x100_0000 % 256
    ensures now % 0x1_0000 / 256 % 256 == now / 0x100 % 256
    ensures now % 0x1_0000 % 256 == now % 256
  {
    LowBits(now, 0x1_0000, 0x100_0000);
    LowBits(now, 0x1_0000, 0x1_0000);
    LowBits(now, 0x1_0000, 0x100);
    LowBits(now, 0x100, 0x100);
  }

  /** What follows the counter. */
  function Tail(rand: seq<Byte>): (t: string)
    requires |rand| == 8
    ensures |t| == 18
  {
    var hex := HexText(LowBytes(rand));
    "-" + hex[..4] + "-" + hex[4..]
  }

  lemma DashedGroups(clock: string, low: string, count: string, tail: string)
    requires |clock| == 8 && |low| == 4 && |count| == 3 && |tail| == 16
    ensures Dashed(clock + low + "7" + count + tail) ==
      clock + ("-" + (low + ("-7" + (count + ("-" + tail[..4] + "-" + tail[4..])))))
  {
    var hex := clock + low + "7" + count + tail;
    assert hex[0..8] == clock;
    assert hex[8..12] == low;
    assert hex[12..16] == "7" + count;
    assert hex[16..20] == tail[..4];
    assert hex[20..32] == tail[4..];
  }

  /** The id, group by group, by the numbers it shows. */
  lemma IdGroups(now: nat, counter: nat, rand: seq<Byte>)
    requires now < 0x1_0000_0000_0000 && |rand| == 8
    ensures IdText(now, counter, rand) ==
      Hex(now / 0x1_0000, 8) + ("-" + (Hex(now % 0x1_0000, 4) + ("-7" + (Hex(counter % 4096, 3) + Tail(rand)))))
  {
    HighText(now, counter);
    HexTextConcat(HighBytes(now, counter), LowBytes(rand));
    DashedGroups(Hex(now / 0x1_0000, 8), Hex(now % 0x1_0000, 4), Hex(counter % 4096, 3), HexText(LowBytes(rand)));
  }

  // ---------------------------------------------------------------------- order

  /** Ids compare by clock, then by the counter's twelve bits, then by what follows. */
  lemma IdOrder(now: nat, counter: nat, rand: seq<Byte>, now': nat, counter': nat, rand': seq<Byte>)
    requires now < 0x1_0000_0000_0000 && now' < 0x1_0000_0000_0000 && |rand| == |rand'| == 8
    ensures TextLess(IdText(now, counter, rand), IdText(now', counter', rand')) <==>
      now < now' || (now == now' && (counter % 4096 < counter' % 4096
                                     || (counter % 4096 == counter' % 4096 && TextLess(Tail(rand), Tail(rand')))))
  {
    IdGroups(now, counter, rand);
    IdGroups(now', counter', rand');
    var (a, b, c, t) := (Hex(now / 0x1_0000, 8), Hex(now % 0x1_0000, 4), Hex(counter % 4096, 3), Tail(rand));
    var (a', b', c', t') := (Hex(now' / 0x1_0000, 8), Hex(now' % 0x1_0000, 4), Hex(counter' % 4096, 3), Tail(rand'));
    TextOrderConcat(a, "-" + (b + ("-7" + (c + t))), a', "-" + (b' + ("-7" + (c' + t'))));
    TextOrderConcat("-", b + ("-7" + (c + t)), "-", b' + ("-7" + (c' + t')));
    TextOrderConcat(b, "-7" + (c + t), b', "-7" + (c' + t'));
    TextOrderConcat("-7", c + t, "-7", c' + t');
    TextOrderConcat(c, t, c', t');
    TextIrreflexive("-");
    TextIrreflexive("-7");
    Powers();
    HexOrder(now / 0x1_0000, now' / 0x1_0000, 8);
    HexOrder(now % 0x1_0000, now' % 0x1_0000, 4);
    HexOrder(counter % 4096, counter' % 4096, 3);
  }

  lemma Powers()
    ensures Power16(3) == 4096 && Power16(4) == 0x1_0000 && Power16(8) == 0x1_0000_0000
  {
    assert Power16(4) == 16 * Power16(3);
    assert Power16(5) == 16 * Power16(4);
    assert Power16(6) == 16 * Power16(5);
    assert Power16(7) == 16 * Power16(6);
  }

  lemma {:induction false} TextIrreflexive(s: string)
    ensures !TextLess(s, s)
  {
    if s != "" { TextIrreflexive(s[1..]); }
  }

  lemma NextCounter(c: nat)
    ensures c % 4096 < (c + 1) % 4096 <==> (c + 1) % 4096 != 0
    ensures c % 4096 != (c + 1) % 4096
  {
  }

  /** Successive ids increase exactly when the clock advances, or stands still and the 12-bit counter does not wrap. */
  lemma NextIdIncreases(state: (nat, nat), now: nat, rand: seq<Byte>, rand': seq<Byte>)
    requires state.0 < 0x1_0000_0000_0000 && now < 0x1_0000_0000_0000 && |rand| == |rand'| == 8
    ensures TextLess(IdText(state.0, state.1, rand), IdText(now, Tick(state, now).1, rand')) <==>
      state.0 < now || (state.0 == now && (state.1 + 1) % 4096 != 0)
  {
    IdOrder(state.0, state.1, rand, now, Tick(state, now).1, rand');
    NextCounter(state.1);
  }

  // ---------------------------------------------------------------------- runs

  /** The generator's states after each call of a run from its initial state. */
  function Ticks(clocks: seq<nat>): (states: seq<(nat, nat)>)
    ensures |states| == |clocks|
  {
    if clocks == [] then []
    else
      var before := Ticks(clocks[..|clocks| - 1]);
      before + [Tick(if before == [] then (0, 0) else before[|before| - 1], clocks[|clocks| - 1])]
  }

  predicate NonDecreasing(clocks: seq<nat>) {
    forall i, j :: 0 <= i < j < |clocks| ==> clocks[i] <= clocks[j]
  }

  /** At most 4096 readings of any one millisecond. */
  predicate AtMost4096PerMillisecond(clocks: seq<nat>) {
    forall i, j :: 0 <= i && i + 4096 <= j < |clocks| ==> clocks[i] != clocks[j]
  }

  lemma {:induction false} TicksPrefix(clocks: seq<nat>, n: nat)
    requires n <= |clocks|
    ensures Ticks(clocks[..n]) == Ticks(clocks)[..n]
  {
    if n < |clocks| {
      TicksPrefix(clocks[..|clocks| - 1], n);
      assert clocks[..|clocks| - 1][..n] == clocks[..n];
    } else {
      assert clocks[..n] == clocks;
    }
  }

  lemma TickAt(clocks: seq<nat>, i: nat)
    requires i < |clocks|
    ensures Ticks(clocks)[i] == Tick(if i == 0 then (0, 0) else Ticks(clocks)[i - 1], clocks[i])
  {
    TicksPrefix(clocks, i + 1);
    TicksPrefix(clocks, i);
    var upto := clocks[..i + 1];
    assert upto[..|upto| - 1] == clocks[..i];
    assert Ticks(upto)[i] == Ticks(clocks)[i];
  }

  /** The counter counts the readings of the same millisecond before this one. */
  lemma {:induction false} CounterCounts(clocks: seq<nat>, i: nat)
    requires NonDecreasing(clocks) && i < |clocks| && clocks[0] > 0
    ensures Ticks(clocks)[i].0 == clocks[i] && Ticks(clocks)[i].1 <= i
    ensures clocks[i - Ticks(clocks)[i].1] == clocks[i]
    ensures forall j :: 0 <= j < i - Ticks(clocks)[i].1 ==> clocks[j] < clocks[i]
  {
    TickAt(clocks, i);
    if i > 0 {
      CounterCounts(clocks, i - 1);
    }
  }

  lemma LaterId(now: nat, counter: nat, rand: seq<Byte>, now': nat, counter': nat, rand': seq<Byte>)
    requires now <= now' < 0x1_0000_0000_0000 && |rand| == |rand'| == 8
    requires counter < 4096 && counter' < 4096 && (now == now' ==> counter < counter')
    ensures TextLess(IdText(now, counter, rand), IdText(now', counter', rand'))
  {
    SmallCounter(counter);
    SmallCounter(counter');
    IdOrder(now, counter, rand, now', counter', rand');
  }

  lemma SmallCounter(c: nat)
    requires c < 4096
    ensures c % 4096 == c
  {
  }

  /** At most 4096 readings per millisecond keep the counter within its twelve bits, rising within a millisecond. */
  lemma CountersOrdered(clocks: seq<nat>, i: nat, j: nat)
    requires NonDecreasing(clocks) && AtMost4096PerMillisecond(clocks) && i < j < |clocks| && clocks[0] > 0
    ensures Ticks(clocks)[i].1 < 4096 && Ticks(clocks)[j].1 < 4096
    ensures clocks[i] == clocks[j] ==> Ticks(clocks)[i].1 < Ticks(clocks)[j].1
  {
    CounterCounts(clocks, i);
    CounterCounts(clocks, j);
  }

  /**
   * Over any run of a positive, non-decreasing clock below 2^48 with at most 4096 ids per
   * millisecond, the ids increase strictly in the order of their texts.
   */
  lemma IdsIncrease(clocks: seq<nat>, rands: seq<seq<Byte>>, i: nat, j: nat)
    requires |rands| == |clocks| && i < j < |clocks|
    requires forall k :: 0 <= k < |rands| ==> |rands[k]| == 8
    requires NonDecreasing(clocks) && clocks[0] > 0 && clocks[|clocks| - 1] < 0x1_0000_0000_0000
    requires AtMost4096PerMillisecond(clocks)
    ensures TextLess(IdText(clocks[i], Ticks(clocks)[i].1, rands[i]), IdText(clocks[j], Ticks(clocks)[j].1, rands[j]))
  {
    CountersOrdered(clocks, i, j);
    LaterId(clocks[i], Ticks(clocks)[i].1, rands[i], clocks[j], Ticks(clocks)[j].1, rands[j]);
  }

  // ---------------------------------------------------------------------- reading ids

  function DigitValue(c: char): Option<nat> {
    if '0' <= c <= '9' then Some((c - '0') as nat)
    else if 'a' <= c <= 'f' then Some((c - 'a') as nat + 10)
    else if 'A' <= c <= 'F' then Some((c - 'A') as nat + 10)
    else None
  }

  predicate HexLike(s: string) {
    forall i :: 0 <= i < |s| ==> DigitValue(s[i]).Some?
  }

  /** Eight, four, four, four and twelve hexadecimal digits of either case, version 7 and variant 8 to b. */
  predicate IsUuidV7(s: string) {
    && |s| == 36
    && s[8] == s[13] == s[18] == s[23] == '-'
    && HexLike(s[..8]) && HexLike(s[9..13]) && s[14] == '7' && HexLike(s[15..18])
    && s[19] in "89abAB" && HexLike(s[20..23]) && HexLike(s[24..])
  }

  function RemoveDashes(s: string): string {
    if s == "" then "" else (if s[0] == '-' then "" else [s[0]]) + RemoveDashes(s[1..])
  }

  function HexPrefix(s: string): string {
    if s == "" || DigitValue(s[0]).None? then "" else [s[0]] + HexPrefix(s[1..])
  }

  function HexNumber(s: string): nat {
    if s == "" then 0
    else 16 * HexNumber(s[..|s| - 1]) + (match DigitValue(s[|s| - 1]) case Some(d) => d case None => 0)
  }

  function SkipSpaces(s: string): string {
    if s != "" && IsSpace(s[0]) then SkipSpaces(s[1..]) else s
  }

  function ParseUnsigned(t: string): Option<int> {
    var digits := HexPrefix(if |t| > 1 && t[0] == '0' && (t[1] == 'x' || t[1] == 'X') then t[2..] else t);
    if digits == "" then None else Some(HexNumber(digits))
  }

  function ParseSigned(s: string): Option<int> {
    match ParseUnsigned(if s != "" && (s[0] == '-' || s[0] == '+') then s[1..] else s)
    case None => None
    case Some(n) => Some(if s != "" && s[0] == '-' then -n else n)
  }

  /** parseInt with radix 16: white space, a sign and 0x may come first; None is NaN. */
  function ParseHex(text: string): Option<int> {
    ParseSigned(SkipSpaces(text))
  }

  function ExtractTimestamp(uuid: string): Option<int> {
    var hex := RemoveDashes(uuid);
    ParseHex(if |hex| < 12 then hex else hex[..12])
  }

  lemma HexCharValue(d: HexDigit)
    ensures DigitValue(HexChar(d)) == Some(d) && HexChar(d) != '-'
  {
  }

  lemma {:induction false} HexIsHex(n: nat, w: nat)
    ensures HexLike(Hex(n, w)) && '-' !in Hex(n, w)
  {
    if w > 0 {
      HexIsHex(n / 16, w - 1);
      HexCharValue(n % 16);
    }
  }

  lemma {:induction false} HexShows(n: nat, w: nat)
    requires n < Power16(w)
    ensures HexNumber(Hex(n, w)) == n
  {
    if w > 0 {
      HexShows(n / 16, w - 1);
      HexCharValue(n % 16);
      var t := Hex(n, w);
      assert t[..w - 1] == Hex(n / 16, w - 1);
    }
  }

  lemma Shift(x: nat, p: nat, y: nat)
    ensures 16 * (x * p + y) == x * (16 * p) + 16 * y
  {
  }

  lemma {:induction false} HexNumberConcat(a: string, b: string)
    ensures HexNumber(a + b) == HexNumber(a) * Power16(|b|) + HexNumber(b)
  {
    if b == "" {
      assert a + b == a;
    } else {
      var b', last := b[..|b| - 1], b[|b| - 1];
      HexNumberConcat(a, b');
      assert (a + b)[..|a + b| - 1] == a + b' && (a + b)[|a + b| - 1] == last;
      Shift(HexNumber(a), Power16(|b'|), HexNumber(b'));
    }
  }

  lemma {:induction false} NoDashes(s: string, rest: string)
    requires '-' !in s
    ensures RemoveDashes(s + rest) == s + RemoveDashes(rest)
  {
    if s == "" {
      assert s + rest == rest;
    } else {
      NoDashes(s[1..], rest);
      assert (s + rest)[1..] == s[1..] + rest;
      assert s == [s[0]] + s[1..];
    }
  }

  lemma {:induction false} AllPrefix(s: string)
    requires HexLike(s)
    ensures HexPrefix(s) == s
  {
    if s != "" {
      AllPrefix(s[1..]);
      assert s == [s[0]] + s[1..];
    }
  }

  lemma ParseDigits(s: string)
    requires s != "" && HexLike(s)
    ensures ParseHex(s) == Some(HexNumber(s))
  {
    assert DigitValue(s[0]).Some?;
    assert |s| > 1 ==> DigitValue(s[1]).Some?;
    AllPrefix(s);
  }

  lemma DashesRemoved(hi: string, lo: string, rest: string)
    requires '-' !in hi && '-' !in lo
    ensures RemoveDashes(hi + ("-" + (lo + rest))) == hi + lo + RemoveDashes(rest)
  {
    NoDashes(hi, "-" + (lo + rest));
    assert ("-" + (lo + rest))[1..] == lo + rest;
    NoDashes(lo, rest);
  }

  lemma FirstTwelve(hi: string, lo: string, rest: string)
    requires |hi| == 8 && |lo| == 4 && HexLike(hi) && HexLike(lo) && '-' !in hi && '-' !in lo
    ensures ExtractTimestamp(hi + ("-" + (lo + rest))) == Some(HexNumber(hi) * Power16(4) + HexNumber(lo))
  {
    DashesRemoved(hi, lo, rest);
    HexNumberConcat(hi, lo);
    ParseDigits(hi + lo);
    assert (hi + lo + RemoveDashes(rest))[..12] == hi + lo;
  }

  /** The first two groups show the clock reading. */
  lemma ClockGroups(now: nat)
    requires now < 0x1_0000_0000_0000
    ensures HexLike(Hex(now / 0x1_0000, 8)) && '-' !in Hex(now / 0x1_0000, 8)
    ensures HexLike(Hex(now % 0x1_0000, 4)) && '-' !in Hex(now % 0x1_0000, 4)
    ensures HexNumber(Hex(now / 0x1_0000, 8)) * Power16(4) + HexNumber(Hex(now % 0x1_0000, 4)) == now
  {
    Powers();
    HexIsHex(now / 0x1_0000, 8);
    HexShows(now / 0x1_0000, 8);
    HexIsHex(now % 0x1_0000, 4);
    HexShows(now % 0x1_0000, 4);
  }

  /** The clock reading comes back out of the id. */
  lemma TimestampRoundTrip(now: nat, counter: nat, rand: seq<Byte>)
    requires now < 0x1_0000_0000_0000 && |rand| == 8
    ensures ExtractTimestamp(IdText(now, counter, rand)) == Some(now)
  {
    IdGroups(now, counter, rand);
    ClockGroups(now);
    FirstTwelve(Hex(now / 0x1_0000, 8), Hex(now % 0x1_0000, 4), "-7" + (Hex(counter % 4096, 3) + Tail(rand)));
  }

  lemma {:induction false} HexTextLike(bytes: seq<Byte>)
    ensures HexLike(HexText(bytes))
  {
    if bytes != [] {
      HexTextLike(bytes[1..]);
    }
  }

  /** The variant digit of a generated id is 8, 9, a or b. */
  lemma VariantDigit(rand: seq<Byte>)
    requires |rand| == 8
    ensures HexText(LowBytes(rand))[0] in "89ab"
  {
    var b := LowBytes(rand);
    assert HexText(b)[0] == HexByte(b[0])[0] == HexChar(b[0] / 16);
    assert 8 <= b[0] / 16 < 12;
    assert "89ab"[b[0] / 16 - 8] == HexChar(b[0] / 16);
  }

  lemma GroupsAccepted(a: string, b: string, c: string, low: string)
    requires |a| == 8 && |b| == 4 && |c| == 3 && |low| == 16
    requires HexLike(a) && HexLike(b) && HexLike(c) && HexLike(low) && low[0] in "89ab"
    ensures IsUuidV7(a + ("-" + (b + ("-7" + (c + ("-" + low[..4] + "-" + low[4..]))))))
  {
    var id := a + ("-" + (b + ("-7" + (c + ("-" + low[..4] + "-" + low[4..])))));
    assert id[..8] == a && id[9..13] == b && id[15..18] == c;
    assert id[8] == '-' && id[13] == '-' && id[14] == '7' && id[18] == '-' && id[23] == '-';
    assert id[19] == low[0] && id[20..23] == low[1..4] && id[24..] == low[4..];
  }

  /** Every generated id is accepted. */
  lemma GeneratedAccepted(now: nat, counter: nat, rand: seq<Byte>)
    requires now < 0x1_0000_0000_0000 && |rand| == 8
    ensures IsUuidV7(IdText(now, counter, rand))
  {
    IdGroups(now, counter, rand);
    HexIsHex(now / 0x1_0000, 8);
    HexIsHex(now % 0x1_0000, 4);
    HexIsHex(counter % 4096, 3);
    HexTextLike(LowBytes(rand));
    VariantDigit(rand);
    GroupsAccepted(Hex(now / 0x1_0000, 8), Hex(now % 0x1_0000, 4), Hex(counter % 4096, 3), HexText(LowBytes(rand)));
  }

  // ---------------------------------------------------------------------- forms

  predicate HexDigits(s: string) {
    forall i :: 0 <= i < |s| ==> s[i] in "0123456789abcdefABCDEF"
  }

  lemma HexDigitsExactly(s: string)
    ensures HexLike(s) <==> HexDigits(s)
  {
    forall c: char ensures DigitValue(c).Some? <==> c in "0123456789abcdefABCDEF" {
      if '0' <= c <= '9' { assert c == "0123456789"[c as int - '0' as int]; }
      if 'a' <= c <= 'f' { assert c == "abcdef"[c as int - 'a' as int]; }
      if 'A' <= c <= 'F' { assert c == "ABCDEF"[c as int - 'A' as int]; }
    }
  }

  /** The five groups of an accepted text, without the version digit. */
  ghost predicate Grouped(s: string, a: string, b: string, c: string, d: string, e: string) {
    && s == a + "-" + b + "-7" + c + "-" + d + "-" + e
    && |a| == 8 && |b| == 4 && |c| == 3 && |d| == 4 && |e| == 12 && d[0] in "89abAB"
    && HexDigits(a) && HexDigits(b) && HexDigits(c) && HexDigits(d[1..]) && HexDigits(e)
  }

  /** Exactly the texts of that form are accepted. */
  lemma AcceptedExactly(s: string)
    ensures IsUuidV7(s) <==> exists a, b, c, d, e :: Grouped(s, a, b, c, d, e)
  {
    if |s| == 36 {
      var a, b, c, d, e := s[..8], s[9..13], s[15..18], s[19..23], s[24..];
      HexDigitsExactly(a);
      HexDigitsExactly(b);
      HexDigitsExactly(c);
      HexDigitsExactly(d[1..]);
      HexDigitsExactly(e);
      if IsUuidV7(s) {
        assert s == a + "-" + b + "-7" + c + "-" + d + "-" + e;
        assert d[1..] == s[20..23];
        assert Grouped(s, a, b, c, d, e);
      }
    }
    if a, b, c, d, e :| Grouped(s, a, b, c, d, e) {
      GroupedAccepted(s, a, b, c, d, e);
    }
  }

  lemma GroupedAccepted(s: string, a: string, b: string, c: string, d: string, e: string)
    requires Grouped(s, a, b, c, d, e)
    ensures IsUuidV7(s)
  {
    hide HexDigits, HexLike;
    HexDigitsExactly(a);
    HexDigitsExactly(b);
    HexDigitsExactly(c);
    HexDigitsExactly(d[1..]);
    HexDigitsExactly(e);
    assert s[..8] == a && s[9..13] == b && s[15..18] == c && s[20..23] == d[1..] && s[24..] == e;
    assert s[8] == '-' && s[13] == '-' && s[14] == '7' && s[18] == '-' && s[19] == d[0] && s[23] == '-';
  }

  /** The digits of an id after the counter. */
  function RandomDigits(id: string): string
    requires |id| == 36
  {
    id[19..23] + id[24..36]
  }

  lemma ByteShown(b: Byte)
    ensures HexNumber(HexByte(b)) == b
  {
    var t := HexByte(b);
    HexCharValue(b / 16);
    HexCharValue(b % 16);
    assert t[..1] == [HexChar(b / 16)] && t[..1][..0] == "";
    assert HexNumber(t[..1]) == 16 * HexNumber("") + b / 16;
  }

  lemma {:induction false} ByteDigits(bytes: seq<Byte>, i: nat)
    requires i < |bytes|
    ensures HexText(bytes)[2 * i..2 * i + 2] == HexByte(bytes[i])
  {
    if i > 0 {
      ByteDigits(bytes[1..], i - 1);
      assert HexText(bytes)[2 * i..2 * i + 2] == HexText(bytes[1..])[2 * (i - 1)..2 * (i - 1) + 2];
    }
  }

  /** All random bits of the id: 62 of the 64 given, two being the variant's. */
  lemma RandomShown(now: nat, counter: nat, rand: seq<Byte>, i: nat)
    requires now < 0x1_0000_0000_0000 && |rand| == 8 && i < 8
    ensures HexNumber(RandomDigits(IdText(now, counter, rand))[2 * i..2 * i + 2]) == if i == 0 then 128 + rand[0] % 64 else rand[i]
  {
    hide *;
    DigitsAfterCounter(now, counter, rand);
    ByteDigits(LowBytes(rand), i);
    ByteShown(LowBytes(rand)[i]);
    LowByte(rand, i);
  }

  lemma LowByte(rand: seq<Byte>, i: nat)
    requires |rand| == 8 && i < 8
    ensures LowBytes(rand)[i] == if i == 0 then 128 + rand[0] % 64 else rand[i]
  {
  }

  lemma DigitsAfterCounter(now: nat, counter: nat, rand: seq<Byte>)
    requires now < 0x1_0000_0000_0000 && |rand| == 8
    ensures RandomDigits(IdText(now, counter, rand)) == HexText(LowBytes(rand))
  {
    IdGroups(now, counter, rand);
    hide IdText, LowBytes, HexText, Hex, RandomDigits;
    LowDigits(Hex(now / 0x1_0000, 8), Hex(now % 0x1_0000, 4), Hex(counter % 4096, 3), HexText(LowBytes(rand)));
  }

  lemma LowDigits(a: string, b: string, c: string, low: string)
    requires |a| == 8 && |b| == 4 && |c| == 3 && |low| == 16
    ensures RandomDigits(a + ("-" + (b + ("-7" + (c + ("-" + low[..4] + "-" + low[4..])))))) == low
  {
    var id := a + ("-" + (b + ("-7" + (c + ("-" + low[..4] + "-" + low[4..])))));
    assert id[19..23] == low[..4] && id[24..36] == low[4..];
  }

  /** A digit run ends where the digits do. */
  predicate EndsDigits(rest: string) {
    rest != "" ==> rest[0] !in "0123456789abcdefABCDEF"
  }

  predicate IsSign(s: string) {
    |s| <= 1 && (|s| == 1 ==> s[0] == '+' || s[0] == '-')
  }

  predicate Minus(s: string) {
    |s| == 1 && s[0] == '-'
  }

  predicate IsHexPrefix(s: string) {
    |s| == 2 && s[0] == '0' && (s[1] == 'x' || s[1] == 'X')
  }

  lemma UnsignedRead(prefix: string, digits: string, rest: string)
    requires IsHexPrefix(prefix) && HexDigits(digits) && EndsDigits(rest)
    ensures ParseUnsigned(prefix + (digits + rest)) == if digits == "" then None else Some(HexNumber(digits))
  {
    assert (prefix + (digits + rest))[2..] == digits + rest;
    PrefixEnds(digits, rest);
  }

  lemma SignedRead(sign: string, text: string)
    requires text != "" && text[0] == '0' && IsSign(sign)
    ensures !IsSpace((sign + text)[0])
    ensures ParseSigned(sign + text) == Signed(sign, ParseUnsigned(text))
  {
    hide ParseUnsigned;
    if sign == "" {
      assert sign + text == text;
    } else {
      assert (sign + text)[1..] == text;
    }
  }

  lemma ReadAfterSpaces(spaces: string, text: string)
    requires Blank(spaces) && text != "" && !IsSpace(text[0])
    ensures ParseHex(spaces + text) == ParseSigned(text)
  {
    SpacesSkipped(spaces, text);
  }

  function Signed(sign: string, n: Option<int>): Option<int> {
    match n case None => None case Some(m) => Some(if Minus(sign) then -m else m)
  }

  /** How parseInt reads: white space, a sign, 0x in either case, digits, and whatever follows them. */
  lemma HexRead(spaces: string, sign: string, prefix: string, digits: string, rest: string, number: string)
    requires Blank(spaces) && IsSign(sign) && IsHexPrefix(prefix) && HexDigits(digits) && EndsDigits(rest)
    requires number == prefix + (digits + rest)
    ensures ParseHex(spaces + (sign + number)) == Signed(sign, if digits == "" then None else Some(HexNumber(digits)))
  {
    hide ParseHex, ParseSigned, ParseUnsigned, HexNumber, Blank, IsSpace, EndsDigits, HexDigits;
    UnsignedRead(prefix, digits, rest);
    SignedRead(sign, number);
    ReadAfterSpaces(spaces, sign + number);
  }

  lemma {:induction false} SpacesSkipped(spaces: string, text: string)
    requires Blank(spaces) && text != "" && !IsSpace(text[0])
    ensures SkipSpaces(spaces + text) == text
  {
    if spaces == "" {
      assert spaces + text == text;
    } else {
      SpacesSkipped(spaces[1..], text);
      assert (spaces + text)[1..] == spaces[1..] + text;
    }
  }

  lemma {:induction false} PrefixEnds(digits: string, rest: string)
    requires HexDigits(digits) && EndsDigits(rest)
    ensures HexPrefix(digits + rest) == digits
  {
    if digits == "" {
      assert digits + rest == rest;
      if rest != "" {
        HexDigitsExactly(rest[..1]);
        assert rest[..1][0] == rest[0] && !HexDigits(rest[..1]);
      }
    } else {
      PrefixEnds(digits[1..], rest);
      assert (digits + rest)[1..] == digits[1..] + rest && digits == [digits[0]] + digits[1..];
      HexDigitsExactly([digits[0]]);
    }
  }
}
