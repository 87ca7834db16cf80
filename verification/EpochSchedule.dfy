/**
 Epoch arithmetic: the TypeScript class, with JavaScript's 32-bit shifts, and the Python script's
 version on unbounded integers.

 JavaScript numbers are taken as exact, which they are below 2^53.
 */
module EpochSchedule {
  import opened PowersOfTwo

  const MINIMUM_SLOTS_PER_EPOCH: nat := 32

  // ----- nextPowerOfTwo (TypeScript)

  /** JavaScript's conversion to a signed 32-bit integer. */
  function ToInt32(n: nat): (r: int)
    ensures -0x8000_0000 <= r < 0x8000_0000
  {
    var w := n % TWO_32;
    if w < TWO_31 then w else w - TWO_32
  }

  /** The shifts are divisions rounding down; `n >> 32` shifts by 32 modulo 32, that is, not at all. */
  function NextPowerOfTwo(n: nat): int {
    if n == 0 then 1
    else
      var w := ToInt32(n - 1);
      var a := Or(w, w / 2);
      var b := Or(a, a / 4);
      var c := Or(b, b / 16);
      var d := Or(c, c / 256);
      var e := Or(d, d / 65536);
      var f := Or(e, e);
      f + 1
  }

  /** `x` has `len` bits and the top `t` of them are set. */
  ghost predicate TopBits(x: int, len: nat, t: nat) {
    0 <= x < Pow2(len) && (if t <= len then Pow2(len) - Pow2(len - t) <= x else x == Pow2(len) - 1)
  }

  /** A number whose high block is all ones, and the copy of it shifted past that block. */
  lemma BlockShift(x: nat, y: int, p: nat, q: nat, s: nat, total: nat)
    requires Quotient(x, p, y) && total == p * q && q <= p * s && total - q <= x < total
    ensures (p - 1) * q == total - q
    ensures q - s <= y < q
  {
    QuotientIff(x, p, y, q - s);
    QuotientIff(x, p, y, q);
  }

  /** Or-ing with a copy shifted by `t` doubles the run of set bits at the top. */
  lemma FillDoubles(x: int, y: int, p: nat, len: nat, t: nat)
    requires t > 0 && TopBits(x, len, t) && p == Pow2(t) && Quotient(x, p, y)
    ensures TopBits(Or(x, y), len, 2 * t)
  {
    if t >= len {
      ShiftedAway(x, y, p, len, t);
      OrZero(x);
    } else {
      ShiftedRange(x, y, p, len, t);
      FillLong(x, y, p - 1, len, t);
    }
  }

  lemma ShiftedAway(x: nat, y: int, p: nat, len: nat, t: nat)
    requires len <= t && x < Pow2(len) && p == Pow2(t) && Quotient(x, p, y)
    ensures y == 0
  {
    Pow2Monotone(len, t);
    QuotientIff(x, p, y, 0);
    QuotientIff(x, p, y, 1);
  }

  lemma FillLong(x: nat, y: int, h: nat, len: nat, t: nat)
    requires 0 < t < len && TopBits(x, len, t) && h * Pow2(len - t) == Pow2(len) - Pow2(len - t)
    requires Pow2(len - t) - (if 2 * t <= len then Pow2(len - 2 * t) else 1) <= y < Pow2(len - t)
    ensures TopBits(Or(x, y), len, 2 * t)
  {
    if 2 * t <= len { Pow2Monotone(len - 2 * t, len - t); }
    FillBlock(x, y, h, Pow2(len - t), len - t);
  }

  lemma ShiftedRange(x: nat, y: int, p: nat, len: nat, t: nat)
    requires 0 < t < len && TopBits(x, len, t) && p == Pow2(t) && Quotient(x, p, y)
    ensures var q := Pow2(len - t);
      && (p - 1) * q == Pow2(len) - q
      && q - (if 2 * t <= len then Pow2(len - 2 * t) else 1) <= y < q
  {
    var q, total := Pow2(len - t), Pow2(len);
    var s := if 2 * t <= len then Pow2(len - 2 * t) else 1;
    assert total == p * q by { Pow2Sum(t, len - t); }
    assert q <= p * s by {
      if 2 * t <= len { Pow2Sum(t, len - 2 * t); } else { Pow2Monotone(len - t, t); }
    }
    BlockShift(x, y, p, q, s, total);
  }

  lemma FillBlock(x: nat, y: nat, h: nat, q: nat, m: nat)
    requires q == Pow2(m) && h * q <= x < h * q + q && y < q
    ensures h * q + y <= Or(x, y) < h * q + q
  {
    var r := x - h * q;
    OrHigh(h, r, y, m);
    OrFits(r, y, m);
    OrBounds(r, y);
  }

  lemma LengthTop(x: nat)
    ensures TopBits(x, Length(x), 1)
    ensures x < 0x8000_0000 ==> Length(x) <= 31
  {
    var len := Length(x);
    if len > 0 {
      assert Pow2(len) == 2 * Pow2(len - 1);
      Pow2Order(len - 1, 31);
      Pow2Table();
    }
  }

  /** The bits of a non-negative number below its leading one are all filled in. */
  lemma FillsAll(x: nat, a: int, b: int, c: int, d: int, e: int)
    requires x < 0x8000_0000
    requires a == Or(x, x / 2) && b == Or(a, a / 4) && c == Or(b, b / 16) && d == Or(c, c / 256) && e == Or(d, d / 65536)
    ensures e == Pow2(Length(x)) - 1
  {
    var len := Length(x);
    LengthTop(x);
    Pow2Table();
    FillDoubles(x, x / 2, 2, len, 1);
    FillDoubles(a, a / 4, 4, len, 2);
    FillDoubles(b, b / 16, 16, len, 4);
    FillDoubles(c, c / 256, 256, len, 8);
    FillDoubles(d, d / 65536, 65536, len, 16);
  }

  /** A negative 32-bit number is filled up to -1. */
  lemma FillsNegative(x: int, a: int, b: int, c: int, d: int, e: int)
    requires -0x8000_0000 <= x < 0
    requires a == Or(x, x / 2) && b == Or(a, a / 4) && c == Or(b, b / 16) && d == Or(c, c / 256) && e == Or(d, d / 65536)
    ensures e == -1
  {
    OrBounds(x, x / 2);
    OrBounds(a, a / 4);
    OrBounds(b, b / 16);
    OrBounds(c, c / 256);
    OrBounds(d, d / 65536);
  }

  /** What the 32-bit computation gives for every argument. */
  lemma NextPowerOfTwoValue(n: nat)
    requires n > 0
    ensures var w := ToInt32(n - 1);
      if w < 0 then NextPowerOfTwo(n) == 0
      else LeastPower(w + 1, NextPowerOfTwo(n), Length(w)) && Length(w) <= 31
  {
    var w := ToInt32(n - 1);
    var a := Or(w, w / 2);
    var b := Or(a, a / 4);
    var c := Or(b, b / 16);
    var d := Or(c, c / 256);
    var e := Or(d, d / 65536);
    OrSame(e);
    if w < 0 {
      FillsNegative(w, a, b, c, d, e);
    } else {
      FillsAll(w, a, b, c, d, e);
      LengthTop(w);
    }
  }

  lemma NextPowerOfTwoInRange(n: nat)
    requires 0 < n <= TWO_31
    ensures NextPowerOfTwo(n) == Pow2(Length(n - 1))
  {
    assert ToInt32(n - 1) == n - 1;
    NextPowerOfTwoValue(n);
  }

  /** `nextPowerOfTwo(n)` is the least power of two >= n exactly when n <= 2^31. */
  lemma NextPowerOfTwoCorrectIff(n: nat)
    ensures IsLeastPower(n, NextPowerOfTwo(n)) <==> n <= TWO_31
  {
    if n == 0 {
      assert LeastPower(0, 1, 0);
    } else {
      NextPowerOfTwoValue(n);
      RightPowerIff(n, ToInt32(n - 1), NextPowerOfTwo(n));
    }
  }

  /** The power for the 32-bit value of n - 1 is the power for n exactly when n - 1 is that value. */
  lemma RightPowerIff(n: nat, w: int, p: int)
    requires n > 0 && (n <= TWO_31 ==> w == n - 1)
    requires if w < 0 then p == 0 else LeastPower(w + 1, p, Length(w)) && Length(w) <= 31
    ensures IsLeastPower(n, p) <==> n <= TWO_31
  {
    if n <= TWO_31 {
      assert w == n - 1;
    } else if w >= 0 {
      Pow2Table();
      Pow2Monotone(Length(w), 31);
    }
  }

  // ----- trailingZeros (TypeScript)

  /** The loop halves a JavaScript number until it is at most 1, so on any positive argument it
      finds the exponent of the least power of two that is not below it. */
  method TrailingZeros(n: nat) returns (t: nat)
    ensures t == CeilLog2(n)
  {
    var x: real := n as real;
    t := 0;
    ghost var p: nat := 1;
    while x > 1.0
      invariant p > 0 && p == Pow2(t) && x * (p as real) == n as real
      invariant t > 0 ==> Pow2(t - 1) < n
      decreases x.Floor
    {
      HalvingStep(x, p, n);
      x := x / 2.0;
      t := t + 1;
      p := 2 * p;
    }
    LastHalving(x, p, n);
    CeilLog2Is(n, t);
  }

  lemma HalvingStep(x: real, p: nat, n: nat)
    requires x > 1.0 && p > 0 && x * (p as real) == n as real
    ensures p < n && x / 2.0 * ((2 * p) as real) == n as real && (x / 2.0).Floor < x.Floor
  {
    var q, y := p as real, x / 2.0;
    assert (x - 1.0) * q > 0.0;
    assert (x - 1.0) * q == x * q - q;
    assert x * q == (y + y) * q == y * q + y * q == y * (q + q);
  }

  lemma LastHalving(x: real, p: nat, n: nat)
    requires x <= 1.0 && x * (p as real) == n as real
    ensures n <= p
  {
    assert x * (p as real) <= 1.0 * (p as real);
  }

  /** The exponent of the least power of two that is at least `n`. */
  function CeilLog2(n: nat): (t: nat)
    ensures n <= Pow2(t) && (t > 0 ==> Pow2(t - 1) < n)
  {
    if n <= 1 then 0 else 1 + CeilLog2((n + 1) / 2)
  }

  lemma CeilLog2Is(n: nat, t: nat)
    requires n <= Pow2(t) && (t > 0 ==> Pow2(t - 1) < n)
    ensures CeilLog2(n) == t
  {
    LeastPowerUnique(n, Pow2(CeilLog2(n)), Pow2(t), CeilLog2(n), t);
  }

  lemma CeilLog2OfPower(k: nat)
    ensures CeilLog2(Pow2(k)) == k
  {
    CeilLog2Is(Pow2(k), k);
  }

  // ----- the schedule (TypeScript)

  /** `Math.pow(2, e)` for an integer exponent, which an overflow can make negative. */
  function PowReal(e: int): real {
    if e >= 0 then Pow2(e) as real else 1.0 / (Pow2(-e) as real)
  }

  datatype Schedule = Schedule(slotsPerEpoch: nat, firstNormalEpoch: nat, firstNormalSlot: nat) {

    /** The schedules a cluster serves: the warmup epochs double from 32 slots. */
    ghost predicate WellFormed() {
      slotsPerEpoch > 0 && firstNormalSlot == MINIMUM_SLOTS_PER_EPOCH * (Pow2(firstNormalEpoch) - 1)
    }

    function SlotsInEpoch(epoch: int): real {
      if epoch < firstNormalEpoch then PowReal(epoch + CeilLog2(MINIMUM_SLOTS_PER_EPOCH)) else slotsPerEpoch as real
    }

    function FirstSlotInEpoch(epoch: nat): nat {
      if epoch <= firstNormalEpoch then (Pow2(epoch) - 1) * MINIMUM_SLOTS_PER_EPOCH
      else (epoch - firstNormalEpoch) * slotsPerEpoch + firstNormalSlot
    }

    function LastSlotInEpoch(epoch: nat): real {
      FirstSlotInEpoch(epoch) as real + SlotsInEpoch(epoch) - 1.0
    }

    /** The warmup branch, given the power of two it starts from. */
    function WarmupEpochAndSlotIndex(slot: nat, power: int): (int, real) {
      var epoch := (if power < 0 then 0 else CeilLog2(power)) - CeilLog2(MINIMUM_SLOTS_PER_EPOCH) - 1;
      (epoch, slot as real - (SlotsInEpoch(epoch) - MINIMUM_SLOTS_PER_EPOCH as real))
    }

    function EpochAndSlotIndex(slot: nat): (int, real)
      requires slotsPerEpoch > 0
    {
      if slot < firstNormalSlot then
        WarmupEpochAndSlotIndex(slot, NextPowerOfTwo(slot + MINIMUM_SLOTS_PER_EPOCH + 1))
      else
        var i := slot - firstNormalSlot;
        (firstNormalEpoch + i / slotsPerEpoch, (i % slotsPerEpoch) as real)
    }

    function Epoch(slot: nat): int
      requires slotsPerEpoch > 0
    {
      EpochAndSlotIndex(slot).0
    }

    /** The slots for which no warmup computation overflows 32 bits. */
    predicate InRange(slot: nat) {
      slot >= firstNormalSlot || slot + MINIMUM_SLOTS_PER_EPOCH + 1 <= TWO_31
    }
  }

  // ----- slots and epochs correspond one to one

  lemma WarmupSlots(s: Schedule, e: nat)
    requires e < s.firstNormalEpoch
    ensures s.SlotsInEpoch(e) == (32 * Pow2(e)) as real
  {
    Pow2Sum(e, 5);
    Pow2Table();
  }

  /** The warmup branch finds the epoch whose doubled range contains the slot. */
  lemma WarmupEpoch(s: Schedule, slot: nat)
    requires s.slotsPerEpoch > 0 && slot < s.firstNormalSlot && s.InRange(slot)
    ensures s.Epoch(slot) >= 0 && 32 * Pow2(s.Epoch(slot)) <= slot + 32 < 64 * Pow2(s.Epoch(slot))
  {
    NextPowerOfTwoInRange(slot + 33);
    LengthBounds(slot);
    PowerGivesEpoch(s, slot, Length(slot + 32));
  }

  lemma LengthBounds(slot: nat)
    ensures var k := Length(slot + 32);
      k >= 6 && 32 * Pow2(k - 6) <= slot + 32 < 64 * Pow2(k - 6)
  {
    SixBitsDown(slot + 32, Length(slot + 32));
  }

  lemma SixBitsDown(x: nat, k: nat)
    requires x >= 32 && x < Pow2(k) <= 2 * x
    ensures k >= 6 && 32 * Pow2(k - 6) <= x < 64 * Pow2(k - 6)
  {
    Pow2Table();
    Pow2Order(5, k);
    Pow2Sum(6, k - 6);
    assert Pow2(6) == 2 * Pow2(5);
  }

  lemma PowerGivesEpoch(s: Schedule, slot: nat, k: nat)
    ensures s.WarmupEpochAndSlotIndex(slot, Pow2(k)).0 == k - 6
  {
    CeilLog2OfPower(k);
  }

  /** On overflow the warmup branch ends up in an epoch that is far too early. */
  lemma OverflowEpoch(s: Schedule, slot: nat)
    requires s.slotsPerEpoch > 0 && !s.InRange(slot)
    ensures s.Epoch(slot) <= 25
  {
    var n := slot + 33;
    NextPowerOfTwoValue(n);
    var w := ToInt32(n - 1);
    if w >= 0 { PowerGivesEpoch(s, slot, Length(w)); }
  }

  /** The warmup branch finds that epoch exactly when nothing overflows. */
  lemma WarmupEpochIff(s: Schedule, slot: nat)
    requires s.slotsPerEpoch > 0 && slot < s.firstNormalSlot
    ensures s.Epoch(slot) >= 0 && 32 * Pow2(s.Epoch(slot)) <= slot + 32 < 64 * Pow2(s.Epoch(slot)) <==> s.InRange(slot)
  {
    if s.InRange(slot) {
      WarmupEpoch(s, slot);
    } else {
      OverflowEpoch(s, slot);
      if s.Epoch(slot) >= 0 {
        Pow2Monotone(s.Epoch(slot), 25);
        Pow2Table();
        Pow2Sum(25, 6);
      }
    }
  }

  /** `slot` is the slot with index `i` of epoch `e`. */
  ghost predicate Located(s: Schedule, slot: nat, e: int, i: real) {
    e >= 0 && 0.0 <= i < s.SlotsInEpoch(e) && s.FirstSlotInEpoch(e) as real + i == slot as real
  }

  lemma NormalEpoch(s: Schedule, slot: nat)
    requires s.WellFormed() && slot >= s.firstNormalSlot
    ensures Located(s, slot, s.Epoch(slot), s.EpochAndSlotIndex(slot).1)
  {
    var x, p := slot - s.firstNormalSlot, s.slotsPerEpoch;
    NormalAt(s, slot, x / p, x % p);
  }

  lemma NormalAt(s: Schedule, slot: nat, q: nat, r: nat)
    requires s.WellFormed() && q * s.slotsPerEpoch + r + s.firstNormalSlot == slot && r < s.slotsPerEpoch
    ensures Located(s, slot, s.firstNormalEpoch + q, r as real)
  {
    assert s.FirstSlotInEpoch(s.firstNormalEpoch + q) == q * s.slotsPerEpoch + s.firstNormalSlot;
  }

  /** Taking a slot apart and putting it together again gives the slot back, within the epoch's
      length, exactly when no 32-bit computation overflows. */
  lemma SlotRoundTripIff(s: Schedule, slot: nat)
    requires s.WellFormed()
    ensures Located(s, slot, s.Epoch(slot), s.EpochAndSlotIndex(slot).1) <==> s.InRange(slot)
  {
    if slot >= s.firstNormalSlot {
      NormalEpoch(s, slot);
    } else if s.InRange(slot) {
      WarmupEpoch(s, slot);
      var e := s.Epoch(slot);
      Pow2Order(e, s.firstNormalEpoch);
      WarmupSlots(s, e);
    } else {
      OverflowEpoch(s, slot);
      var e := s.Epoch(slot);
      if e >= 0 {
        Pow2Order(25, s.firstNormalEpoch);
        Pow2Monotone(e, 25);
        Pow2Table();
        Pow2Sum(25, 6);
        WarmupSlots(s, e);
      }
    }
  }

  /** Epochs follow each other without gap or overlap. */
  lemma EpochsAreAdjacent(s: Schedule, e: nat)
    requires s.WellFormed()
    ensures s.LastSlotInEpoch(e) + 1.0 == s.FirstSlotInEpoch(e + 1) as real
    ensures s.SlotsInEpoch(e) > 0.0
  {
    if e < s.firstNormalEpoch {
      WarmupSlots(s, e);
    } else {
      var d, p := e - s.firstNormalEpoch, s.slotsPerEpoch;
      assert (d + 1) * p == d * p + p;
    }
  }

  lemma {:induction false} LaterEpochsStartLater(s: Schedule, e: nat, f: nat)
    requires s.WellFormed() && e < f
    ensures s.FirstSlotInEpoch(e) as real + s.SlotsInEpoch(e) <= s.FirstSlotInEpoch(f) as real
    decreases f
  {
    EpochsAreAdjacent(s, f - 1);
    if e < f - 1 {
      LaterEpochsStartLater(s, e, f - 1);
    }
  }

  lemma LocatedOrder(s: Schedule, slot: nat, e: int, i: real, slot': nat, e': int, i': real)
    requires s.WellFormed() && Located(s, slot, e, i) && Located(s, slot', e', i') && slot <= slot'
    ensures e <= e'
  {
    if e' < e { LaterEpochsStartLater(s, e', e); }
  }

  /** An index of an epoch is found again from its slot exactly when nothing overflows. */
  lemma EpochRoundTripIff(s: Schedule, e: nat, i: nat)
    requires s.WellFormed() && i as real < s.SlotsInEpoch(e)
    ensures s.EpochAndSlotIndex(s.FirstSlotInEpoch(e) + i) == (e, i as real) <==> s.InRange(s.FirstSlotInEpoch(e) + i)
  {
    var slot := s.FirstSlotInEpoch(e) + i;
    SlotRoundTripIff(s, slot);
    assert Located(s, slot, e, i as real);
    if s.InRange(slot) { LocatedOnce(s, slot, e, i as real, s.Epoch(slot), s.EpochAndSlotIndex(slot).1); }
  }

  /** A slot belongs to one epoch, at one index. */
  lemma LocatedOnce(s: Schedule, slot: nat, e: int, i: real, f: int, j: real)
    requires s.WellFormed() && Located(s, slot, e, i) && Located(s, slot, f, j)
    ensures e == f && i == j
  {
    LocatedOrder(s, slot, e, i, slot, f, j);
    LocatedOrder(s, slot, f, j, slot, e, i);
  }

  /** `getEpoch` never goes back, also across the end of the warmup, exactly when the warmup has at
      most 26 epochs. */
  lemma EpochIsMonotoneIff(s: Schedule)
    requires s.WellFormed()
    ensures (forall a: nat, b: nat :: a <= b ==> s.Epoch(a) <= s.Epoch(b)) <==> s.firstNormalEpoch <= 26
  {
    WarmupEnd(s);
    if s.firstNormalEpoch <= 26 {
      forall a: nat, b: nat | a <= b ensures s.Epoch(a) <= s.Epoch(b) { EpochIsMonotone(s, a, b); }
    } else {
      EpochGoesBack(s);
      assert s.Epoch(0) > s.Epoch(TWO_31 - 32);
    }
  }

  /** The warmup ends before the overflow exactly when it has at most 26 epochs. */
  lemma WarmupEnd(s: Schedule)
    requires s.WellFormed()
    ensures s.firstNormalSlot <= TWO_31 - 32 <==> s.firstNormalEpoch <= 26
  {
    Pow2Table();
    Pow2Sum(26, 5);
    Pow2Order(26, s.firstNormalEpoch);
  }

  /** The first slot that overflows during the warmup gets an epoch before the first. */
  lemma EpochGoesBack(s: Schedule)
    requires s.slotsPerEpoch > 0 && s.firstNormalSlot > TWO_31 - 32
    ensures s.Epoch(TWO_31 - 32) == -6 && s.Epoch(0) >= 0
  {
    WarmupEpoch(s, 0);
    NextPowerOfTwoValue(TWO_31 + 1);
  }

  /** Slots that do not overflow are in order. */
  lemma EpochIsMonotone(s: Schedule, slot: nat, slot': nat)
    requires s.WellFormed() && slot <= slot' && s.InRange(slot) && s.InRange(slot')
    ensures s.Epoch(slot) <= s.Epoch(slot')
  {
    SlotRoundTripIff(s, slot);
    SlotRoundTripIff(s, slot');
    LocatedOrder(s, slot, s.Epoch(slot), s.EpochAndSlotIndex(slot).1, slot', s.Epoch(slot'), s.EpochAndSlotIndex(slot').1);
  }

  // ----- the Python version

  /** `(n & -n).bit_length() - 1`. */
  function PyTrailingZeros(n: int): int {
    Length(Abs(And(n, -n))) - 1
  }

  /** `1 << (n - 1).bit_length()`. */
  function PyNextPowerOfTwo(n: int): nat {
    Pow2(Length(Abs(n - 1)))
  }

  function PyEpoch(s: Schedule, slot: nat): int
    requires s.slotsPerEpoch > 0
  {
    if slot < s.firstNormalSlot then
      var power := PyNextPowerOfTwo(slot + MINIMUM_SLOTS_PER_EPOCH + 1);
      PyTrailingZeros(power) - PyTrailingZeros(MINIMUM_SLOTS_PER_EPOCH) - 1
    else
      s.firstNormalEpoch + (slot - s.firstNormalSlot) / s.slotsPerEpoch
  }

  lemma {:induction false} LowestBitOfPower(k: nat)
    ensures And(Pow2(k), 0 - Pow2(k)) == Pow2(k)
  {
    if k > 0 {
      LowestBitOfPower(k - 1);
      assert Pow2(k) / 2 == Pow2(k - 1) && (0 - Pow2(k)) / 2 == 0 - Pow2(k - 1);
    }
  }

  lemma {:induction false} LengthOfPower(k: nat)
    ensures Length(Pow2(k)) == k + 1
  {
    if k > 0 {
      LengthOfPower(k - 1);
      assert Pow2(k) / 2 == Pow2(k - 1);
    }
  }

  lemma OneBitCount(p: nat)
    requires And(p, 0 - p) == p
    ensures PyTrailingZeros(p) == Length(p) - 1
  {
  }

  /** On powers of two the Python count of trailing zeros is the exponent, as the TypeScript one. */
  lemma PyTrailingZerosOfPower(k: nat)
    ensures PyTrailingZeros(Pow2(k)) == k == CeilLog2(Pow2(k))
  {
    CeilLog2OfPower(k);
    LengthOfPower(k);
    LowestBitOfPower(k);
    OneBitCount(Pow2(k));
  }

  /** For every positive `n`, Python's `next_power_of_two` is the least power of two >= n. */
  lemma PyNextPowerOfTwoCorrect(n: nat)
    requires n > 0
    ensures IsLeastPower(n, PyNextPowerOfTwo(n))
  {
    assert LeastPower(n, PyNextPowerOfTwo(n), Length(n - 1));
  }

  /** The two implementations give the same epoch exactly when the 32-bit one does not overflow. */
  lemma TypeScriptAgreesWithPythonIff(s: Schedule, slot: nat)
    requires s.slotsPerEpoch > 0
    ensures s.Epoch(slot) == PyEpoch(s, slot) <==> s.InRange(slot)
  {
    if slot < s.firstNormalSlot {
      PyWarmupEpoch(s, slot);
      if s.InRange(slot) {
        WarmupEpochLength(s, slot);
      } else {
        OverflowEpoch(s, slot);
        LongLength(slot + 32);
      }
    }
  }

  lemma WarmupEpochLength(s: Schedule, slot: nat)
    requires s.slotsPerEpoch > 0 && slot < s.firstNormalSlot && s.InRange(slot)
    ensures s.Epoch(slot) == Length(slot + 32) - 6
  {
    NextPowerOfTwoInRange(slot + 33);
    PowerGivesEpoch(s, slot, Length(slot + 32));
  }

  lemma LongLength(x: nat)
    requires x >= TWO_31
    ensures Length(x) >= 32
  {
    Pow2Table();
    Pow2Order(31, Length(x));
  }

  lemma PyWarmupEpoch(s: Schedule, slot: nat)
    requires s.slotsPerEpoch > 0 && slot < s.firstNormalSlot
    ensures PyEpoch(s, slot) == Length(slot + 32) - 6
  {
    var k := Length(slot + 32);
    assert PyNextPowerOfTwo(slot + 33) == Pow2(k);
    PyTrailingZerosOfPower(k);
    PyFive();
  }

  lemma PyFive()
    ensures PyTrailingZeros(MINIMUM_SLOTS_PER_EPOCH) == 5
  {
    PyTrailingZerosOfPower(5);
    Pow2Table();
  }
}
