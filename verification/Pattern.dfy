/** The loopback test's data pattern, its checker, and the search for the delay a
    loopback introduces. Words are 32 bits wide and wrap. */
module Pattern {
  import opened Config
  import Bits

  const WORDS: nat := 2048          // DMA_BUFFER_SIZE / sizeof(uint32_t)
  const SEEDS: bv32 := 2048

  // add_mod_int(seed, 1, DMA_BUFFER_SIZE / sizeof(uint32_t))
  function Next(seed: bv32): bv32 {
    if seed + 1 >= SEEDS then seed + 1 - SEEDS else seed + 1
  }

  // seed_to_data
  function Data(seed: bv32): bv32 { seed * 69069 + 1 }

  // A word as it is written: the data under the mask.
  function Word(seed: bv32, mask: bv32): bv32 { Under(Data(seed), mask) }

  function Under(x: bv32, mask: bv32): bv32 { x & mask }

  function SeedAfter(seed: bv32, n: nat): bv32 {
    if n == 0 then seed else Next(SeedAfter(seed, n - 1))
  }

  /* The data mask */

  function Pow2Above(width: nat): nat
    requires 1 <= width <= 16
  {
    if width <= 1 then 1 else if width <= 2 then 2 else if width <= 4 then 4 else if width <= 8 then 8 else 16
  }

  // get_next_pow2: the least power of two that is not below the width.
  method GetNextPow2(width: nat) returns (x: nat)
    ensures x >= width && (x == 1 || x / 2 < width)
    ensures exists k: nat :: x == Bits.Pow2(k)
    ensures 1 <= width <= 16 ==> x == Pow2Above(width)
  {
    x := 1;
    ghost var k := 0;
    while x < width
      invariant x == Bits.Pow2(k) && (x == 1 || x / 2 < width)
      invariant width <= 16 ==> x in {1, 2, 4, 8, 16}
      decreases width - x
    {
      x, k := 2 * x, k + 1;
    }
  }

  function Twice(x: bv32): bv32 { x << 1 }

  // x << k
  function Shl(x: bv32, k: nat): bv32 {
    if k == 0 then x else Twice(Shl(x, k - 1))
  }

  function Or(x: bv32, y: bv32): bv32 { x | y }

  function Less1(x: bv32): bv32 { x - 1 }

  function Lane(width: nat): bv32 { Less1(Shl(1, width)) }

  // n lanes of `pitch` bits, the low `width` bits of each set.
  function Lanes(width: nat, pitch: nat, n: nat): bv32 {
    if n == 0 then 0 else Or(Shl(Lanes(width, pitch, n - 1), pitch), Lane(width))
  }

  function Mask(width: nat): bv32
    requires 1 <= width <= 16
  {
    Lanes(width, Pow2Above(width), 32 / Pow2Above(width))
  }

  // get_data_mask
  method GetDataMask(width: nat) returns (mask: bv32)
    requires 1 <= width <= 16
    ensures mask == Mask(width)
    ensures forall i: nat | i <= 31 :: Bit(mask, i) <==> i % Pow2Above(width) < width
  {
    hide Shl, Or, Less1, Bit;
    mask := 0;
    var pitch := GetNextPow2(width);
    for i := 0 to 32 / pitch
      invariant mask == Lanes(width, pitch, i)
    {
      mask := Shl(mask, pitch);
      mask := Or(mask, Less1(Shl(1, width)));
    }
    forall i: nat | i <= 31
      ensures Bit(mask, i) <==> i % Pow2Above(width) < width
    {
      BitMask(width, i);
    }
  }

  /* Which bits are set */

  function And(x: bv32, y: bv32): bv32 { x & y }

  // Bit i of a word, for i below 32.
  predicate Bit(x: bv32, i: nat) { And(x, Shl(1, i)) != 0 }

  lemma AndOr(x: bv32, y: bv32, s: bv32)
    ensures And(Or(x, y), s) == Or(And(x, s), And(y, s))
  {
  }

  lemma OrZero(x: bv32, y: bv32)
    ensures Or(x, y) == 0 <==> x == 0 && y == 0
  {
  }

  lemma BitOr(x: bv32, y: bv32, i: nat)
    ensures Bit(Or(x, y), i) <==> Bit(x, i) || Bit(y, i)
  {
    hide Or, And, Shl;
    AndOr(x, y, Shl(1, i));
    OrZero(And(x, Shl(1, i)), And(y, Shl(1, i)));
  }

  // The top k bits.
  function Top(k: nat): bv32 {
    if k == 0 then 0 else Or(Halve(Top(k - 1)), 0x8000_0000)
  }

  function Halve(x: bv32): bv32 { x >> 1 }

  lemma TopValue()
    ensures Top(31) == 0xffff_fffe
  {
    assert Top(8) == 0xff00_0000;
    assert Top(16) == 0xffff_0000;
    assert Top(24) == 0xffff_ff00;
  }

  lemma ClearTwice(x: bv32, t: bv32)
    requires And(x, Or(Halve(t), 0x8000_0000)) == 0
    ensures And(Twice(x), t) == 0 && And(x, 0x8000_0000) == 0
  {
  }

  // Shifting a one leaves the bits above it clear.
  lemma {:induction false} SingleClear(i: nat)
    requires i <= 31
    ensures And(Shl(1, i), Top(31 - i)) == 0
  {
    hide And, Twice, Or, Halve;
    if i == 0 {
      TopValue();
      assert And(1, 0xffff_fffe) == 0 by { OneClear(); }
    } else {
      SingleClear(i - 1);
      ClearTwice(Shl(1, i - 1), Top(31 - i));
    }
  }

  lemma OneClear()
    ensures And(1, 0xffff_fffe) == 0
  {
  }

  lemma TwiceAnd(x: bv32, s: bv32)
    requires And(s, 0x8000_0000) == 0
    ensures And(Twice(x), Twice(s)) != 0 <==> And(x, s) != 0
  {
  }

  lemma TwiceEven(x: bv32)
    ensures And(Twice(x), 1) == 0
  {
  }

  lemma BitTwice(x: bv32, i: nat)
    requires i <= 31
    ensures Bit(Twice(x), i) <==> i > 0 && Bit(x, i - 1)
  {
    hide And, Twice, Or, Halve;
    TwiceEven(x);
    if i > 0 {
      SingleClear(i - 1);
      assert Top(32 - i) == Or(Halve(Top(31 - i)), 0x8000_0000);
      ClearTwice(Shl(1, i - 1), Top(31 - i));
      TwiceAnd(x, Shl(1, i - 1));
    }
  }

  lemma {:induction false} BitShl(x: bv32, k: nat, i: nat)
    requires i <= 31
    ensures Bit(Shl(x, k), i) <==> i >= k && Bit(x, i - k)
    decreases k
  {
    hide Bit, Twice;
    if k > 0 {
      BitTwice(Shl(x, k - 1), i);
      if i > 0 {
        BitShl(x, k - 1, i - 1);
      }
    }
  }

  lemma NoBit(i: nat)
    ensures !Bit(0, i)
  {
  }

  lemma {:induction false} BitLane(width: nat, i: nat)
    requires i <= 31
    ensures Bit(Lane(width), i) <==> i < width
    decreases width
  {
    hide Bit, Twice, Or, Lane, Shl;
    if width == 0 {
      NoLane(0);
      NoBit(i);
    } else {
      LaneStep(width - 1);
      BitOr(Twice(Lane(width - 1)), 1, i);
      BitTwice(Lane(width - 1), i);
      BitOne(i);
      if i > 0 {
        BitLane(width - 1, i - 1);
      }
    }
  }

  lemma BitOne(i: nat)
    ensures Bit(1, i) <==> i == 0
  {
    hide And, Twice;
    if i > 0 {
      AndSwaps(1, Shl(1, i));
      TwiceEven(Shl(1, i - 1));
    } else {
      assert And(1, 1) != 0 by { OneAnd(); }
    }
  }

  lemma AndSwaps(x: bv32, y: bv32)
    ensures And(x, y) == And(y, x)
  {
  }

  lemma OneAnd()
    ensures And(1, 1) == 1
  {
  }

  lemma {:induction false} BitLanes(width: nat, pitch: nat, n: nat, i: nat)
    requires 0 < width <= pitch && i <= 31
    ensures Bit(Lanes(width, pitch, n), i) <==> i < n * pitch && i % pitch < width
    decreases n
  {
    hide Bit, Or, Lane, Shl;
    if n == 0 {
      NoBit(i);
    } else {
      BitOr(Shl(Lanes(width, pitch, n - 1), pitch), Lane(width), i);
      BitShl(Lanes(width, pitch, n - 1), pitch, i);
      BitLane(width, i);
      LaneAbove(pitch, n, i, width);
      if i >= pitch {
        BitLanes(width, pitch, n - 1, i - pitch);
      }
    }
  }

  lemma LaneAbove(pitch: nat, n: nat, i: nat, width: nat)
    requires 0 < width <= pitch && n > 0
    ensures i < pitch ==> i < n * pitch && i % pitch == i
    ensures i >= pitch ==> (i < n * pitch <==> i - pitch < (n - 1) * pitch) && i % pitch == (i - pitch) % pitch
  {
    assert n * pitch == (n - 1) * pitch + pitch;
    if i >= pitch {
      Bits.DivModUnique(i, pitch, (i - pitch) / pitch + 1, (i - pitch) % pitch);
    } else {
      Bits.DivModUnique(i, pitch, 0, i);
      assert (n - 1) * pitch >= 0;
    }
  }

  /** The word is divided into lanes of the least power of two that holds the width, and
      the mask selects the width's low bits of each lane. */
  lemma BitMask(width: nat, i: nat)
    requires 1 <= width <= 16 && i <= 31
    ensures Bit(Mask(width), i) <==> i % Pow2Above(width) < width
  {
    hide Bit, Lanes;
    var pitch := Pow2Above(width);
    BitLanes(width, pitch, 32 / pitch, i);
  }

  // The bits of a are among those of b.
  predicate Within(a: bv32, b: bv32) { a & b == a }

  lemma WithinTwice(a: bv32, b: bv32)
    requires Within(a, b)
    ensures Within(Twice(a), Twice(b))
  {
  }

  lemma WithinOr(a: bv32, b: bv32, c: bv32, d: bv32)
    requires Within(a, b) && Within(c, d)
    ensures Within(Or(a, c), Or(b, d))
  {
  }

  lemma {:induction false} WithinShl(a: bv32, b: bv32, k: nat)
    requires Within(a, b)
    ensures Within(Shl(a, k), Shl(b, k))
  {
    hide Twice, Within;
    if k > 0 {
      WithinShl(a, b, k - 1);
      WithinTwice(Shl(a, k - 1), Shl(b, k - 1));
    }
  }

  lemma LaneStep(width: nat)
    ensures Lane(width + 1) == Or(Twice(Lane(width)), 1)
  {
    hide Twice, Or, Less1;
    assert Shl(1, width + 1) == Twice(Shl(1, width));
    TwiceLess1(Shl(1, width));
  }

  lemma TwiceLess1(y: bv32)
    ensures Less1(Twice(y)) == Or(Twice(Less1(y)), 1)
  {
  }

  lemma {:induction false} WithinLane(v: nat, w: nat)
    requires v <= w
    ensures Within(Lane(v), Lane(w))
    decreases w
  {
    hide Twice, Or, Lane;
    if v == 0 {
      NoLane(Lane(w));
    } else {
      LaneStep(v - 1);
      LaneStep(w - 1);
      WithinLane(v - 1, w - 1);
      WithinTwice(Lane(v - 1), Lane(w - 1));
      WithinOr(Twice(Lane(v - 1)), Twice(Lane(w - 1)), 1, 1);
    }
  }

  lemma NoLane(b: bv32)
    ensures Lane(0) == 0 && Within(0, b)
  {
  }

  // A narrower mask of the same pitch selects fewer bits.
  lemma {:induction false} WithinLanes(v: nat, w: nat, pitch: nat, n: nat)
    requires v <= w
    ensures Within(Lanes(v, pitch, n), Lanes(w, pitch, n))
  {
    hide Or, Lane, Shl, Within;
    if n == 0 {
      NoLane(0);
    } else {
      WithinLanes(v, w, pitch, n - 1);
      WithinShl(Lanes(v, pitch, n - 1), Lanes(w, pitch, n - 1), pitch);
      WithinLane(v, w);
      WithinOr(Shl(Lanes(v, pitch, n - 1), pitch), Shl(Lanes(w, pitch, n - 1), pitch), Lane(v), Lane(w));
    }
  }

  lemma WithinMask(v: nat, w: nat)
    requires 1 <= v <= w <= 16 && Pow2Above(v) == Pow2Above(w)
    ensures Within(Mask(v), Mask(w))
  {
    hide Lanes, Within;
    WithinLanes(v, w, Pow2Above(w), 32 / Pow2Above(w));
  }

  // The narrowest mask of each pitch.
  lemma NarrowMasks()
    ensures Mask(1) == 0xffff_ffff && Mask(2) == 0xffff_ffff
    ensures Mask(3) == 0x7777_7777 && Mask(5) == 0x1f1f_1f1f && Mask(9) == 0x01ff_01ff
  {
    hide Lanes;
    Mask1();
    Mask2();
    Mask3();
    Mask5();
    Mask9();
  }

  lemma Mask1()
    ensures Lanes(1, 1, 32) == 0xffff_ffff
  {
    assert Lanes(1, 1, 8) == 0xff;
    assert Lanes(1, 1, 16) == 0xffff;
    assert Lanes(1, 1, 24) == 0xff_ffff;
  }

  lemma Mask2()
    ensures Lanes(2, 2, 16) == 0xffff_ffff
  {
    assert Lanes(2, 2, 4) == 0xff;
    assert Lanes(2, 2, 8) == 0xffff;
    assert Lanes(2, 2, 12) == 0xff_ffff;
  }

  lemma Mask3()
    ensures Lanes(3, 4, 8) == 0x7777_7777
  {
  }

  lemma Mask5()
    ensures Lanes(5, 8, 4) == 0x1f1f_1f1f
  {
  }

  lemma Mask9()
    ensures Lanes(9, 16, 2) == 0x01ff_01ff
  {
    assert Lanes(9, 16, 0) == 0;
    assert Shl(0, 8) == 0 && Shl(0, 16) == 0;
    assert Lanes(9, 16, 1) == 0x1ff;
    assert Shl(0x1ff, 8) == 0x1_ff00;
    assert Shl(0x1ff, 16) == 0x01ff_0000;
  }

  /* Distinct words */

  // Words d multiples of the multiplier apart differ under a mask.
  predicate Differ(x: bv32, d: bv32, mask: bv32) { x & mask != (x + d * 69069) & mask }

  lemma DifferFull(x: bv32, d: bv32)
    requires 0 < d < SEEDS
    ensures Differ(x, d, 0xffff_ffff)
  {
  }

  lemma DifferBy3(x: bv32, d: bv32)
    requires 0 < d < SEEDS
    ensures Differ(x, d, 0x7777_7777)
  {
  }

  lemma DifferBy5(x: bv32, d: bv32)
    requires 0 < d < SEEDS
    ensures Differ(x, d, 0x1f1f_1f1f)
  {
  }

  lemma DifferBy9(x: bv32, d: bv32)
    requires 0 < d < SEEDS
    ensures Differ(x, d, 0x01ff_01ff)
  {
  }

  lemma DataDiffers(s: bv32, d: bv32, mask: bv32)
    requires forall x: bv32 :: Differ(x, d, mask)
    ensures Word(s, mask) != Word(s + d, mask)
  {
    assert Differ(s * 69069 + 1, d, mask);
  }

  // Seeds a distance d apart give different words under each of the narrow masks.
  lemma WordsDiffer(s: bv32, d: bv32, mask: bv32)
    requires 0 < d < SEEDS && mask in {0xffff_ffff, 0x7777_7777, 0x1f1f_1f1f, 0x01ff_01ff}
    ensures Word(s, mask) != Word(s + d, mask)
  {
    hide Differ, Word;
    forall x: bv32
      ensures Differ(x, d, mask)
    {
      DifferFull(x, d);
      DifferBy3(x, d);
      DifferBy5(x, d);
      DifferBy9(x, d);
    }
    DataDiffers(s, d, mask);
  }

  predicate Apart(s: bv32, d: bv32, t: bv32) { s + d == t }

  lemma Distance(s: bv32, t: bv32) returns (d: bv32)
    requires s < t < SEEDS
    ensures 0 < d < SEEDS && Apart(s, d, t)
  {
    assert 0 < t - s < SEEDS;
    assert Apart(s, t - s, t);
    d := t - s;
  }

  lemma UnderWider(x: bv32, y: bv32, a: bv32, b: bv32)
    requires Within(a, b) && Under(x, a) != Under(y, a)
    ensures Under(x, b) != Under(y, b)
  {
  }

  // For every data width the pattern's words are different for different seeds.
  lemma SeedsDistinct(width: nat, s: bv32, t: bv32)
    requires 1 <= width <= 16 && s < SEEDS && t < SEEDS && s != t
    ensures Word(s, Mask(width)) != Word(t, Mask(width))
  {
    hide Word, Mask;
    if s < t {
      SeedsOrdered(width, s, t);
    } else {
      SeedsOrdered(width, t, s);
    }
  }

  lemma SeedsOrdered(width: nat, s: bv32, t: bv32)
    requires 1 <= width <= 16 && s < t < SEEDS
    ensures Word(s, Mask(width)) != Word(t, Mask(width))
  {
    hide Data, Under, Mask, Within;
    NarrowMasks();
    var d := Distance(s, t);
    var least :=
      if width <= 1 then 1 else if width <= 2 then 2 else if width <= 4 then 3 else if width <= 8 then 5 else 9;
    WordsDiffer(s, d, Mask(least));
    assert s + d == t;
    WithinMask(least, width);
    UnderWider(Data(s), Data(t), Mask(least), Mask(width));
  }

  /* The checker and the search */

  lemma NextDistinct(s: bv32, t: bv32)
    requires s < SEEDS && t < SEEDS && s != t
    ensures Next(s) < SEEDS && Next(s) != Next(t)
  {
  }

  // Rotations of the pattern stay apart at every place.
  lemma {:induction false} RotationsApart(s: bv32, t: bv32, n: nat)
    requires s < SEEDS && t < SEEDS && s != t
    ensures SeedAfter(s, n) < SEEDS && SeedAfter(t, n) < SEEDS && SeedAfter(s, n) != SeedAfter(t, n)
  {
    hide Next;
    if n > 0 {
      RotationsApart(s, t, n - 1);
      NextDistinct(SeedAfter(s, n - 1), SeedAfter(t, n - 1));
      NextDistinct(SeedAfter(t, n - 1), SeedAfter(s, n - 1));
    }
  }

  lemma {:induction false} SeedAfterSum(s: bv32, m: nat, n: nat)
    ensures SeedAfter(s, m + n) == SeedAfter(SeedAfter(s, m), n)
  {
    hide Next;
    if n > 0 {
      SeedAfterSum(s, m, n - 1);
    }
  }

  function Int(s: bv32): (n: nat)
    ensures n < 0x1_0000_0000
  {
    s as int
  }

  lemma Back(s: bv32)
    ensures Int(s) as bv32 == s
  {
  }

  lemma IntUp(s: bv32)
    requires s < 2047
    ensures Int(s + 1) == Int(s) + 1
  {
  }

  lemma IntTop(s: bv32)
    requires s < SEEDS
    ensures Int(s) <= 2047 && (Int(s) == 2047 <==> s == 2047) && (s == 2047 || s < 2047)
  {
  }

  lemma NextUp(s: bv32)
    requires s < 2047
    ensures Next(s) == s + 1 && Next(s) < SEEDS
  {
  }

  lemma {:induction false} SeedsClimb(s: bv32, n: nat)
    requires s < SEEDS && Int(s) + n < WORDS
    ensures SeedAfter(s, n) < SEEDS && Int(SeedAfter(s, n)) == Int(s) + n
  {
    hide Next, Int;
    if n > 0 {
      SeedsClimb(s, n - 1);
      var t := SeedAfter(s, n - 1);
      IntTop(t);
      NextUp(t);
      IntUp(t);
    }
  }

  lemma TopToZero()
    ensures Next(2047) == 0 && Int(0) == 0
  {
  }

  lemma OneMore(s: bv32, n: nat)
    ensures SeedAfter(s, n + 1) == Next(SeedAfter(s, n))
  {
  }

  // A whole turn of 2048 words comes back to the seed it began with.
  lemma WholeTurn(s: bv32)
    requires s < SEEDS
    ensures SeedAfter(s, WORDS) == s
  {
    hide SeedAfter, Next, Int;
    IntTop(s);
    var k := Int(s);
    SeedsClimb(s, 2047 - k);
    IntTop(SeedAfter(s, 2047 - k));
    OneMore(s, 2047 - k);
    TopToZero();
    SeedsClimb(0, k);
    SeedAfterSum(s, WORDS - k, k);
    Back(s);
    Back(SeedAfter(0, k));
  }

  // Words of the buffer that are not the pattern's, rotated to start at `seed`.
  function Errors(buf: seq<bv32>, seed: bv32, mask: bv32): nat {
    if buf == [] then 0
    else Errors(buf[..|buf| - 1], seed, mask) +
         (if buf[|buf| - 1] != Word(SeedAfter(seed, |buf| - 1), mask) then 1 else 0)
  }

  // The arithmetic of seed_to_data, and the mask.
  lemma WordIs(seed: bv32, mask: bv32)
    ensures Word(seed, mask) == (seed * 69069 + 1) & mask
  {
  }

  // The i-th seed from one on: they run up to 2047 and start over at 0.
  function SeedNo(seed: bv32, i: nat): bv32 { ((seed as int + i) % 2048) as bv32 }

  // Word i of the pattern that starts at `seed`.
  function Expected(seed: bv32, i: nat, mask: bv32): bv32 { Word(SeedNo(seed, i), mask) }

  // Where a buffer differs from the pattern.
  function Wrong(buf: seq<bv32>, seed: bv32, mask: bv32): (places: set<nat>)
    ensures forall i: nat :: i in places <==> i < |buf| && buf[i] != Expected(seed, i, mask)
  {
    set i: nat | i < |buf| && buf[i] != Expected(seed, i, mask)
  }

  lemma {:induction false} SeedIs(s: bv32, n: nat)
    requires s < SEEDS
    ensures SeedAfter(s, n) < SEEDS && Int(SeedAfter(s, n)) == (Int(s) + n) % 2048
  {
    hide Next, Int;
    if n == 0 {
      IntTop(s);
    } else {
      SeedIs(s, n - 1);
      var t := SeedAfter(s, n - 1);
      IntTop(t);
      TopToZero();
      if t != 2047 {
        NextUp(t);
        IntUp(t);
      }
    }
  }

  lemma SeedNoIs(s: bv32, i: nat)
    requires s < SEEDS
    ensures SeedAfter(s, i) == SeedNo(s, i)
  {
    hide SeedAfter;
    SeedIs(s, i);
    Back(SeedAfter(s, i));
  }

  lemma ExpectedIs(s: bv32, i: nat, mask: bv32)
    requires s < SEEDS
    ensures Word(SeedAfter(s, i), mask) == Expected(s, i, mask)
  {
    hide SeedAfter, SeedNo, Word;
    SeedNoIs(s, i);
  }

  // The checker's count is the number of words that are not the pattern's.
  lemma {:induction false} ErrorsCount(buf: seq<bv32>, seed: bv32, mask: bv32)
    requires seed < SEEDS
    ensures Errors(buf, seed, mask) == |Wrong(buf, seed, mask)|
  {
    hide Word, SeedAfter, SeedNo, Expected;
    if buf == [] {
      assert Wrong(buf, seed, mask) == {};
    } else {
      var last := |buf| - 1;
      ErrorsCount(buf[..last], seed, mask);
      ExpectedIs(seed, last, mask);
      var before := Wrong(buf[..last], seed, mask);
      assert Wrong(buf, seed, mask) ==
             if buf[last] != Expected(seed, last, mask) then before + {last} else before;
    }
  }

  // A word that fits one rotation does not fit another: two rotations of the pattern
  // agree nowhere, and between them they find every word of any buffer wrong once.
  lemma {:induction false} RotationsShareErrors(buf: seq<bv32>, width: nat, s: bv32, t: bv32)
    requires 1 <= width <= 16 && s < SEEDS && t < SEEDS && s != t
    ensures Errors(buf, s, Mask(width)) + Errors(buf, t, Mask(width)) >= |buf|
  {
    hide Word, Mask, SeedAfter;
    if buf != [] {
      var last := |buf| - 1;
      RotationsShareErrors(buf[..last], width, s, t);
      RotationsApart(s, t, last);
      SeedsDistinct(width, SeedAfter(s, last), SeedAfter(t, last));
    }
  }

  lemma {:induction false} ErrorsBounded(buf: seq<bv32>, seed: bv32, mask: bv32)
    ensures Errors(buf, seed, mask) <= |buf|
  {
    if buf != [] {
      ErrorsBounded(buf[..|buf| - 1], seed, mask);
    }
  }

  // So if a buffer fits one rotation in more than half its words, it fits no other so well.
  lemma OthersWrong(buf: seq<bv32>, width: nat, s: bv32)
    requires 1 <= width <= 16 && s < SEEDS && |buf| == WORDS && |Wrong(buf, s, Mask(width))| < WORDS / 2
    ensures forall t: bv32 | t < SEEDS && t != s :: |Wrong(buf, t, Mask(width))| > WORDS / 2
  {
    hide Mask, Errors, Wrong;
    forall t: bv32 | t < SEEDS && t != s
      ensures |Wrong(buf, t, Mask(width))| > WORDS / 2
    {
      RotationsShareErrors(buf, width, s, t);
      ErrorsCount(buf, s, Mask(width));
      ErrorsCount(buf, t, Mask(width));
    }
  }

  // An uncorrupted buffer fits its own rotation everywhere and any other nowhere.
  lemma CleanBufferFitsOneSeed(buf: seq<bv32>, width: nat, s: bv32, t: bv32)
    requires 1 <= width <= 16 && s < SEEDS && t < SEEDS && Errors(buf, s, Mask(width)) == 0
    ensures Errors(buf, t, Mask(width)) == if s == t then 0 else |buf|
  {
    hide Mask, Errors;
    if s != t {
      RotationsShareErrors(buf, width, s, t);
      ErrorsBounded(buf, t, Mask(width));
    }
  }

  // write_pn_data
  method WritePnData(buf: array<bv32>, count: nat, seed: bv32, width: nat) returns (seed': bv32)
    requires count <= buf.Length && 1 <= width <= 16
    modifies buf
    ensures seed' == SeedAfter(seed, count)
    ensures Errors(buf[..count], seed, Mask(width)) == 0
    ensures seed < 2048 ==> forall i: nat | i < count :: buf[i] == Expected(seed, i, Mask(width))
    ensures buf[count..] == old(buf[count..])
  {
    hide Word, Mask, Wrong, Expected;
    var mask := GetDataMask(width);
    seed' := seed;
    for i := 0 to count
      invariant seed' == SeedAfter(seed, i)
      invariant Errors(buf[..i], seed, mask) == 0
      invariant buf[count..] == old(buf[count..])
    {
      label L:
      buf[i] := Word(seed', mask);
      assert buf[..i] == old@L(buf[..i]);
      assert buf[..i + 1][..i] == buf[..i];
      seed' := Next(seed');
    }
    if seed < 2048 {
      ErrorsCount(buf[..count], seed, mask);
      forall i: nat | i < count
        ensures buf[i] == Expected(seed, i, mask)
      {
        assert i !in Wrong(buf[..count], seed, mask);
      }
    }
  }

  // check_pn_data
  method CheckPnData(buf: array<bv32>, count: nat, seed: bv32, width: nat) returns (errors: nat, seed': bv32)
    requires count <= buf.Length && 1 <= width <= 16
    ensures errors == Errors(buf[..count], seed, Mask(width)) && seed' == SeedAfter(seed, count)
    ensures seed < 2048 ==> errors == |Wrong(buf[..count], seed, Mask(width))|
  {
    hide Word, Mask, Wrong;
    var mask := GetDataMask(width);
    errors, seed' := 0, seed;
    for i := 0 to count
      invariant seed' == SeedAfter(seed, i)
      invariant errors == Errors(buf[..i], seed, mask)
    {
      assert buf[..i + 1][..i] == buf[..i];
      if buf[i] != Word(seed', mask) {
        errors := errors + 1;
      }
      seed' := Next(seed');
    }
    if seed < 2048 {
      ErrorsCount(buf[..count], seed, mask);
    }
  }

  /** The delay search of dma_test. It stops at delay t iff fewer than half the words
      of the buffer differ from the pattern rotated by t; so it finds the delay of any
      buffer with fewer than 1024 words corrupted, and finds nothing else. */
  method FindDelay(buf: array<bv32>, width: nat) returns (delay: Option<bv32>, seedRd: bv32)
    requires buf.Length == WORDS && 1 <= width <= 16
    ensures forall t: bv32 | t < 2048 :: delay == Some(t) <==> |Wrong(buf[..], t, Mask(width))| < 1024
    ensures delay.Some? ==> seedRd == delay.value < SEEDS
  {
    hide Word, Mask, Errors, Wrong;
    var d: bv32 := 0;
    seedRd := 0;
    delay := None;
    assert buf[..WORDS] == buf[..];
    while d < SEEDS
      invariant forall t: bv32 | t < d :: |Wrong(buf[..], t, Mask(width))| >= WORDS / 2
      decreases SEEDS - d
    {
      var errors;
      errors, seedRd := CheckPnData(buf, WORDS, d, width);
      if errors < WORDS / 2 {
        OthersWrong(buf[..], width, d);
        WholeTurn(d);
        return Some(d), seedRd;
      }
      d := d + 1;
    }
  }
}
