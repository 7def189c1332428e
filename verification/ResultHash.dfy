/**
 The 64-bit hash of a result list, by which the client tells the server what it already has, and
 the sticker counters that feed it.
 */
module ResultHash {

  type U64 = bv64

  function Xor(x: U64, y: U64): U64 { x ^ y }
  function Right4(x: U64): U64 { x >> 4 }
  function Right21(x: U64): U64 { x >> 21 }
  function Left35(x: U64): U64 { x << 35 }

  function Shift21(x: U64): U64 { Xor(x, Right21(x)) }
  function Shift35(x: U64): U64 { Xor(x, Left35(x)) }
  function Shift4(x: U64): U64 { Xor(x, Right4(x)) }

  function Mixed(x: U64): U64 { Shift4(Shift35(Shift21(x))) }

  function Plus(x: U64, y: U64): U64 { x + y }
  function Minus(x: U64, y: U64): U64 { x - y }

  function Updated(already: U64, value: U64): U64 { Plus(Mixed(already), value) }

  function Fold(already: U64, list: seq<U64>): U64 {
    if |list| == 0 then already else Updated(Fold(already, list[..|list| - 1]), list[|list| - 1])
  }

  function HashOf(list: seq<U64>): U64 { Fold(0, list) }

  // ----- every step can be undone -----

  // Xorshifts by 42, 8, 16 and 32: doing one twice doubles its distance.
  function Right42(x: U64): U64 { x >> 42 }
  function Right8(x: U64): U64 { x >> 8 }
  function Right16(x: U64): U64 { x >> 16 }
  function Right32(x: U64): U64 { x >> 32 }
  function Shift42(x: U64): U64 { Xor(x, Right42(x)) }
  function Shift8(x: U64): U64 { Xor(x, Right8(x)) }
  function Shift16(x: U64): U64 { Xor(x, Right16(x)) }
  function Shift32(x: U64): U64 { Xor(x, Right32(x)) }

  function Unshift21(y: U64): U64 { Shift42(Shift21(y)) }
  function Unshift35(y: U64): U64 { Shift35(y) }
  function Unshift4(y: U64): U64 { Shift32(Shift16(Shift8(Shift4(y)))) }

  function Unmixed(y: U64): U64 { Unshift21(Unshift35(Unshift4(y))) }

  lemma XorTelescopes(x: U64, s: U64, t: U64)
    ensures Xor(Xor(x, s), Xor(s, t)) == Xor(x, t)
  {
    assert (x ^ s) ^ (s ^ t) == x ^ t;
  }

  lemma XorZero(x: U64)
    ensures Xor(x, 0) == x
  {
  }

  lemma Right4OverXor(x: U64, y: U64)
    ensures Right4(Xor(x, y)) == Xor(Right4(x), Right4(y))
  {
    assert (x ^ y) >> 4 == (x >> 4) ^ (y >> 4);
  }

  lemma Right4Twice(x: U64)
    ensures Right4(Right4(x)) == Right8(x)
  {
  }

  lemma Shift4Twice(x: U64)
    ensures Shift4(Shift4(x)) == Shift8(x)
  {
    hide Xor, Right4, Right8;
    Right4OverXor(x, Right4(x));
    Right4Twice(x);
    XorTelescopes(x, Right4(x), Right4(Right4(x)));
  }

  lemma Right8OverXor(x: U64, y: U64)
    ensures Right8(Xor(x, y)) == Xor(Right8(x), Right8(y))
  {
    assert (x ^ y) >> 8 == (x >> 8) ^ (y >> 8);
  }

  lemma Right8Twice(x: U64)
    ensures Right8(Right8(x)) == Right16(x)
  {
  }

  lemma Shift8Twice(x: U64)
    ensures Shift8(Shift8(x)) == Shift16(x)
  {
    hide Xor, Right8, Right16;
    Right8OverXor(x, Right8(x));
    Right8Twice(x);
    XorTelescopes(x, Right8(x), Right8(Right8(x)));
  }

  lemma Right16OverXor(x: U64, y: U64)
    ensures Right16(Xor(x, y)) == Xor(Right16(x), Right16(y))
  {
    assert (x ^ y) >> 16 == (x >> 16) ^ (y >> 16);
  }

  lemma Right16Twice(x: U64)
    ensures Right16(Right16(x)) == Right32(x)
  {
  }

  lemma Shift16Twice(x: U64)
    ensures Shift16(Shift16(x)) == Shift32(x)
  {
    hide Xor, Right16, Right32;
    Right16OverXor(x, Right16(x));
    Right16Twice(x);
    XorTelescopes(x, Right16(x), Right16(Right16(x)));
  }

  lemma Right32OverXor(x: U64, y: U64)
    ensures Right32(Xor(x, y)) == Xor(Right32(x), Right32(y))
  {
    assert (x ^ y) >> 32 == (x >> 32) ^ (y >> 32);
  }

  lemma Right32Twice(x: U64)
    ensures Right32(Right32(x)) == 0
  {
  }

  lemma Shift32Twice(x: U64)
    ensures Shift32(Shift32(x)) == x
  {
    hide Xor, Right32;
    Right32OverXor(x, Right32(x));
    Right32Twice(x);
    XorTelescopes(x, Right32(x), Right32(Right32(x)));
    XorZero(x);
  }

  lemma Right21OverXor(x: U64, y: U64)
    ensures Right21(Xor(x, y)) == Xor(Right21(x), Right21(y))
  {
    assert (x ^ y) >> 21 == (x >> 21) ^ (y >> 21);
  }

  lemma Right21Twice(x: U64)
    ensures Right21(Right21(x)) == Right42(x)
  {
  }

  lemma Shift21Twice(x: U64)
    ensures Shift21(Shift21(x)) == Shift42(x)
  {
    hide Xor, Right21, Right42;
    Right21OverXor(x, Right21(x));
    Right21Twice(x);
    XorTelescopes(x, Right21(x), Right21(Right21(x)));
  }

  lemma Right42OverXor(x: U64, y: U64)
    ensures Right42(Xor(x, y)) == Xor(Right42(x), Right42(y))
  {
    assert (x ^ y) >> 42 == (x >> 42) ^ (y >> 42);
  }

  lemma Right42Twice(x: U64)
    ensures Right42(Right42(x)) == 0
  {
  }

  lemma Shift42Twice(x: U64)
    ensures Shift42(Shift42(x)) == x
  {
    hide Xor, Right42;
    Right42OverXor(x, Right42(x));
    Right42Twice(x);
    XorTelescopes(x, Right42(x), Right42(Right42(x)));
    XorZero(x);
  }

  lemma Left35OverXor(x: U64, y: U64)
    ensures Left35(Xor(x, y)) == Xor(Left35(x), Left35(y))
  {
    assert (x ^ y) << 35 == (x << 35) ^ (y << 35);
  }

  lemma Left35Twice(x: U64)
    ensures Left35(Left35(x)) == 0
  {
  }

  lemma Shift35Twice(x: U64)
    ensures Shift35(Shift35(x)) == x
  {
    hide Xor, Left35;
    Left35OverXor(x, Left35(x));
    Left35Twice(x);
    XorTelescopes(x, Left35(x), Left35(Left35(x)));
    XorZero(x);
  }

  lemma ShiftsDouble(x: U64)
    ensures Shift21(Shift21(x)) == Shift42(x) && Shift42(Shift42(x)) == x && Shift35(Shift35(x)) == x
    ensures Shift4(Shift4(x)) == Shift8(x) && Shift8(Shift8(x)) == Shift16(x)
    ensures Shift16(Shift16(x)) == Shift32(x) && Shift32(Shift32(x)) == x
  {
    hide Shift21, Shift35, Shift4, Shift42, Shift8, Shift16, Shift32;
    Shift4Twice(x);
    Shift8Twice(x);
    Shift16Twice(x);
    Shift32Twice(x);
    Shift21Twice(x);
    Shift42Twice(x);
    Shift35Twice(x);
  }

  lemma UnmixedIsLeftInverse(x: U64)
    ensures Unmixed(Mixed(x)) == x
  {
    hide Shift21, Shift35, Shift4, Shift42, Shift8, Shift16, Shift32;
    var a := Shift21(x);
    var b := Shift35(a);
    ShiftsDouble(b);
    ShiftsDouble(Shift8(b));
    ShiftsDouble(Shift16(b));
    ShiftsDouble(a);
    ShiftsDouble(x);
  }

  lemma UnmixedIsRightInverse(y: U64)
    ensures Mixed(Unmixed(y)) == y
  {
    hide Shift21, Shift35, Shift4, Shift42, Shift8, Shift16, Shift32;
    // A right inverse of each step; a left inverse that meets a right inverse equals it.
    var z := Shift4(Shift8(Shift16(Shift32(y))));
    ShiftsDouble(Shift8(Shift16(Shift32(y))));
    ShiftsDouble(Shift16(Shift32(y)));
    ShiftsDouble(Shift32(y));
    ShiftsDouble(y);
    assert Shift4(z) == y;
    ShiftsDouble(z);
    ShiftsDouble(Shift8(z));
    ShiftsDouble(Shift16(z));
    assert Unshift4(y) == z;
    var u := Shift35(z);
    ShiftsDouble(z);
    var v := Shift21(Shift42(u));
    ShiftsDouble(Shift42(u));
    ShiftsDouble(u);
    assert Shift21(v) == u;
    ShiftsDouble(v);
    assert Unshift21(u) == v;
  }

  lemma PlusCancels(x: U64, y: U64)
    ensures Minus(Plus(x, y), y) == x && Minus(Plus(x, y), x) == y
    ensures Plus(Minus(x, y), y) == x && Plus(y, Minus(x, y)) == x
  {
    assert (x + y) - y == x && (x + y) - x == y && (x - y) + y == x && y + (x - y) == x;
  }

  /**
   One update maps 64-bit states one to one for each value, and values one to one for each state:
   the other argument can always be computed back from the result.
   */
  lemma UpdateIsBijective(already: U64, value: U64, result: U64)
    ensures Updated(already, value) == result <==> already == Unmixed(Minus(result, value))
    ensures Updated(already, value) == result <==> value == Minus(result, Mixed(already))
  {
    hide Plus, Minus, Mixed, Unmixed;
    PlusCancels(Mixed(already), value);
    PlusCancels(result, value);
    PlusCancels(result, Mixed(already));
    UnmixedIsLeftInverse(already);
    UnmixedIsRightInverse(Minus(result, value));
  }

  // ----- which function it is -----

  /** The mixing is linear over the bits, so its images of single bits, below in numbers, determine it. */
  lemma MixedIsLinear(x: U64, y: U64)
    ensures Mixed(Xor(x, y)) == Xor(Mixed(x), Mixed(y))
  {
    hide Xor, Shift21, Shift35, Shift4;
    ShiftsAreLinear(x, y);
    ShiftsAreLinear(Shift21(x), Shift21(y));
    ShiftsAreLinear(Shift35(Shift21(x)), Shift35(Shift21(y)));
  }

  lemma ShiftsAreLinear(x: U64, y: U64)
    ensures Shift21(Xor(x, y)) == Xor(Shift21(x), Shift21(y))
    ensures Shift35(Xor(x, y)) == Xor(Shift35(x), Shift35(y))
    ensures Shift4(Xor(x, y)) == Xor(Shift4(x), Shift4(y))
  {
    hide Xor, Right21, Left35, Right4;
    Right21OverXor(x, y);
    Left35OverXor(x, y);
    Right4OverXor(x, y);
    XorsRegroup(x, y, Right21(x), Right21(y));
    XorsRegroup(x, y, Left35(x), Left35(y));
    XorsRegroup(x, y, Right4(x), Right4(y));
  }

  lemma XorsRegroup(x: U64, y: U64, s: U64, t: U64)
    ensures Xor(Xor(x, y), Xor(s, t)) == Xor(Xor(x, s), Xor(y, t))
  {
    hide Xor;
    XorMoves(x, y, Xor(s, t));
    XorMoves(y, s, t);
    XorMoves(x, s, Xor(y, t));
    XorMoves(s, y, t);
    XorCommutes(y, s);
  }

  lemma XorMoves(x: U64, y: U64, z: U64)
    ensures Xor(Xor(x, y), z) == Xor(x, Xor(y, z))
  {
    assert (x ^ y) ^ z == x ^ (y ^ z);
  }

  lemma XorCommutes(x: U64, y: U64)
    ensures Xor(x, y) == Xor(y, x)
  {
  }

  lemma MixedOfBits0To15()
    ensures Mixed(0x1) == 0x8_8000_0001 && Mixed(0x2) == 0x11_0000_0002
    ensures Mixed(0x4) == 0x22_0000_0004 && Mixed(0x8) == 0x44_0000_0008
    ensures Mixed(0x10) == 0x88_0000_0011 && Mixed(0x20) == 0x110_0000_0022
    ensures Mixed(0x40) == 0x220_0000_0044 && Mixed(0x80) == 0x440_0000_0088
    ensures Mixed(0x100) == 0x880_0000_0110 && Mixed(0x200) == 0x1100_0000_0220
    ensures Mixed(0x400) == 0x2200_0000_0440 && Mixed(0x800) == 0x4400_0000_0880
    ensures Mixed(0x1000) == 0x8800_0000_1100 && Mixed(0x2000) == 0x1_1000_0000_2200
    ensures Mixed(0x4000) == 0x2_2000_0000_4400 && Mixed(0x8000) == 0x4_4000_0000_8800
  {
  }

  lemma MixedOfBits16To31()
    ensures Mixed(0x1_0000) == 0x8_8000_0001_1000 && Mixed(0x2_0000) == 0x11_0000_0002_2000
    ensures Mixed(0x4_0000) == 0x22_0000_0004_4000 && Mixed(0x8_0000) == 0x44_0000_0008_8000
    ensures Mixed(0x10_0000) == 0x88_0000_0011_0000 && Mixed(0x20_0000) == 0x110_0008_8022_0001
    ensures Mixed(0x40_0000) == 0x220_0011_0044_0002 && Mixed(0x80_0000) == 0x440_0022_0088_0004
    ensures Mixed(0x100_0000) == 0x880_0044_0110_0008 && Mixed(0x200_0000) == 0x1100_0088_0220_0011
    ensures Mixed(0x400_0000) == 0x2200_0110_0440_0022 && Mixed(0x800_0000) == 0x4400_0220_0880_0044
    ensures Mixed(0x1000_0000) == 0x8800_0440_1100_0088 && Mixed(0x2000_0000) == 0x880_2200_0110
    ensures Mixed(0x4000_0000) == 0x1100_4400_0220 && Mixed(0x8000_0000) == 0x2200_8800_0440
  {
  }

  lemma MixedOfBits32To47()
    ensures Mixed(0x1_0000_0000) == 0x4401_1000_0880 && Mixed(0x2_0000_0000) == 0x8802_2000_1100
    ensures Mixed(0x4_0000_0000) == 0x1_1004_4000_2200 && Mixed(0x8_0000_0000) == 0x2_2008_8000_4400
    ensures Mixed(0x10_0000_0000) == 0x4_4011_0000_8800 && Mixed(0x20_0000_0000) == 0x8_8022_0001_1000
    ensures Mixed(0x40_0000_0000) == 0x11_0044_0002_2000 && Mixed(0x80_0000_0000) == 0x22_0088_0004_4000
    ensures Mixed(0x100_0000_0000) == 0x44_0110_0008_8000 && Mixed(0x200_0000_0000) == 0x88_0220_0011_0000
    ensures Mixed(0x400_0000_0000) == 0x110_0440_0022_0000 && Mixed(0x800_0000_0000) == 0x220_0880_0044_0000
    ensures Mixed(0x1000_0000_0000) == 0x440_1100_0088_0000 && Mixed(0x2000_0000_0000) == 0x880_2200_0110_0000
    ensures Mixed(0x4000_0000_0000) == 0x1100_4400_0220_0000 && Mixed(0x8000_0000_0000) == 0x2200_8800_0440_0000
  {
  }

  lemma MixedOfBits48To63()
    ensures Mixed(0x1_0000_0000_0000) == 0x4401_1000_0880_0000 && Mixed(0x2_0000_0000_0000) == 0x8802_2000_1100_0000
    ensures Mixed(0x4_0000_0000_0000) == 0x4_4000_2200_0000 && Mixed(0x8_0000_0000_0000) == 0x8_8000_4400_0000
    ensures Mixed(0x10_0000_0000_0000) == 0x11_0000_8800_0000 && Mixed(0x20_0000_0000_0000) == 0x22_0001_1000_0000
    ensures Mixed(0x40_0000_0000_0000) == 0x44_0002_2000_0000 && Mixed(0x80_0000_0000_0000) == 0x88_0004_4000_0000
    ensures Mixed(0x100_0000_0000_0000) == 0x110_0008_8000_0000 && Mixed(0x200_0000_0000_0000) == 0x220_0011_0000_0000
    ensures Mixed(0x400_0000_0000_0000) == 0x440_0022_0000_0000 && Mixed(0x800_0000_0000_0000) == 0x880_0044_0000_0000
    ensures Mixed(0x1000_0000_0000_0000) == 0x1100_0088_0000_0000
    ensures Mixed(0x2000_0000_0000_0000) == 0x2200_0110_0000_0000
    ensures Mixed(0x4000_0000_0000_0000) == 0x4400_0220_0000_0000
    ensures Mixed(0x8000_0000_0000_0000) == 0x8800_0440_0000_0000
  {
  }

  // The sum is that of 64-bit numbers: it can be regrouped, bits that are not common stay, and equal ones carry.
  lemma PlusRegroups(x: U64, y: U64, z: U64)
    ensures Plus(x, Plus(y, z)) == Plus(Plus(x, y), z) && Plus(x, y) == Plus(y, x)
  {
  }

  lemma PlusOfBits(x: U64, y: U64)
    requires x & y == 0
    ensures Plus(x, y) == x ^ y
  {
  }

  lemma PlusCarries(x: U64)
    ensures Plus(x, x) == x << 1
  {
  }

  // ----- lists -----

  lemma {:induction false} FoldAppend(h: U64, a: seq<U64>, b: seq<U64>)
    ensures Fold(h, a + b) == Fold(Fold(h, a), b)
    decreases |b|
  {
    hide Updated;
    if |b| == 0 {
      assert a + b == a;
    } else {
      var front := b[..|b| - 1];
      assert (a + b)[..|a + b| - 1] == a + front && (a + b)[|a + b| - 1] == b[|b| - 1];
      FoldAppend(h, a, front);
    }
  }

  lemma HashAppend(list: seq<U64>, value: U64)
    ensures HashOf(list + [value]) == Updated(HashOf(list), value)
  {
  }

  lemma {:induction false} FoldIsInjective(h: U64, g: U64, list: seq<U64>)
    ensures Fold(h, list) == Fold(g, list) <==> h == g
    decreases |list|
  {
    hide Updated, Unmixed, Minus, Mixed;
    if |list| > 0 {
      var front, last := list[..|list| - 1], list[|list| - 1];
      FoldIsInjective(h, g, front);
      var result := Fold(h, list);
      UpdateIsBijective(Fold(h, front), last, result);
      UpdateIsBijective(Fold(g, front), last, result);
    }
  }

  lemma HashAround(before: seq<U64>, value: U64, after: seq<U64>)
    ensures HashOf(before + [value] + after) == Fold(Updated(HashOf(before), value), after)
  {
    hide Updated;
    FoldAppend(0, before + [value], after);
    HashAppend(before, value);
  }

  /** Lists of one length that differ in exactly one position have different hashes. */
  lemma OneDifferenceShows(a: seq<U64>, b: seq<U64>, i: nat)
    requires i < |a| == |b| && a[i] != b[i]
    requires forall j :: 0 <= j < |a| && j != i ==> a[j] == b[j]
    ensures HashOf(a) != HashOf(b)
  {
    hide Updated, Minus, Mixed, Unmixed;
    var before, after := a[..i], a[i + 1..];
    assert a == before + [a[i]] + after;
    assert b == before + [b[i]] + after;
    HashAround(before, a[i], after);
    HashAround(before, b[i], after);
    var h := HashOf(before);
    UpdateIsBijective(h, a[i], Updated(h, a[i]));
    UpdateIsBijective(h, b[i], Updated(h, a[i]));
    FoldIsInjective(Updated(h, a[i]), Updated(h, b[i]), after);
  }

  // The state before `after` from which folding it gives `result`.
  function Unfold(result: U64, after: seq<U64>): U64
    decreases |after|
  {
    if |after| == 0 then result
    else Unfold(Unmixed(Minus(result, after[|after| - 1])), after[..|after| - 1])
  }

  lemma {:induction false} UnfoldInverts(result: U64, after: seq<U64>)
    ensures Fold(Unfold(result, after), after) == result
    decreases |after|
  {
    hide Updated, Minus, Unmixed, Mixed;
    if |after| > 0 {
      var front, last := after[..|after| - 1], after[|after| - 1];
      var before := Unmixed(Minus(result, last));
      UnfoldInverts(before, front);
      UpdateIsBijective(before, last, result);
    }
  }

  /** At every position, whatever the rest of the list, exactly one value gives a wanted hash. */
  lemma EveryHashIsReached(before: seq<U64>, after: seq<U64>, result: U64, value: U64)
    ensures HashOf(before + [value] + after) == result
       <==> value == Minus(Unfold(result, after), Mixed(HashOf(before)))
  {
    hide Updated, Minus, Unmixed, Mixed, Unfold;
    HashAround(before, value, after);
    var state := Unfold(result, after);
    UnfoldInverts(result, after);
    FoldIsInjective(Updated(HashOf(before), value), state, after);
    UpdateIsBijective(HashOf(before), value, state);
  }

  /** Two differences can cancel: exactly one position is the most the hash promises. */
  lemma TwoDifferencesCanCancel()
    ensures HashOf([1, 0]) == HashOf([0, Mixed(1)]) && Mixed(1) != 0
  {
    hide Mixed;
    MixedZero();
    FoldTwo(1, 0);
    FoldTwo(0, Mixed(1));
    assert Plus(0, 1) == 1 && Plus(0, 0) == 0 && Plus(Mixed(1), 0) == Mixed(1) && Plus(0, Mixed(1)) == Mixed(1);
    UnmixedIsLeftInverse(1);
    UnmixedIsLeftInverse(0);
  }

  lemma MixedZero()
    ensures Mixed(0) == 0
  {
    assert Right21(0) == 0 && Left35(0) == 0 && Right4(0) == 0 && Xor(0, 0) == 0;
  }

  lemma FoldTwo(a: U64, b: U64)
    ensures HashOf([a, b]) == Updated(Updated(0, a), b)
  {
    hide Updated;
    assert [] + [a] == [a] && [a] + [b] == [a, b];
    HashAppend([], a);
    HashAppend([a], b);
  }

  // ----- the code -----

  method HashUpdate(already: U64, value: U64) returns (result: U64)
    ensures result == Updated(already, value)
  {
    hide Xor, Right21, Left35, Right4, Plus;
    result := already;
    result := Xor(result, Right21(result));
    result := Xor(result, Left35(result));
    result := Xor(result, Right4(result));
    result := Plus(result, value);
  }

  method CountHash(range: seq<U64>) returns (result: U64)
    ensures result == HashOf(range)
  {
    hide Updated;
    result := 0;
    for i := 0 to |range|
      invariant result == HashOf(range[..i])
    {
      result := HashUpdate(result, range[i]);
      HashAppend(range[..i], range[i]);
      assert range[..i + 1] == range[..i] + [range[i]];
    }
    assert range[..|range|] == range;
  }

  // ----- the sticker counters -----

  datatype StickersSet = StickersSet(id: U64, hash: U64, special: bool, archived: bool, unread: bool,
                                     stickers: seq<U64>)

  type Sets = map<U64, StickersSet>

  const DEFAULT_SET_ID: U64 := 0

  predicate IsDefault(sets: Sets, id: U64) {
    id in sets && sets[id].id == DEFAULT_SET_ID
  }

  predicate IsCounted(sets: Sets, id: U64) {
    id in sets && sets[id].id != DEFAULT_SET_ID && !sets[id].special && !sets[id].archived
  }

  // The hashes of the known, non-special, non-archived sets, in order.
  function CountedHashes(sets: Sets, order: seq<U64>): seq<U64> {
    if |order| == 0 then []
    else
      var last := order[|order| - 1];
      CountedHashes(sets, order[..|order| - 1]) + if IsCounted(sets, last) then [sets[last].hash] else []
  }

  lemma CountedOneMore(sets: Sets, order: seq<U64>, i: nat)
    requires i < |order|
    ensures CountedHashes(sets, order[..i + 1])
         == if IsCounted(sets, order[i]) then CountedHashes(sets, order[..i]) + [sets[order[i]].hash]
            else CountedHashes(sets, order[..i])
  {
    assert order[..i + 1][..i] == order[..i];
    assert CountedHashes(sets, order[..i]) + [] == CountedHashes(sets, order[..i]);
  }

  // Which sets are counted; `CountedHashesSplit` makes it so for any order, piece by piece.
  lemma CountedOfOne(sets: Sets, id: U64)
    ensures CountedHashes(sets, [id])
         == if id in sets && sets[id].id != 0 && !sets[id].special && !sets[id].archived then [sets[id].hash] else []
  {
  }

  method CountStickersOrderHash(sets: Sets, order: seq<U64>, checkOutdatedInfo: bool) returns (r: U64)
    ensures r == if checkOutdatedInfo && (exists id :: id in order && IsDefault(sets, id)) then 0
                 else HashOf(CountedHashes(sets, order))
  {
    hide Updated;
    var result, foundOutdated := 0, false;
    for i := 0 to |order|
      invariant foundOutdated <==> exists j :: 0 <= j < i && IsDefault(sets, order[j])
      invariant result == HashOf(CountedHashes(sets, order[..i]))
    {
      CountedOneMore(sets, order, i);
      ghost var before := CountedHashes(sets, order[..i]);
      if order[i] in sets {
        var known := sets[order[i]];
        if known.id == DEFAULT_SET_ID {
          foundOutdated := true;
        } else if !known.special && !known.archived {
          result := HashUpdate(result, known.hash);
          HashAppend(before, known.hash);
        }
      }
    }
    assert order[..|order|] == order;
    r := if !checkOutdatedInfo || !foundOutdated then result else 0;
  }

  // Every set id, followed by a 1 for an unread known set.
  function Flattened(sets: Sets, order: seq<U64>): seq<U64> {
    if |order| == 0 then []
    else
      var last := order[|order| - 1];
      Flattened(sets, order[..|order| - 1]) + [last] + if last in sets && sets[last].unread then [1] else []
  }

  lemma FlattenedOneMore(sets: Sets, order: seq<U64>, i: nat)
    requires i < |order|
    ensures Flattened(sets, order[..i + 1])
         == if order[i] in sets && sets[order[i]].unread then Flattened(sets, order[..i]) + [order[i]] + [1]
            else Flattened(sets, order[..i]) + [order[i]]
  {
    assert order[..i + 1][..i] == order[..i];
    var known := Flattened(sets, order[..i]) + [order[i]];
    assert known + [] == known;
  }

  method CountFeaturedHash(sets: Sets, order: seq<U64>) returns (result: U64)
    ensures result == HashOf(Flattened(sets, order))
  {
    hide Updated;
    result := 0;
    for i := 0 to |order|
      invariant result == HashOf(Flattened(sets, order[..i]))
    {
      FlattenedOneMore(sets, order, i);
      ghost var before := Flattened(sets, order[..i]);
      result := HashUpdate(result, order[i]);
      HashAppend(before, order[i]);
      if order[i] in sets && sets[order[i]].unread {
        result := HashUpdate(result, 1);
        HashAppend(before + [order[i]], 1);
      }
    }
    assert order[..|order|] == order;
  }

  lemma {:induction false} FlattenedSplit(sets: Sets, a: seq<U64>, b: seq<U64>)
    ensures Flattened(sets, a + b) == Flattened(sets, a) + Flattened(sets, b)
    decreases |b|
  {
    if |b| == 0 {
      assert a + b == a;
    } else {
      assert (a + b)[..|a + b| - 1] == a + b[..|b| - 1];
      FlattenedSplit(sets, a, b[..|b| - 1]);
    }
  }

  lemma FlattenedOfOne(sets: Sets, id: U64)
    ensures Flattened(sets, [id]) == if id in sets && sets[id].unread then [id, 1] else [id]
  {
  }

  // `CountDocumentVectorHash`, and `CountSpecialStickerSetHash` over it.
  method CountSpecialStickerSetHash(sets: Sets, id: U64) returns (result: U64)
    ensures result == if id in sets then HashOf(sets[id].stickers) else 0
  {
    result := 0;
    if id in sets {
      result := CountHash(sets[id].stickers);
    }
  }

  // ----- what the sticker hash notices -----

  lemma {:induction false} CountedHashesSplit(sets: Sets, a: seq<U64>, b: seq<U64>)
    ensures CountedHashes(sets, a + b) == CountedHashes(sets, a) + CountedHashes(sets, b)
    decreases |b|
  {
    if |b| == 0 {
      assert a + b == a;
    } else {
      assert (a + b)[..|a + b| - 1] == a + b[..|b| - 1];
      CountedHashesSplit(sets, a, b[..|b| - 1]);
    }
  }

  ghost predicate SameExceptFor(sets: Sets, sets': Sets, id: U64) {
    forall x: U64 :: x != id ==> (x in sets <==> x in sets') && (x in sets ==> sets[x] == sets'[x])
  }

  lemma {:induction false} OtherSetsUncounted(sets: Sets, sets': Sets, id: U64, order: seq<U64>)
    requires id !in order && SameExceptFor(sets, sets', id)
    ensures CountedHashes(sets', order) == CountedHashes(sets, order)
    decreases |order|
  {
    if |order| > 0 {
      assert order[|order| - 1] in order;
      OtherSetsUncounted(sets, sets', id, order[..|order| - 1]);
    }
  }

  /** A new hash of one counted set, listed once, always changes the hash of the order. */
  lemma OneChangedSetShows(sets: Sets, sets': Sets, before: seq<U64>, id: U64, after: seq<U64>)
    requires IsCounted(sets, id) && IsCounted(sets', id) && sets[id].hash != sets'[id].hash
    requires SameExceptFor(sets, sets', id) && id !in before && id !in after
    ensures var order := before + [id] + after;
            HashOf(CountedHashes(sets, order)) != HashOf(CountedHashes(sets', order))
  {
    OtherSetsUncounted(sets, sets', id, before);
    OtherSetsUncounted(sets, sets', id, after);
    CountedOne(sets, before, id, after);
    CountedOne(sets', before, id, after);
    var a, b := CountedHashes(sets, before + [id] + after), CountedHashes(sets', before + [id] + after);
    OneDifferenceShows(a, b, |CountedHashes(sets, before)|);
  }

  lemma CountedOne(sets: Sets, before: seq<U64>, id: U64, after: seq<U64>)
    requires IsCounted(sets, id)
    ensures CountedHashes(sets, before + [id] + after)
         == CountedHashes(sets, before) + [sets[id].hash] + CountedHashes(sets, after)
  {
    CountedHashesSplit(sets, before + [id], after);
    CountedHashesSplit(sets, before, [id]);
    assert [id][..0] == [];
  }
}
