/**
 Forwarding a draft in batches of one source chat each, the stars charged for a message and the
 forwards after it, and the callback shared by the batches.
 */
module Forwarding {

  datatype Item = Item(peer: nat, id: int, savedMusic: bool)

  // One message of a batch, with the random id generated for it.
  datatype Part = Part(id: int, random: nat)

  datatype Batch = Batch(from: nat, parts: seq<Part>, stars: int)

  datatype Forwarded = Forwarded(peer: nat, part: Part)

  const INT_MAX: int := 0x7fff_ffff

  // `int(...)` of a 64-bit value.
  function ToInt(n: int): int {
    (n + 0x8000_0000) % 0x1_0000_0000 - 0x8000_0000
  }

  // It fits an `int`, and is the same but for whole multiples of 2^32.
  lemma ToIntWraps(n: int)
    ensures -0x8000_0000 <= ToInt(n) <= 0x7fff_ffff && (n - ToInt(n)) % 0x1_0000_0000 == 0
  {
  }

  function Min(a: int, b: int): (m: int)
    ensures m <= a && m <= b && (m == a || m == b)
  {
    if b < a then b else a
  }

  // ----- batches -----

  function Flat(batches: seq<Batch>): seq<Forwarded> {
    if |batches| == 0 then []
    else
      var last := batches[|batches| - 1];
      Flat(batches[..|batches| - 1]) + Parts(last.from, last.parts)
  }

  function Parts(from: nat, parts: seq<Part>): (s: seq<Forwarded>)
    ensures |s| == |parts|
  {
    seq(|parts|, i requires 0 <= i < |parts| => Forwarded(from, parts[i]))
  }

  // What has to be forwarded: the items in order, each with its random id.
  function Wanted(items: seq<Item>, randoms: seq<nat>): (s: seq<Forwarded>)
    requires |items| == |randoms|
    ensures |s| == |items|
  {
    seq(|items|, i requires 0 <= i < |items| => Forwarded(items[i].peer, Part(items[i].id, randoms[i])))
  }

  // Non-empty batches, no two neighbours of one chat.
  predicate MaximalRuns(batches: seq<Batch>) {
    && (forall i :: 0 <= i < |batches| ==> batches[i].parts != [])
    && (forall i :: 0 <= i < |batches| - 1 ==> batches[i].from != batches[i + 1].from)
  }

  /** Splitting into maximal runs is unique: the batches are determined by what is forwarded. */
  lemma {:induction false} RunsAreUnique(a: seq<Batch>, b: seq<Batch>)
    requires MaximalRuns(a) && MaximalRuns(b) && Flat(a) == Flat(b)
    ensures |a| == |b| && forall i :: 0 <= i < |a| ==> a[i].from == b[i].from && a[i].parts == b[i].parts
    decreases |a|
  {
    FlatLength(a);
    FlatLength(b);
    if |a| > 0 && |b| > 0 {
      var x, y := a[|a| - 1], b[|b| - 1];
      var a', b' := a[..|a| - 1], b[..|b| - 1];
      LastRunsAgree(a', x, b', y);
      RunsAreUnique(a', b');
    }
  }

  lemma {:induction false} FlatLength(a: seq<Batch>)
    requires MaximalRuns(a)
    ensures |Flat(a)| >= |a|
    ensures |a| > 0 ==> Flat(a)[|Flat(a)| - 1].peer == a[|a| - 1].from
  {
    if |a| > 0 { FlatLength(a[..|a| - 1]); }
  }

  lemma {:induction false} LastRunsAgree(a: seq<Batch>, x: Batch, b: seq<Batch>, y: Batch)
    requires MaximalRuns(a + [x]) && MaximalRuns(b + [y])
    requires Flat(a) + Parts(x.from, x.parts) == Flat(b) + Parts(y.from, y.parts)
    ensures x.from == y.from && x.parts == y.parts && Flat(a) == Flat(b)
  {
    RunPrefix(a, x);
    RunPrefix(b, y);
    var flat, p, q := Flat(a) + Parts(x.from, x.parts), Parts(x.from, x.parts), Parts(y.from, y.parts);
    assert flat[|flat| - 1] == p[|p| - 1] == q[|q| - 1];
    if |p| < |q| {
      LongerRun(a, x, b, y);
      assert false;
    } else if |q| < |p| {
      LongerRun(b, y, a, x);
      assert false;
    } else {
      assert Flat(a) == flat[..|flat| - |p|] == Flat(b);
      assert p == flat[|flat| - |p|..] == q;
      forall i | 0 <= i < |x.parts| ensures x.parts[i] == y.parts[i] {
        assert p[i] == q[i];
      }
    }
  }

  lemma {:induction false} RunPrefix(a: seq<Batch>, x: Batch)
    requires MaximalRuns(a + [x])
    ensures MaximalRuns(a) && x.parts != [] && (|a| > 0 ==> a[|a| - 1].from != x.from)
  {
    assert forall i :: 0 <= i < |a| ==> (a + [x])[i] == a[i];
    assert (a + [x])[|a|] == x;
  }

  // If a last run is the longer one, the run before the shorter one is of the same chat.
  lemma {:induction false} LongerRun(a: seq<Batch>, x: Batch, b: seq<Batch>, y: Batch)
    requires MaximalRuns(a) && x.from == y.from && |x.parts| < |y.parts|
    requires Flat(a) + Parts(x.from, x.parts) == Flat(b) + Parts(y.from, y.parts)
    ensures |a| > 0 && a[|a| - 1].from == x.from
  {
    FlatLength(a);
    var flat, p, q := Flat(a) + Parts(x.from, x.parts), Parts(x.from, x.parts), Parts(y.from, y.parts);
    assert |Flat(a)| > |Flat(b)|;
    var k := |Flat(a)| - 1;
    assert flat[k] == Flat(a)[k];
    assert flat[k] == q[k - |Flat(b)|];
  }

  // ----- stars -----

  function Cost(price: nat, n: nat): nat { price * n }

  function Charge(approved: int, count: nat, price: nat): int {
    Min(approved, ToInt(Cost(price, count)))
  }

  // What n messages should cost.
  function Due(approved: int, price: nat, n: nat): int {
    Min(approved, Cost(price, n))
  }

  // m songs, each charged on a copy of the approval.
  function SongsCharge(approved: int, price: nat, m: nat): int {
    m * Min(price, approved)
  }

  function Stars(batches: seq<Batch>): int {
    if |batches| == 0 then 0 else Stars(batches[..|batches| - 1]) + batches[|batches| - 1].stars
  }

  /** What a batch is charged is the least of approval and price exactly while the price fits an `int`,
      or the approval is below what is left of it. */
  lemma ChargeIsExact(approved: nat, count: nat, price: nat)
    ensures Charge(approved, count, price) == Due(approved, price, count)
       <==> Cost(price, count) <= INT_MAX || approved <= ToInt(Cost(price, count))
  {
  }

  // A product that does not fit: a negative charge, which raises the approval.
  lemma ChargeCanBeNegative()
    ensures Charge(5, 2, 0x4000_0000) < 0
  {
  }

  // Each batch was charged from what those before it left of the approval.
  ghost predicate ChargedInTurn(batches: seq<Batch>, left: int, approved: nat, price: nat) {
    && left == approved - Stars(batches)
    && (forall i :: 0 <= i < |batches| ==>
          batches[i].stars == Charge(LeftFor(batches, i, approved), |batches[i].parts|, price))
  }

  function LeftFor(batches: seq<Batch>, i: nat, approved: nat): int
    requires i <= |batches|
  {
    approved - Stars(batches[..i])
  }

  // The condition of `ChargeIsExact` for one batch.
  predicate IsExact(batches: seq<Batch>, i: nat, approved: nat, price: nat)
    requires i < |batches|
  {
    var due := Cost(price, |batches[i].parts|);
    due <= INT_MAX || LeftFor(batches, i, approved) <= ToInt(due)
  }

  ghost predicate EachExact(batches: seq<Batch>, approved: nat, price: nat) {
    forall i :: 0 <= i < |batches| ==> IsExact(batches, i, approved, price)
  }

  // Everything charged so far.
  ghost predicate ChargedSoFar(batches: seq<Batch>, left: int, approved: nat, price: nat, sent: nat) {
    left >= 0 && Stars(batches) == approved - left == Due(approved, price, sent)
  }

  lemma ChargedFront(batches: seq<Batch>, left: int, approved: nat, price: nat)
    requires |batches| > 0 && ChargedInTurn(batches, left, approved, price)
    ensures var k := |batches| - 1;
            && ChargedInTurn(batches[..k], LeftFor(batches, k, approved), approved, price)
            && left == LeftFor(batches, k, approved) - Charge(LeftFor(batches, k, approved), |batches[k].parts|, price)
            && |Flat(batches)| == |Flat(batches[..k])| + |batches[k].parts|
            && forall i :: 0 <= i < k ==>
                 (IsExact(batches[..k], i, approved, price) <==> IsExact(batches, i, approved, price))
  {
    hide Charge, IsExact;
    var k := |batches| - 1;
    forall i | 0 <= i < k
      ensures batches[..k][i] == batches[i] && LeftFor(batches[..k], i, approved) == LeftFor(batches, i, approved)
      ensures IsExact(batches[..k], i, approved, price) <==> IsExact(batches, i, approved, price)
    {
      SameFront(batches, k, i, approved, price);
    }
  }

  lemma SameFront(batches: seq<Batch>, k: nat, i: nat, approved: nat, price: nat)
    requires i < k <= |batches|
    ensures batches[..k][i] == batches[i] && LeftFor(batches[..k], i, approved) == LeftFor(batches, i, approved)
    ensures IsExact(batches[..k], i, approved, price) <==> IsExact(batches, i, approved, price)
  {
    assert batches[..k][..i] == batches[..i];
  }

  // Whatever the price, the approval never goes below zero.
  lemma {:induction false} ApprovalStays(batches: seq<Batch>, left: int, approved: nat, price: nat)
    requires ChargedInTurn(batches, left, approved, price)
    ensures left >= 0
    decreases |batches|
  {
    if |batches| > 0 {
      ChargedFront(batches, left, approved, price);
      ApprovalStays(batches[..|batches| - 1], LeftFor(batches, |batches| - 1, approved), approved, price);
    }
  }

  // Batches that are each charged right are charged right together.
  lemma {:induction false} ExactBatchesAddUp(batches: seq<Batch>, left: int, approved: nat, price: nat)
    requires ChargedInTurn(batches, left, approved, price)
    requires EachExact(batches, approved, price)
    ensures ChargedSoFar(batches, left, approved, price, |Flat(batches)|)
    decreases |batches|
  {
    hide Flat, ToInt, Charge, Due, Cost;
    if |batches| == 0 {
      NoneCharged(approved, price);
    } else {
      var k := |batches| - 1;
      var before, n := LeftFor(batches, k, approved), |batches[k].parts|;
      ChargedFront(batches, left, approved, price);
      ExactBatchesAddUp(batches[..k], before, approved, price);
      assert IsExact(batches, k, approved, price);
      OneMoreCharged(approved, before, |Flat(batches[..k])|, n, price);
    }
  }

  lemma NoneCharged(approved: nat, price: nat)
    ensures Due(approved, price, 0) == 0 && Flat([]) == []
  {
  }

  lemma OneMoreCharged(approved: nat, left: nat, sent: nat, n: nat, price: nat)
    requires approved - left == Due(approved, price, sent)
    requires Cost(price, n) <= INT_MAX || left <= ToInt(Cost(price, n))
    ensures var stars := Charge(left, n, price);
            left - stars >= 0 && approved - (left - stars) == Due(approved, price, sent + n)
  {
    ChargeIsExact(left, n, price);
    assert Cost(price, sent + n) == Cost(price, sent) + Cost(price, n);
    hide ToInt, Cost;
  }

  // What is enough for that: no batch of the draft costs more than an `int` holds.
  predicate EachFits(batches: seq<Batch>, price: nat) {
    forall i :: 0 <= i < |batches| ==> Cost(price, |batches[i].parts|) <= INT_MAX
  }

  lemma {:induction false} UnfitIsLarge(batches: seq<Batch>, price: nat, i: nat)
    requires i < |batches| && Cost(price, |batches[i].parts|) > INT_MAX
    ensures Cost(price, |Flat(batches)|) > INT_MAX
    decreases |batches|
  {
    var k := |batches| - 1;
    var sent, n := |Flat(batches[..k])|, |batches[k].parts|;
    assert Cost(price, |Flat(batches)|) == Cost(price, sent) + Cost(price, n);
    if i < k {
      UnfitIsLarge(batches[..k], price, i);
    }
  }

  /**
   Whether the batches leave `x` of the approval at most, by the converted prices alone: the price of any last
   batches and `x` are not below zero together, and those of all batches and `x` reach the approval.
   */
  predicate LeavesAtMost(batches: seq<Batch>, approved: nat, price: nat, x: int) {
    && x >= 0
    && if |batches| == 0 then approved <= x
       else
         var k := |batches| - 1;
         LeavesAtMost(batches[..k], approved, price, x + ToInt(Cost(price, |batches[k].parts|)))
  }

  /** This is what charging them in turn, each from what the ones before left, comes to. */
  lemma {:induction false} LeftIsAtMost(batches: seq<Batch>, left: int, approved: nat, price: nat, x: int)
    requires ChargedInTurn(batches, left, approved, price)
    ensures left <= x <==> LeavesAtMost(batches, approved, price, x)
    decreases |batches|
  {
    hide ToInt, Cost, Charge, Flat, IsExact, Stars, LeftFor;
    ApprovalStays(batches, left, approved, price);
    NoneLeft(batches, left, approved, price);
    if |batches| > 0 && x >= 0 {
      var k := |batches| - 1;
      var before, n := LeftFor(batches, k, approved), |batches[k].parts|;
      ChargedFront(batches, left, approved, price);
      LeftIsAtMost(batches[..k], before, approved, price, x + ToInt(Cost(price, n)));
      OneChargeLeaves(before, n, price, x);
    }
  }

  lemma NoneLeft(batches: seq<Batch>, left: int, approved: nat, price: nat)
    requires ChargedInTurn(batches, left, approved, price)
    ensures |batches| == 0 ==> left == approved
  {
  }

  lemma OneChargeLeaves(before: int, n: nat, price: nat, x: nat)
    ensures before - Charge(before, n, price) <= x <==> before <= x + ToInt(Cost(price, n))
  {
    hide ToInt, Cost;
  }

  /** The stars of all batches are the least of approval and price exactly when each batch fits an `int`,
      or the converted prices leave nothing of the approval. */
  lemma {:induction false} TotalIsRightIff(batches: seq<Batch>, left: int, approved: nat, price: nat)
    requires approved <= INT_MAX && ChargedInTurn(batches, left, approved, price)
    ensures Stars(batches) == Due(approved, price, |Flat(batches)|)
       <==> EachFits(batches, price) || LeavesAtMost(batches, approved, price, 0)
    ensures !EachFits(batches, price) ==> Due(approved, price, |Flat(batches)|) == approved
  {
    if EachFits(batches, price) {
      ExactBatchesAddUp(batches, left, approved, price);
    } else {
      var i :| 0 <= i < |batches| && Cost(price, |batches[i].parts|) > INT_MAX;
      UnfitIsLarge(batches, price, i);
      ApprovalStays(batches, left, approved, price);
      LeftIsAtMost(batches, left, approved, price, 0);
    }
  }

  // Two items of one chat at the largest price: 2^32 - 2 becomes -2, and the approval grows.
  lemma PairChargesLess(pair: Batch)
    requires |pair.parts| == 2 && pair.stars == -2
    ensures ChargedInTurn([pair], 12, 10, INT_MAX) && Stars([pair]) == -2 && Due(10, INT_MAX, 2) == 10
    ensures !EachFits([pair], INT_MAX) && !LeavesAtMost([pair], 10, INT_MAX, 0)
  {
    assert [pair][..0] == [];
  }

  // One item of another chat after it takes all that is left: 12, so 10 in all.
  lemma PairThenOneIsRight(pair: Batch, one: Batch)
    requires |pair.parts| == 2 && pair.stars == -2 && |one.parts| == 1 && one.stars == 12
    ensures var batches := [pair, one];
            && ChargedInTurn(batches, 0, 10, INT_MAX) && Stars(batches) == 10 == Due(10, INT_MAX, 3)
            && !EachFits(batches, INT_MAX) && LeavesAtMost(batches, 10, INT_MAX, 0)
  {
    var batches := [pair, one];
    assert batches[..1] == [pair] && [pair][..0] == [] == batches[..0];
    assert Stars([pair]) == -2;
    assert Cost(INT_MAX, |batches[0].parts|) > INT_MAX;
  }

  // ----- forwardMessages -----

  // The loop that drops saved music, sending each as a document of its own.
  method DropSavedMusic(items: seq<Item>, price: nat, approved: nat) returns (left: seq<Item>, charged: int)
    ensures left == WithoutMusic(items) && charged == SongsCharge(approved, price, |items| - |left|)
  {
    hide SongsCharge;
    NoSongs(approved, price);
    left, charged := [], 0;
    for i := 0 to |items|
      invariant left == WithoutMusic(items[..i]) && |left| <= i && charged == SongsCharge(approved, price, i - |left|)
    {
      assert items[..i + 1][..i] == items[..i];
      if items[i].savedMusic {
        OneMoreSong(approved, price, i - |left|);
        charged := charged + Min(price, approved);
      } else {
        left := left + [items[i]];
      }
    }
    assert items[..|items|] == items;
  }

  lemma OneMoreSong(approved: int, price: nat, m: nat)
    ensures SongsCharge(approved, price, m + 1) == SongsCharge(approved, price, m) + Min(price, approved)
  {
  }

  lemma NoSongs(approved: int, price: nat)
    ensures SongsCharge(approved, price, 0) == 0
  {
  }

  function WithoutMusic(items: seq<Item>): (s: seq<Item>)
    ensures |s| <= |items|
    ensures (forall i :: 0 <= i < |items| ==> !items[i].savedMusic) ==> s == items
  {
    if |items| == 0 then []
    else
      var front, last := WithoutMusic(items[..|items| - 1]), items[|items| - 1];
      if last.savedMusic then front else front + [last]
  }

  // Which items are left, in which order: each that is no saved music, piece by piece.
  lemma {:induction false} WithoutMusicSplits(a: seq<Item>, b: seq<Item>)
    ensures WithoutMusic(a + b) == WithoutMusic(a) + WithoutMusic(b)
    decreases |b|
  {
    if |b| == 0 {
      assert a + b == a;
    } else {
      assert (a + b)[..|a + b| - 1] == a + b[..|b| - 1];
      WithoutMusicSplits(a, b[..|b| - 1]);
    }
  }

  lemma WithoutMusicOfOne(item: Item)
    ensures WithoutMusic([item]) == if item.savedMusic then [] else [item]
  {
  }

  // `sendAccumulated`.
  method SendAccumulated(batches: seq<Batch>, from: nat, parts: seq<Part>, price: nat, approved: int)
    returns (sent: seq<Batch>, left: int)
    ensures var stars := Charge(approved, |parts|, price);
            sent == batches + [Batch(from, parts, stars)] && left == approved - stars
  {
    var starsPaid := Min(approved, ToInt(|parts| * price));
    left := approved;
    if starsPaid != 0 {
      left := left - starsPaid;
    }
    sent := batches + [Batch(from, parts, starsPaid)];
  }

  ghost predicate AccumulatedSoFar(batches: seq<Batch>, from: nat, parts: seq<Part>, items: seq<Item>,
                                   randoms: seq<nat>)
    requires |items| == |randoms|
  {
    && MaximalRuns(batches)
    && (|batches| > 0 ==> batches[|batches| - 1].from != from)
    && Flat(batches) + Parts(from, parts) == Wanted(items, randoms)
  }

  lemma BatchCloses(batches: seq<Batch>, from: nat, parts: seq<Part>, items: seq<Item>, randoms: seq<nat>, stars: int,
                    next: nat)
    requires |items| == |randoms| && AccumulatedSoFar(batches, from, parts, items, randoms) && parts != []
    ensures var sent := batches + [Batch(from, parts, stars)];
            && MaximalRuns(sent) && Flat(sent) == Wanted(items, randoms)
            && (next != from ==> AccumulatedSoFar(sent, next, [], items, randoms))
  {
  }

  lemma BatchCharges(batches: seq<Batch>, left: int, approved: nat, price: nat, from: nat, parts: seq<Part>)
    requires ChargedInTurn(batches, left, approved, price)
    ensures var stars := Charge(left, |parts|, price);
            ChargedInTurn(batches + [Batch(from, parts, stars)], left - stars, approved, price)
  {
    hide Charge;
    var more := batches + [Batch(from, parts, Charge(left, |parts|, price))];
    assert more[..|batches|] == batches == batches[..|batches|];
    forall i | 0 <= i < |more|
      ensures more[i].stars == Charge(LeftFor(more, i, approved), |more[i].parts|, price)
    {
      hide Stars;
      assert more[..i] == batches[..i];
    }
  }

  lemma PartAdded(batches: seq<Batch>, from: nat, parts: seq<Part>, items: seq<Item>, randoms: seq<nat>, i: nat)
    requires i < |items| == |randoms| && items[i].peer == from
    requires AccumulatedSoFar(batches, from, parts, items[..i], randoms[..i])
    ensures AccumulatedSoFar(batches, from, parts + [Part(items[i].id, randoms[i])], items[..i + 1], randoms[..i + 1])
  {
    var part := Part(items[i].id, randoms[i]);
    assert Parts(from, parts + [part]) == Parts(from, parts) + [Forwarded(from, part)];
    assert Wanted(items[..i + 1], randoms[..i + 1]) == Wanted(items[..i], randoms[..i]) + [Forwarded(from, part)];
  }

  lemma NothingAccumulated(from: nat, approved: nat, price: nat)
    ensures AccumulatedSoFar([], from, [], [], []) && ChargedInTurn([], approved, approved, price)
  {
  }

  /** The batches of a draft, and the approval left after them. */
  method ForwardBatches(items: seq<Item>, randoms: seq<nat>, price: nat, approved: nat)
    returns (batches: seq<Batch>, left: int)
    requires |items| > 0 && |items| == |randoms|
    ensures MaximalRuns(batches) && Flat(batches) == Wanted(items, randoms)
    ensures ChargedInTurn(batches, left, approved, price) && left >= 0
    ensures EachFits(batches, price) ==> ChargedSoFar(batches, left, approved, price, |items|)
    ensures approved <= INT_MAX ==>
              (Stars(batches) == Due(approved, price, |items|)
               <==> EachFits(batches, price) || LeavesAtMost(batches, approved, price, 0))
  {
    hide AccumulatedSoFar, ChargedInTurn, ChargedSoFar, Charge, MaximalRuns, Flat;
    batches, left := [], approved;
    var from, parts := items[0].peer, [];
    NothingAccumulated(from, approved, price);
    for i := 0 to |items|
      invariant |parts| <= i && (if i > 0 then parts != [] else from == items[0].peer)
      invariant AccumulatedSoFar(batches, from, parts, items[..i], randoms[..i])
      invariant ChargedInTurn(batches, left, approved, price)
    {
      if from != items[i].peer {
        BatchCharges(batches, left, approved, price, from, parts);
        BatchCloses(batches, from, parts, items[..i], randoms[..i], Charge(left, |parts|, price), items[i].peer);
        batches, left := SendAccumulated(batches, from, parts, price, left);
        from, parts := items[i].peer, [];
      }
      PartAdded(batches, from, parts, items, randoms, i);
      parts := parts + [Part(items[i].id, randoms[i])];
    }
    assert items[..|items|] == items && randoms[..|items|] == randoms;
    BatchCharges(batches, left, approved, price, from, parts);
    BatchCloses(batches, from, parts, items, randoms, Charge(left, |parts|, price), from);
    batches, left := SendAccumulated(batches, from, parts, price, left);
    ApprovalStays(batches, left, approved, price);
    if EachFits(batches, price) { ExactBatchesAddUp(batches, left, approved, price); }
    if approved <= INT_MAX { TotalIsRightIff(batches, left, approved, price); }
  }

  // ----- sendMessage, and the forwards after it -----

  function Sum(s: seq<int>): int {
    if |s| == 0 then 0 else Sum(s[..|s| - 1]) + s[|s| - 1]
  }

  // The loop over the text parts.
  method SendTexts(count: nat, price: nat, approved: nat) returns (stars: seq<int>, left: int)
    ensures |stars| == count && left >= 0 && Sum(stars) == approved - left == Due(approved, price, count)
  {
    stars, left := [], approved;
    while |stars| < count
      invariant |stars| <= count && left >= 0
      invariant Sum(stars) == approved - left == Due(approved, price, |stars|)
    {
      var starsPaid := Min(price, left);
      if starsPaid != 0 {
        left := left - starsPaid;
      }
      assert price * (|stars| + 1) == price * |stars| + price;
      assert (stars + [starsPaid])[..|stars|] == stars;
      stars := stars + [starsPaid];
    }
  }

  // When the stars of a message are right in all: while each batch fits an `int`, the songs alone decide;
  // otherwise what the batches leave has to be what the songs took.
  predicate MessageIsRight(approved: nat, texts: nat, batches: seq<Batch>, forwards: nat, songs: nat, price: nat) {
    var after := approved - Due(approved, price, texts);
    var music := SongsCharge(after, price, songs);
    if EachFits(batches, price) then SongsAreRight(approved, texts, forwards, songs, price)
    else LeavesAtMost(batches, after, price, music) && !LeavesAtMost(batches, after, price, music - 1)
  }

  lemma MessageTotal(approved: nat, texts: nat, batches: seq<Batch>, left: int, songs: nat, price: nat)
    requires approved <= INT_MAX && ChargedInTurn(batches, left, approved - Due(approved, price, texts), price)
    ensures var after, forwards := approved - Due(approved, price, texts), |Flat(batches)|;
            approved - after + SongsCharge(after, price, songs) + Stars(batches)
            == Due(approved, price, texts + forwards + songs)
            <==> MessageIsRight(approved, texts, batches, forwards, songs, price)
  {
    hide ToInt, Flat, Charge, LeavesAtMost, EachFits, SongsAreRight, SongsCharge;
    var after, forwards := approved - Due(approved, price, texts), |Flat(batches)|;
    var music := SongsCharge(after, price, songs);
    TotalIsRightIff(batches, left, after, price);
    if EachFits(batches, price) {
      MessageTotalIsRightIff(approved, texts, forwards, songs, price);
    } else {
      LeftIsAtMost(batches, left, after, price, music);
      LeftIsAtMost(batches, left, after, price, music - 1);
      DueOfMore(approved, after, texts, forwards, songs, price);
    }
  }

  // A total that takes all of what the first messages left, and more, takes all of the approval.
  lemma DueOfMore(approved: nat, after: nat, texts: nat, forwards: nat, songs: nat, price: nat)
    requires after == approved - Due(approved, price, texts) && Due(after, price, forwards) == after
    ensures Due(approved, price, texts + forwards + songs) == approved
  {
    TextsThenForwards(approved, texts, forwards, price);
    assert Cost(price, texts + forwards + songs) == Cost(price, texts + forwards) + Cost(price, songs);
  }

  /**
   `sendMessage` with the forward draft after it: the stars charged in all are the least of approval and price
   exactly under `MessageIsRight`.
   */
  method SendMessage(texts: nat, items: seq<Item>, randoms: seq<nat>, price: nat, approved: nat)
    returns (stars: seq<int>, music: int, batches: seq<Batch>, left: int)
    requires |randoms| == |WithoutMusic(items)|
    ensures |stars| == texts && left >= 0
    ensures MaximalRuns(batches) && Flat(batches) == Wanted(WithoutMusic(items), randoms)
    ensures var after := approved - Due(approved, price, texts);
            && after >= 0 && Sum(stars) == Due(approved, price, texts)
            && music == SongsCharge(after, price, |items| - |WithoutMusic(items)|)
            && ChargedInTurn(batches, left, after, price)
    ensures EachFits(batches, price) ==>
              Sum(stars) + Stars(batches) == approved - left == Due(approved, price, texts + |WithoutMusic(items)|)
    ensures var forwards := |WithoutMusic(items)|;
            approved <= INT_MAX ==>
              (Sum(stars) + music + Stars(batches) == Due(approved, price, texts + |items|)
               <==> MessageIsRight(approved, texts, batches, forwards, |items| - forwards, price))
  {
    hide MaximalRuns, Flat, Due, SongsCharge, Sum, Wanted, ChargedInTurn, EachFits, MessageIsRight;
    var after;
    stars, after := SendTexts(texts, price, approved);
    var forwarded;
    forwarded, music := DropSavedMusic(items, price, after);
    batches, left := [], after;
    NoBatches(after, price);
    if |forwarded| > 0 {
      batches, left := ForwardBatches(forwarded, randoms, price, after);
    }
    TextsThenForwards(approved, texts, |forwarded|, price);
    if approved <= INT_MAX { MessageTotal(approved, texts, batches, left, |items| - |forwarded|, price); }
  }

  lemma NoBatches(approved: nat, price: nat)
    ensures MaximalRuns([]) && Flat([]) == [] && Stars([]) == 0 && Wanted([], []) == []
    ensures ChargedInTurn([], approved, approved, price) && Due(approved, price, 0) == 0
  {
  }

  lemma TextsThenForwards(approved: nat, texts: nat, forwards: nat, price: nat)
    ensures var first := Due(approved, price, texts);
            first + Due(approved - first, price, forwards) == Due(approved, price, texts + forwards)
  {
    assert price * (texts + forwards) == price * texts + price * forwards;
  }

  // Saved music, charged on copies of what the texts left of the approval.
  lemma MusicOvercharges(approved: nat, n: nat, m: nat, price: nat)
    ensures SongsCharge(approved, price, m) + Due(approved, price, n) == Due(approved, price, n + m)
       <==> m == 0 || price == 0 || approved == 0 || price * (n + m) <= approved || (n == 0 && m == 1)
  {
  }

  // The texts leave enough for everything or nothing at all, or there is nothing to charge twice.
  predicate SongsAreRight(approved: nat, texts: nat, forwards: nat, songs: nat, price: nat) {
    var left := approved - Due(approved, price, texts);
    songs == 0 || price == 0 || left == 0 || price * (forwards + songs) <= left || (forwards == 0 && songs == 1)
  }

  /** The stars of a whole message, its texts first, are the least of approval and price exactly then. */
  lemma MessageTotalIsRightIff(approved: nat, texts: nat, forwards: nat, songs: nat, price: nat)
    ensures var first := Due(approved, price, texts);
            var left := approved - first;
            first + SongsCharge(left, price, songs) + Due(left, price, forwards)
            == Due(approved, price, texts + forwards + songs)
            <==> SongsAreRight(approved, texts, forwards, songs, price)
  {
    var left := approved - Due(approved, price, texts);
    MusicOvercharges(left, forwards, songs, price);
    TextsThenForwards(approved, texts, forwards + songs, price);
    assert texts + (forwards + songs) == texts + forwards + songs;
  }

  // Two songs for 5 stars each, with 5 approved: each takes the 5.
  lemma TwoSongsTakeTooMuch()
    ensures SongsCharge(5, 5, 2) == 10 && Due(5, 5, 2) == 5 && !SongsAreRight(5, 0, 0, 2, 5)
  {
  }

  // ----- the shared callback -----

  class SharedCallback {
    var requestsLeft: int
    var called: nat
    var owed: set<nat>        // the batches not answered yet
    ghost var failed: set<nat>

    ghost predicate Valid()
      reads this
    {
      && requestsLeft == |owed| + |failed|
      && called == if requestsLeft == 0 then 1 else 0
    }

    // All batches are sent, one after another, before any is answered.
    constructor (batches: nat)
      requires batches > 0
      ensures Valid() && failed == {}
      ensures forall i: nat :: i in owed <==> i < batches
    {
      requestsLeft, called, owed, failed := 0, 0, {}, {};
      new;
      while requestsLeft < batches
        invariant 0 <= requestsLeft == |owed| <= batches && called == 0 && failed == {}
        invariant forall i: nat :: i in owed <==> i < requestsLeft
      {
        owed := owed + {requestsLeft};
        requestsLeft := requestsLeft + 1;
      }
    }

    method Done(batch: nat)
      requires Valid() && batch in owed
      modifies this
      ensures Valid() && owed == old(owed) - {batch} && failed == old(failed)
      ensures called == if owed == {} && failed == {} then 1 else 0
    {
      owed := owed - {batch};
      requestsLeft := requestsLeft - 1;
      if requestsLeft == 0 {
        called := called + 1;
      }
    }

    method Fail(batch: nat)
      requires Valid() && batch in owed && batch !in failed
      modifies this
      ensures Valid() && owed == old(owed) - {batch} && failed == old(failed) + {batch} && called == 0
    {
      owed := owed - {batch};
      failed := failed + {batch};
    }
  }

  datatype Answer = Ok(batch: nat) | Failed(batch: nat)

  datatype Outcome = Waiting | Succeeded | Refused

  // What became of a batch: its first answer decides.
  function OutcomeOf(answers: seq<Answer>, batch: nat): Outcome {
    if |answers| == 0 then Waiting
    else
      var before, last := OutcomeOf(answers[..|answers| - 1], batch), answers[|answers| - 1];
      if before != Waiting || last.batch != batch then before else if last.Ok? then Succeeded else Refused
  }

  predicate AllSucceeded(answers: seq<Answer>, batches: nat) {
    forall b: nat :: b < batches ==> OutcomeOf(answers, b) == Succeeded
  }

  /** In any order of answers the callback runs once when all batches succeeded, and never otherwise. */
  method AnyAnswers(batches: nat, answers: seq<Answer>) returns (c: SharedCallback)
    requires batches > 0
    ensures c.Valid()
    ensures forall b: nat :: b in c.owed <==> b < batches && OutcomeOf(answers, b) == Waiting
    ensures c.called == if AllSucceeded(answers, batches) then 1 else 0
  {
    c := new SharedCallback(batches);
    for i := 0 to |answers|
      invariant c.Valid() && fresh(c)
      invariant c.called == if c.owed == {} && c.failed == {} then 1 else 0
      invariant forall b: nat :: b in c.owed <==> b < batches && OutcomeOf(answers[..i], b) == Waiting
      invariant forall b: nat :: b in c.failed <==> b < batches && OutcomeOf(answers[..i], b) == Refused
    {
      assert answers[..i + 1][..i] == answers[..i];
      if answers[i].batch in c.owed {
        if answers[i].Ok? {
          c.Done(answers[i].batch);
        } else {
          c.Fail(answers[i].batch);
        }
      }
    }
    assert answers[..|answers|] == answers;
  }

  /**
   `forwardMessages` with a callback. It runs at once when the draft is all saved music, and otherwise once if
   every batch is sent for and answered well, and never if one is not.
   */
  method ForwardMessages(items: seq<Item>, randoms: seq<nat>, price: nat, approved: nat, answers: seq<Answer>)
    returns (music: int, batches: seq<Batch>, called: nat)
    requires |items| > 0 && |randoms| == |WithoutMusic(items)|
    ensures music == SongsCharge(approved, price, |items| - |WithoutMusic(items)|)
    ensures MaximalRuns(batches) && Flat(batches) == Wanted(WithoutMusic(items), randoms)
    ensures called == if AllSucceeded(answers, |batches|) then 1 else 0
    ensures batches == [] <==> forall i :: 0 <= i < |items| ==> items[i].savedMusic
  {
    hide MaximalRuns, Flat, SongsCharge;
    var forwarded;
    forwarded, music := DropSavedMusic(items, price, approved);
    NoBatches(approved, price);
    OnlyMusic(items);
    if |forwarded| == 0 {
      batches, called := [], 1;
    } else {
      var left;
      batches, left := ForwardBatches(forwarded, randoms, price, approved);
      assert batches != [];
      var shared := AnyAnswers(|batches|, answers);
      called := shared.called;
    }
  }

  lemma {:induction false} OnlyMusic(items: seq<Item>)
    ensures WithoutMusic(items) == [] <==> forall i :: 0 <= i < |items| ==> items[i].savedMusic
  {
    if |items| > 0 { OnlyMusic(items[..|items| - 1]); }
  }
}
