/**
 The hand-written SHA-1 of the update packer, against FIPS 180-4.

 `Fips*` members are the standard (sections 4.1.1, 4.2.1, 5.1.1, 5.2.1, 5.3.1 and 6.1.2);
 the methods are the packer's own loops over `sha[5]`, `temp[80]` and the input buffer.
 */
module Sha1 {

  type Word = bv32
  type Byte = bv8

  // ----- the standard -----

  function Rotl1(x: Word): Word { (x << 1) | (x >> 31) }
  function Rotl5(x: Word): Word { (x << 5) | (x >> 27) }
  function Rotl30(x: Word): Word { (x << 30) | (x >> 2) }

  // Turning by one doubles the word and puts its top bit at the bottom.
  lemma TopBitClear(x: Word)
    requires x < 0x8000_0000
    ensures Rotl1(x) == x + x
  {
  }

  lemma TopBitSet(x: Word)
    requires x >= 0x8000_0000
    ensures Rotl1(x) == x + x + 1
  {
  }

  // Turning by 5 is done five times, and by 30 two turns less than all the way round.
  lemma RotlTurns(x: Word)
    ensures Rotl5(x) == Rotl1(Rotl1(Rotl1(Rotl1(Rotl1(x))))) && Rotl1(Rotl1(Rotl30(x))) == x
  {
  }

  function Plus(x: Word, y: Word): Word { x + y }

  function Or(x: Word, y: Word): Word { x | y }

  function Ch(x: Word, y: Word, z: Word): Word { (x & y) ^ (!x & z) }
  function Parity(x: Word, y: Word, z: Word): Word { x ^ y ^ z }
  function Maj(x: Word, y: Word, z: Word): Word { (x & y) ^ (x & z) ^ (y & z) }

  function FipsF(t: nat, x: Word, y: Word, z: Word): Word {
    if t < 20 then Ch(x, y, z)
    else if t < 40 then Parity(x, y, z)
    else if t < 60 then Maj(x, y, z)
    else Parity(x, y, z)
  }

  function FipsK(t: nat): Word {
    if t < 20 then 0x5a827999
    else if t < 40 then 0x6ed9eba1
    else if t < 60 then 0x8f1bbcdc
    else 0xca62c1d6
  }

  function NextWord(w3: Word, w8: Word, w14: Word, w16: Word): Word { Rotl1(w3 ^ w8 ^ w14 ^ w16) }

  // Section 6.1.2, step 1: the message schedule of one block.
  function Schedule(block: seq<Word>, t: nat): Word
    requires |block| == 16
  {
    if t < 16 then block[t]
    else NextWord(Schedule(block, t - 3), Schedule(block, t - 8),
                  Schedule(block, t - 14), Schedule(block, t - 16))
  }

  datatype Regs = Regs(a: Word, b: Word, c: Word, d: Word, e: Word)

  function RoundSum(a: Word, f: Word, e: Word, k: Word, w: Word): Word {
    Rotl5(a) + f + e + k + w
  }

  lemma RoundSumAdds(a: Word, f: Word, e: Word, k: Word, w: Word)
    ensures RoundSum(a, f, e, k, w) == w + (k + (f + (e + Rotl5(a))))
  {
  }

  // One or three of the bits are set.
  lemma ParityIs(x: Word, y: Word, z: Word)
    ensures Parity(x, y, z) == (x & y & z) | (x & !y & !z) | (!x & y & !z) | (!x & !y & z)
  {
  }

  lemma NextWordTurns(w3: Word, w8: Word, w14: Word, w16: Word)
    ensures NextWord(w3, w8, w14, w16) == Rotl1(w3) ^ Rotl1(w8) ^ Rotl1(w14) ^ Rotl1(w16)
  {
  }

  // Section 6.1.2, step 3, for one value of t.
  function FipsRound(r: Regs, t: nat, w: Word): Regs {
    Regs(RoundSum(r.a, FipsF(t, r.b, r.c, r.d), r.e, FipsK(t), w), r.a, Rotl30(r.b), r.c, r.d)
  }

  function Rounds(h: Regs, block: seq<Word>, t: nat): Regs
    requires |block| == 16
  {
    if t == 0 then h else FipsRound(Rounds(h, block, t - 1), t - 1, Schedule(block, t - 1))
  }

  function ToRegs(h: seq<Word>): Regs
    requires |h| == 5
  {
    Regs(h[0], h[1], h[2], h[3], h[4])
  }

  function Added(h: seq<Word>, r: Regs): seq<Word>
    requires |h| == 5
  {
    [Plus(h[0], r.a), Plus(h[1], r.b), Plus(h[2], r.c), Plus(h[3], r.d), Plus(h[4], r.e)]
  }

  // Section 6.1.2: the intermediate hash value after one more block.
  function FipsCompress(h: seq<Word>, block: seq<Word>): (r: seq<Word>)
    requires |h| == 5 && |block| == 16
    ensures |r| == 5
  {
    Added(h, Rounds(ToRegs(h), block, 80))
  }

  const FIPS_H0: seq<Word> := [0x67452301, 0xefcdab89, 0x98badcfe, 0x10325476, 0xc3d2e1f0]

  // Byte `pos` of a big-endian word: b << 8 * (3 - pos).
  function ShiftIn(b: Byte, pos: nat): Word
    requires pos < 4
  {
    if pos == 0 then (b as bv32) << 24
    else if pos == 1 then (b as bv32) << 16
    else if pos == 2 then (b as bv32) << 8
    else b as bv32
  }

  // Section 5.2.1: big-endian words.
  function BigEndian(b0: Byte, b1: Byte, b2: Byte, b3: Byte): Word {
    Or(Or(Or(ShiftIn(b0, 0), ShiftIn(b1, 1)), ShiftIn(b2, 2)), ShiftIn(b3, 3))
  }

  // The first byte is the highest.
  lemma BigEndianIs(b0: Byte, b1: Byte, b2: Byte, b3: Byte)
    ensures BigEndian(b0, b1, b2, b3)
         == (b0 as bv32) * 0x100_0000 + (b1 as bv32) * 0x1_0000 + (b2 as bv32) * 0x100 + (b3 as bv32)
  {
  }

  function WordAt(p: seq<Byte>, i: nat): Word
    requires 4 * i + 4 <= |p|
  {
    BigEndian(p[4 * i], p[4 * i + 1], p[4 * i + 2], p[4 * i + 3])
  }

  function BlockWords(p: seq<Byte>): (w: seq<Word>)
    requires |p| == 64
    ensures |w| == 16
  {
    seq(16, i requires 0 <= i < 16 => WordAt(p, i))
  }

  function FoldBlocks(h: seq<Word>, p: seq<Byte>): (r: seq<Word>)
    requires |h| == 5 && |p| % 64 == 0
    ensures |r| == 5
    decreases |p|
  {
    if |p| == 0 then h else FoldBlocks(FipsCompress(h, BlockWords(p[..64])), p[64..])
  }

  function WordBytes(w: Word): (b: seq<Byte>)
    ensures |b| == 4
  {
    [((w >> 24) & 0xff) as bv8, ((w >> 16) & 0xff) as bv8, ((w >> 8) & 0xff) as bv8, (w & 0xff) as bv8]
  }

  function Zeros(n: nat): (z: seq<Byte>)
    ensures |z| == n && forall i :: 0 <= i < n ==> z[i] == 0
  {
    seq(n, _ => 0 as bv8)
  }

  // Section 5.1.1: the number of zero bits after the single one bit, for a message of `bits` bits.
  function ZeroBits(bits: nat): (k: nat)
    ensures (bits + 1 + k) % 512 == 448
  {
    (448 - (bits + 1)) % 512
  }

  function LengthBytes(l: nat): (b: seq<Byte>)
    requires l < 0x1_0000_0000_0000_0000
    ensures |b| == 8
  {
    WordBytes((l / 0x1_0000_0000) as bv32) + WordBytes((l % 0x1_0000_0000) as bv32)
  }

  lemma PaddedLength(n: nat)
    ensures (n + 1 + ZeroBits(8 * n) / 8 + 8) % 64 == 0
  {
  }

  // A byte message, its one bit (0x80 holds it and seven zero bits), the other zero bits, and `l`
  // in the 64-bit length field. The standard puts the message's own bit length there.
  function PaddedWith(m: seq<Byte>, l: nat): (p: seq<Byte>)
    requires l < 0x1_0000_0000_0000_0000
    ensures |p| % 64 == 0
  {
    PaddedLength(|m|);
    m + [0x80] + Zeros(ZeroBits(8 * |m|) / 8) + LengthBytes(l)
  }

  function DigestBytes(h: seq<Word>): seq<Byte>
    requires |h| == 5
  {
    seq(20, i requires 0 <= i < 20 => WordBytes(h[i / 4])[i % 4])
  }

  function FipsSha1(m: seq<Byte>): seq<Byte>
    requires 8 * |m| < 0x1_0000_0000_0000_0000
  {
    DigestBytes(FoldBlocks(FIPS_H0, PaddedWith(m, 8 * |m|)))
  }

  // ----- the packer -----

  // The packer's round functions, two of them written with `|`.
  function OrCh(b: Word, c: Word, d: Word): Word { (b & c) | (!b & d) }
  function OrMaj(b: Word, c: Word, d: Word): Word { (b & c) | (b & d) | (c & d) }

  lemma OrFormsAgree(b: Word, c: Word, d: Word)
    ensures (b & c) | (!b & d) == (b & c) ^ (!b & d)
    ensures (b & c) | (b & d) | (c & d) == (b & c) ^ (b & d) ^ (c & d)
  {
  }

  lemma OrChIsCh(b: Word, c: Word, d: Word)
    ensures OrCh(b, c, d) == Ch(b, c, d)
  {
    OrFormsAgree(b, c, d);
  }

  lemma OrMajIsMaj(b: Word, c: Word, d: Word)
    ensures OrMaj(b, c, d) == Maj(b, c, d)
  {
    OrFormsAgree(b, c, d);
  }

  // Invariant of the five round loops.
  ghost predicate RoundsDone(r: Regs, h: Regs, block: seq<Word>, temp: seq<Word>, round: nat)
  {
    && |block| == 16 && |temp| == 80 && round <= 80
    && r == Rounds(h, block, round)
    && temp[..16] == block
    && (forall i :: 16 <= i < round ==> temp[i] == Schedule(block, i))
  }

  lemma ScheduleStep(block: seq<Word>, temp: seq<Word>, round: nat)
    requires |block| == 16 && |temp| == 80 && 16 <= round < 80
    requires temp[..16] == block
    requires forall i :: 16 <= i < round ==> temp[i] == Schedule(block, i)
    ensures Schedule(block, round)
         == NextWord(temp[round - 3], temp[round - 8], temp[round - 14], temp[round - 16])
  {
  }

  // `_shiftswap(f, v)`.
  method ShiftSwap(temp: array<Word>, r: Regs, round: nat, f: Word, v: Word) returns (next: Regs)
    requires round < temp.Length
    requires f == FipsF(round, r.b, r.c, r.d) && v == FipsK(round)
    ensures next == FipsRound(r, round, temp[round])
  {
    hide RoundSum, Rotl30, FipsF, FipsK;
    var a, b, c, d, e := r.a, r.b, r.c, r.d, r.e;
    var t := RoundSum(a, f, e, v, temp[round]);
    e := d;
    d := c;
    c := Rotl30(b);
    b := a;
    a := t;
    next := Regs(a, b, c, d, e);
  }

  // `_shiftshiftswap(f, v)`.
  method ShiftShiftSwap(temp: array<Word>, r: Regs, round: nat, f: Word, v: Word,
                        ghost h: Regs, ghost block: seq<Word>) returns (next: Regs)
    requires 16 <= round < 80
    requires RoundsDone(r, h, block, temp[..], round)
    requires f == FipsF(round, r.b, r.c, r.d) && v == FipsK(round)
    modifies temp
    ensures RoundsDone(next, h, block, temp[..], round + 1)
  {
    hide FipsRound, FipsF, FipsK, NextWord;
    ScheduleStep(block, temp[..], round);
    temp[round] := NextWord(temp[round - 3], temp[round - 8], temp[round - 14], temp[round - 16]);
    next := ShiftSwap(temp, r, round, f, v);
  }

  // Rounds 0 to 15 read the block as it is.
  method FirstRounds(temp: array<Word>, h: Regs) returns (r: Regs)
    requires temp.Length == 80
    ensures RoundsDone(r, h, temp[..16], temp[..], 16)
  {
    hide FipsRound, OrCh, Ch;
    var round := 0;
    r := h;
    ghost var block := temp[..16];
    while round < 16
      invariant 0 <= round <= 16
      invariant RoundsDone(r, h, block, temp[..], round)
    {
      OrChIsCh(r.b, r.c, r.d);
      assert temp[..16][round] == block[round];
      r := ShiftSwap(temp, r, round, OrCh(r.b, r.c, r.d), 0x5a827999);
      round := round + 1;
    }
  }

  // The five round loops of `sha1PartHash`, extending the schedule in place in `temp`.
  method RunRounds(temp: array<Word>, h: Regs) returns (r: Regs)
    requires temp.Length == 80
    modifies temp
    ensures r == Rounds(h, old(temp[..16]), 80)
    ensures temp[..16] == old(temp[..16])
  {
    hide FipsRound, OrCh, Ch, OrMaj, Maj, Parity, NextWord;
    var round := 16;
    ghost var block := temp[..16];
    r := FirstRounds(temp, h);
    while round < 20
      invariant 16 <= round <= 20
      invariant RoundsDone(r, h, block, temp[..], round)
    {
      OrChIsCh(r.b, r.c, r.d);
      r := ShiftShiftSwap(temp, r, round, OrCh(r.b, r.c, r.d), 0x5a827999, h, block);
      round := round + 1;
    }
    while round < 40
      invariant 16 <= round <= 40
      invariant RoundsDone(r, h, block, temp[..], round)
    {
      r := ShiftShiftSwap(temp, r, round, Parity(r.b, r.c, r.d), 0x6ed9eba1, h, block);
      round := round + 1;
    }
    while round < 60
      invariant 16 <= round <= 60
      invariant RoundsDone(r, h, block, temp[..], round)
    {
      OrMajIsMaj(r.b, r.c, r.d);
      r := ShiftShiftSwap(temp, r, round, OrMaj(r.b, r.c, r.d), 0x8f1bbcdc, h, block);
      round := round + 1;
    }
    while round < 80
      invariant 16 <= round <= 80
      invariant RoundsDone(r, h, block, temp[..], round)
    {
      r := ShiftShiftSwap(temp, r, round, Parity(r.b, r.c, r.d), 0xca62c1d6, h, block);
      round := round + 1;
    }
  }

  // The five `sha[i] += ...` at the end of `sha1PartHash`.
  method AddBack(sha: array<Word>, r: Regs)
    requires sha.Length == 5
    modifies sha
    ensures sha[..] == Added(old(sha[..]), r)
  {
    hide Plus;
    sha[0] := Plus(sha[0], r.a);
    sha[1] := Plus(sha[1], r.b);
    sha[2] := Plus(sha[2], r.c);
    sha[3] := Plus(sha[3], r.d);
    sha[4] := Plus(sha[4], r.e);
  }

  // `sha1PartHash`.
  method PartHash(sha: array<Word>, temp: array<Word>)
    requires sha.Length == 5 && temp.Length == 80 && sha != temp
    modifies sha, temp
    ensures sha[..] == FipsCompress(old(sha[..]), old(temp[..16]))
    ensures temp[..16] == old(temp[..16])
  {
    var r := RunRounds(temp, Regs(sha[0], sha[1], sha[2], sha[3], sha[4]));
    assert sha[..] == old(sha[..]);
    AddBack(sha, r);
  }

  // ----- the block loop -----

  // The inner loop over one full block of the input.
  method LoadBlock(data: array<Byte>, block: nat, temp: array<Word>)
    requires temp.Length == 80 && block + 64 <= data.Length
    modifies temp
    ensures temp[..16] == BlockWords(data[block..block + 64])
  {
    hide BigEndian;
    var i, at, end := 0, block, block + 64;
    ghost var p := data[block..end];
    while at < end
      invariant 0 <= i <= 16 && at == block + 4 * i
      invariant forall j :: 0 <= j < i ==> temp[j] == WordAt(p, j)
    {
      assert p[4 * i] == data[at] && p[4 * i + 1] == data[at + 1]
          && p[4 * i + 2] == data[at + 2] && p[4 * i + 3] == data[at + 3];
      temp[i] := BigEndian(data[at], data[at + 1], data[at + 2], data[at + 3]);
      i := i + 1;
      at := at + 4;
    }
  }

  // ----- the tail -----

  // The bytes so far, filled up with zeros to a block.
  function ZeroFilled(t: seq<Byte>): (p: seq<Byte>)
    requires |t| <= 64
    ensures |p| == 64
  {
    t + Zeros(64 - |t|)
  }

  lemma OrZero(x: Word)
    ensures Or(x, 0) == x && Or(0, x) == x
  {
  }

  lemma ShiftedZero()
    ensures ShiftIn(0, 0) == 0 && ShiftIn(0, 1) == 0 && ShiftIn(0, 2) == 0 && ShiftIn(0, 3) == 0
  {
  }

  // OR-ing a byte in where the word still has zeros, one lemma a position.
  lemma OrInByte0(b: Byte)
    ensures Or(BigEndian(0, 0, 0, 0), ShiftIn(b, 0)) == BigEndian(b, 0, 0, 0)
  {
  }

  lemma OrInByte1(b0: Byte, b: Byte)
    ensures Or(BigEndian(b0, 0, 0, 0), ShiftIn(b, 1)) == BigEndian(b0, b, 0, 0)
  {
    hide Or, ShiftIn;
    ShiftedZero();
    OrZero(ShiftIn(b0, 0));
    OrZero(Or(ShiftIn(b0, 0), ShiftIn(b, 1)));
  }

  lemma OrInByte2(b0: Byte, b1: Byte, b: Byte)
    ensures Or(BigEndian(b0, b1, 0, 0), ShiftIn(b, 2)) == BigEndian(b0, b1, b, 0)
  {
    hide Or, ShiftIn;
    ShiftedZero();
    OrZero(Or(ShiftIn(b0, 0), ShiftIn(b1, 1)));
    OrZero(Or(Or(ShiftIn(b0, 0), ShiftIn(b1, 1)), ShiftIn(b, 2)));
  }

  lemma OrInByte3(b0: Byte, b1: Byte, b2: Byte, b: Byte)
    ensures Or(BigEndian(b0, b1, b2, 0), ShiftIn(b, 3)) == BigEndian(b0, b1, b2, b)
  {
  }

  lemma ShiftInWord(t: seq<Byte>, b: Byte)
    requires |t| < 64
    ensures WordAt(ZeroFilled(t + [b]), |t| / 4) == Or(WordAt(ZeroFilled(t), |t| / 4), ShiftIn(b, |t| % 4))
  {
    hide Or, ShiftIn, BigEndian;
    var k, j, p, q := |t|, |t| / 4, ZeroFilled(t), ZeroFilled(t + [b]);
    assert k == 4 * j + k % 4;
    assert forall i :: 0 <= i < 64 ==> q[i] == if i == k then b else p[i];
    if k % 4 == 0 { OrInByte0(b); }
    else if k % 4 == 1 { OrInByte1(p[4 * j], b); }
    else if k % 4 == 2 { OrInByte2(p[4 * j], p[4 * j + 1], b); }
    else { OrInByte3(p[4 * j], p[4 * j + 1], p[4 * j + 2], b); }
  }

  lemma OtherWordsKept(t: seq<Byte>, b: Byte, j: nat)
    requires |t| < 64 && j < 16 && j != |t| / 4
    ensures WordAt(ZeroFilled(t + [b]), j) == WordAt(ZeroFilled(t), j)
  {
  }

  lemma LengthWords(l: nat)
    requires l < 0x1_0000_0000
    ensures var p := Zeros(56) + LengthBytes(l);
            WordAt(p, 14) == 0 && WordAt(p, 15) == (l as bv32)
  {
    WordOfBytes(0);
    WordOfBytes(l as bv32);
  }

  lemma WordOfBytes(w: Word)
    ensures WordAt(WordBytes(w), 0) == w
  {
  }

  // `memset(temp, 0, 64)`.
  method ClearBlock(temp: array<Word>)
    requires temp.Length == 80
    modifies temp
    ensures temp[..16] == BlockWords(Zeros(64))
  {
    hide Or, ShiftIn;
    for i := 0 to 16
      invariant forall j :: 0 <= j < i ==> temp[j] == 0
    {
      temp[i] := 0;
    }
    assert WordAt(Zeros(4), 0) == 0 by { ShiftedZero(); OrZero(0); }
    assert forall j :: 0 <= j < 16 ==> WordAt(Zeros(64), j) == WordAt(Zeros(4), 0);
  }

  // `temp[last >> 2] |= b << ...` appends one byte to a zero-filled block.
  method OrByte(temp: array<Word>, ghost t: seq<Byte>, last: nat, b: Byte)
    requires temp.Length == 80 && last == |t| < 64
    requires temp[..16] == BlockWords(ZeroFilled(t))
    modifies temp
    ensures temp[..16] == BlockWords(ZeroFilled(t + [b]))
  {
    hide Or, ShiftIn, WordAt;
    assert temp[last / 4] == temp[..16][last / 4];
    temp[last / 4] := Or(temp[last / 4], ShiftIn(b, last % 4));
    ShiftInWord(t, b);
    forall j | 0 <= j < 16 && j != last / 4
      ensures WordAt(ZeroFilled(t + [b]), j) == old(temp[..16])[j]
    {
      OtherWordsKept(t, b, j);
    }
  }

  // The bytes after the last full block, and the one bit.
  method FillTail(data: array<Byte>, block: nat, temp: array<Word>)
    requires temp.Length == 80 && block <= data.Length < block + 64
    modifies temp
    ensures temp[..16] == BlockWords(ZeroFilled(data[block..] + [0x80]))
  {
    hide BlockWords;
    ClearBlock(temp);
    var last, end := 0, data.Length - block;
    assert ZeroFilled(data[block..block]) == Zeros(64);
    while last < end
      invariant 0 <= last <= end
      invariant temp[..16] == BlockWords(ZeroFilled(data[block..block + last]))
    {
      OrByte(temp, data[block..block + last], last, data[last + block]);
      assert data[block..block + last] + [data[last + block]] == data[block..block + (last + 1)];
      last := last + 1;
    }
    assert data[block..block + last] == data[block..];
    OrByte(temp, data[block..], last, 0x80);
  }

  lemma ZeroWord()
    ensures BigEndian(0, 0, 0, 0) == 0
  {
    hide Or, ShiftIn;
    ShiftedZero();
    OrZero(0);
  }

  // The last block of the padded message: `t` filled up, with the length in its last two words.
  lemma LastBlockWords(t: seq<Byte>, l: nat)
    requires |t| <= 56 && l < 0x1_0000_0000
    ensures BlockWords(ZeroFilled(t))[15 := l as bv32] == BlockWords(t + Zeros(56 - |t|) + LengthBytes(l))
  {
    hide BigEndian, LengthBytes;
    var p, q, z := ZeroFilled(t), t + Zeros(56 - |t|) + LengthBytes(l), Zeros(56) + LengthBytes(l);
    LengthWords(l);
    ZeroWord();
    assert WordAt(q, 14) == WordAt(z, 14) && WordAt(q, 15) == WordAt(z, 15) by { SameWords(q, z, 14, 16); }
    SameWords(p, q, 0, 14);
    assert WordAt(p, 14) == 0;
    hide WordAt, ZeroFilled, Zeros;
  }

  lemma SameWords(p: seq<Byte>, q: seq<Byte>, i: nat, j: nat)
    requires |p| == |q| == 64 && i <= j <= 16 && p[4 * i..4 * j] == q[4 * i..4 * j]
    ensures forall k :: i <= k < j ==> WordAt(p, k) == WordAt(q, k)
  {
    hide BigEndian;
    assert forall n :: 4 * i <= n < 4 * j ==> p[n] == p[4 * i..4 * j][n - 4 * i] == q[4 * i..4 * j][n - 4 * i] == q[n];
  }

  // A message of fewer than 64 bytes pads to one block, or to two from 56 bytes on.
  lemma PaddedTail(t: seq<Byte>, l: nat)
    requires |t| < 64 && l < 0x1_0000_0000
    ensures |t| < 56 ==> PaddedWith(t, l) == (t + [0x80]) + Zeros(55 - |t|) + LengthBytes(l)
    ensures |t| >= 56 ==> PaddedWith(t, l) == ZeroFilled(t + [0x80]) + ([] + Zeros(56) + LengthBytes(l))
  {
    if |t| < 56 {
      assert ZeroBits(8 * |t|) / 8 == 55 - |t|;
    } else {
      assert ZeroBits(8 * |t|) / 8 == 119 - |t|;
    }
  }

  lemma FoldOne(h: seq<Word>, p: seq<Byte>)
    requires |h| == 5 && |p| == 64
    ensures FoldBlocks(h, p) == FipsCompress(h, BlockWords(p))
  {
    hide BlockWords, FipsCompress;
    assert p[..64] == p && p[64..] == [];
  }

  lemma FoldFront(h: seq<Word>, p: seq<Byte>, q: seq<Byte>)
    requires |h| == 5 && |p| == 64 && |q| % 64 == 0
    ensures FoldBlocks(h, p + q) == FoldBlocks(FipsCompress(h, BlockWords(p)), q)
  {
  }

  // `temp[15] = len << 3` and the last call of `sha1PartHash`.
  method HashLast(sha: array<Word>, temp: array<Word>, ghost t: seq<Byte>, l: nat)
    requires sha.Length == 5 && temp.Length == 80 && sha != temp
    requires |t| <= 56 && l < 0x1_0000_0000
    requires temp[..16] == BlockWords(ZeroFilled(t))
    modifies sha, temp
    ensures sha[..] == FoldBlocks(old(sha[..]), t + Zeros(56 - |t|) + LengthBytes(l))
  {
    hide BlockWords, FoldBlocks, FipsCompress, LengthBytes;
    temp[15] := l as bv32;
    assert temp[..16] == old(temp[..16])[15 := l as bv32];
    LastBlockWords(t, l);
    FoldOne(sha[..], t + Zeros(56 - |t|) + LengthBytes(l));
    PartHash(sha, temp);
  }

  // Everything `hashSha1` does after the block loop, up to the output.
  method HashTail(data: array<Byte>, block: nat, sha: array<Word>, temp: array<Word>)
    requires sha.Length == 5 && temp.Length == 80 && sha != temp
    requires block <= data.Length < block + 64 && data.Length < 0x1_0000_0000
    modifies sha, temp
    ensures sha[..] == FoldBlocks(old(sha[..]), PaddedWith(data[block..], 8 * data.Length % 0x1_0000_0000))
  {
    hide BlockWords, FoldBlocks, FipsCompress, LengthBytes, PaddedWith;
    var len, end := data.Length, data.Length - block;
    var l := 8 * len % 0x1_0000_0000; // len << 3 in 32 bits
    ghost var t, h := data[block..], sha[..];
    PaddedTail(t, l);
    FillTail(data, block, temp);
    assert sha[..] == h;
    if end >= 56 {
      FoldFront(h, ZeroFilled(t + [0x80]), [] + Zeros(56) + LengthBytes(l));
      PartHash(sha, temp);
      ghost var mid := sha[..];
      ClearBlock(temp);
      assert sha[..] == mid;
      assert ZeroFilled([]) == Zeros(64);
      HashLast(sha, temp, [], l);
    } else {
      HashLast(sha, temp, t + [0x80], l);
    }
  }

  // ----- hashSha1 -----

  lemma PaddingCommutes(m: seq<Byte>, l: nat)
    requires |m| >= 64 && l < 0x1_0000_0000
    ensures PaddedWith(m, l) == m[..64] + PaddedWith(m[64..], l)
  {
    var n := |m| - 64;
    assert ZeroBits(8 * |m|) == ZeroBits(8 * n) by {
      assert 448 - (8 * |m| + 1) == 448 - (8 * n + 1) - 512;
    }
    assert m == m[..64] + m[64..];
  }

  // The hash of the padded rest of `m` from `b` on, started from `h`.
  ghost function RestHash(h: seq<Word>, m: seq<Byte>, b: nat, l: nat): seq<Word>
    requires |h| == 5 && b <= |m| && l < 0x1_0000_0000
  {
    FoldBlocks(h, PaddedWith(m[b..], l))
  }

  // One turn of the block loop, on the padded message.
  lemma FoldNext(h: seq<Word>, m: seq<Byte>, b: nat, l: nat)
    requires |h| == 5 && b + 64 <= |m| && l < 0x1_0000_0000
    ensures RestHash(h, m, b, l)
         == RestHash(FipsCompress(h, BlockWords(m[b..b + 64])), m, b + 64, l)
  {
    hide FoldBlocks, BlockWords, PaddedWith, FipsCompress;
    var rest := m[b..];
    PaddingCommutes(rest, l);
    FoldFront(h, rest[..64], PaddedWith(rest[64..], l));
    assert rest[..64] == m[b..b + 64] && rest[64..] == m[b + 64..];
  }

  // The block loop.
  method HashBlocks(data: array<Byte>, sha: array<Word>, temp: array<Word>, ghost l: nat) returns (block: nat)
    requires sha.Length == 5 && temp.Length == 80 && sha != temp && l < 0x1_0000_0000
    modifies sha, temp
    ensures block <= data.Length < block + 64
    ensures RestHash(old(sha[..]), data[..], 0, l) == RestHash(sha[..], data[..], block, l)
  {
    hide RestHash, BlockWords, FipsCompress;
    block := 0;
    ghost var m := data[..];
    while block + 64 <= data.Length
      invariant block <= data.Length
      invariant RestHash(old(sha[..]), m, 0, l) == RestHash(sha[..], m, block, l)
    {
      FoldNext(sha[..], m, block, l);
      ghost var h := sha[..];
      LoadBlock(data, block, temp);
      assert data[block..block + 64] == m[block..block + 64];
      assert sha[..] == h;
      PartHash(sha, temp);
      block := block + 64;
    }
  }

  // The output loop, from the last byte down.
  method WriteDigest(sha: array<Word>, dest: array<Byte>)
    requires sha.Length == 5 && dest.Length == 20
    modifies dest
    ensures dest[..] == DigestBytes(sha[..])
  {
    var i := 19;
    while i >= 0
      invariant -1 <= i <= 19
      invariant forall j :: i < j < 20 ==> dest[j] == WordBytes(sha[j / 4])[j % 4]
    {
      dest[i] := WordBytes(sha[i / 4])[i % 4];
      i := i - 1;
    }
  }

  /** `hashSha1`. From 2^32 - 64 bytes on, `block + 64` wraps and the block loop never ends. */
  method HashSha1(data: array<Byte>, dest: array<Byte>)
    requires dest.Length == 20 && data != dest
    requires data.Length < 0x1_0000_0000 - 64
    modifies dest
    ensures dest[..] == DigestBytes(FoldBlocks(FIPS_H0, PaddedWith(data[..], 8 * data.Length % 0x1_0000_0000)))
    ensures data.Length < 0x2000_0000 ==> dest[..] == FipsSha1(data[..])
  {
    hide FoldBlocks, PaddedWith, DigestBytes;
    var temp := new Word[80];
    var sha := new Word[5] [0x67452301, 0xefcdab89, 0x98badcfe, 0x10325476, 0xc3d2e1f0];
    assert sha[..] == FIPS_H0;
    ghost var l := 8 * data.Length % 0x1_0000_0000;
    var block := HashBlocks(data, sha, temp, l);
    assert data[..][block..] == data[block..] && data[..][0..] == data[..];
    HashTail(data, block, sha, temp);
    WriteDigest(sha, dest);
  }

  lemma LengthFieldVisible(m: seq<Byte>, l1: nat, l2: nat)
    requires l1 < 0x1_0000_0000_0000_0000 && l2 < 0x1_0000_0000_0000_0000
    requires PaddedWith(m, l1) == PaddedWith(m, l2)
    ensures LengthBytes(l1)[..4] == LengthBytes(l2)[..4]
  {
    var p := m + [0x80] + Zeros(ZeroBits(8 * |m|) / 8);
    assert (p + LengthBytes(l1))[|p|..] == LengthBytes(l1);
    assert (p + LengthBytes(l2))[|p|..] == LengthBytes(l2);
  }

  lemma HighWordNonZero(hi: nat)
    requires 0 < hi < 0x1_0000_0000
    ensures WordBytes(hi as bv32) != WordBytes(0)
  {
  }

  lemma HighBytes(l: nat, hi: nat)
    requires l < 0x1_0000_0000_0000_0000 && hi == l / 0x1_0000_0000
    ensures LengthBytes(l)[..4] == WordBytes(hi as bv32)
  {
  }

  lemma HighBytesDiffer(l: nat)
    requires 0x1_0000_0000 <= l < 0x1_0000_0000_0000_0000
    ensures LengthBytes(l)[..4] != LengthBytes(l % 0x1_0000_0000)[..4]
  {
    HighWordNonZero(l / 0x1_0000_0000);
    HighBytes(l, l / 0x1_0000_0000);
    HighBytes(l % 0x1_0000_0000, 0);
  }

  /** The packer's padding is the standard's exactly when the bit length fits the 32 bits it writes. */
  lemma PackerPaddingIsFips(m: seq<Byte>)
    requires 8 * |m| < 0x1_0000_0000_0000_0000
    ensures PaddedWith(m, 8 * |m| % 0x1_0000_0000) == PaddedWith(m, 8 * |m|) <==> |m| < 0x2000_0000
  {
    hide LengthBytes;
    var l := 8 * |m|;
    if |m| >= 0x2000_0000 {
      HighBytesDiffer(l);
      if PaddedWith(m, l % 0x1_0000_0000) == PaddedWith(m, l) {
        LengthFieldVisible(m, l % 0x1_0000_0000, l);
        assert false;
      }
    }
  }
}
