/**
 The allocation trace reader: a record parser fed through a fixed buffer by a refill loop that
 carries an incomplete record over, driving a map of live allocations and five counters.
 */
module TraceReader {

  type Byte = x: int | 0 <= x < 256

  const BUFFER_SIZE := 1024 * 1024
  const TWO64: nat := 0x1_0000_0000_0000_0000

  // ----- what a trace file means -----

  datatype Record =
    | Malloc(time: nat, size: nat, address: nat)
    | Realloc(time: nat, previous: nat, size: nat, address: nat)
    | Free(time: nat, address: nat)

  function LittleEndian(b: seq<Byte>): nat {
    if |b| == 0 then 0 else b[0] + 256 * LittleEndian(b[1..])
  }

  // 0 stands for a command that is none of the three.
  function EntryLength(command: Byte): (n: nat)
    ensures n == 0 || 13 <= n <= 29
  {
    if command == 1 then 5 + 2 * 8
    else if command == 2 then 5 + 3 * 8
    else if command == 3 then 5 + 8
    else 0
  }

  predicate Garbage(b: seq<Byte>) {
    |b| > 0 && EntryLength(b[0]) == 0
  }

  predicate Complete(b: seq<Byte>) {
    |b| > 0 && 0 < EntryLength(b[0]) <= |b|
  }

  function FirstRecord(b: seq<Byte>): Record
    requires Complete(b)
  {
    var time := LittleEndian(b[1..5]);
    if b[0] == 1 then Malloc(time, LittleEndian(b[5..13]), LittleEndian(b[13..21]))
    else if b[0] == 2 then Realloc(time, LittleEndian(b[5..13]), LittleEndian(b[13..21]), LittleEndian(b[21..29]))
    else Free(time, LittleEndian(b[5..13]))
  }

  datatype Decoded = Decoded(records: seq<Record>, rest: seq<Byte>)

  function Decode(b: seq<Byte>): (d: Decoded)
    ensures |d.rest| <= |b| && !Complete(d.rest)
  {
    if !Complete(b) then Decoded([], b)
    else
      var d := Decode(b[EntryLength(b[0])..]);
      Decoded([FirstRecord(b)] + d.records, d.rest)
  }

  datatype Fields = Fields(time: nat, mallocs: nat, reallocs: nat, frees: nat,
                           unknownReallocs: nat, unknownFrees: nat)

  datatype Event =
    | Snapshot(time: nat, total: nat, unknownFrees: nat)
    | LateTime(time: nat, after: nat)
    | Repeated(address: nat, size: nat)
    | BadCommand(command: int)
    | CorruptEnd(left: nat)
    | Totals(mallocs: nat, reallocs: nat, frees: nat, unknownReallocs: nat)

  datatype Sys = Sys(state: Fields, live: map<nat, nat>, log: seq<Event>)

  const INITIAL := Sys(Fields(0, 0, 0, 0, 0, 0), map[], [])

  ghost function Total(m: map<nat, nat>): nat {
    if m == map[] then 0 else var k :| k in m; m[k] + Total(m - {k})
  }

  // Addition on `uint64_t`.
  function Wrap(n: nat): nat { n % TWO64 }

  ghost function Printed(s: Sys): Sys {
    if s.state.time == 0 then s
    else s.(log := s.log + [Snapshot(s.state.time, Wrap(Total(s.live)), s.state.unknownFrees)])
  }

  ghost function Ticked(s: Sys, time: nat): Sys {
    if time > s.state.time then var p := Printed(s); p.(state := p.state.(time := time))
    else if time < s.state.time then s.(log := s.log + [LateTime(time, s.state.time)])
    else s
  }

  function Added(s: Sys, address: nat, size: nat): Sys {
    if address in s.live then s.(log := s.log + [Repeated(address, size)])
    else s.(live := s.live[address := size])
  }

  function Counted(s: Sys, mallocs: nat, reallocs: nat, frees: nat, unknownReallocs: nat, unknownFrees: nat): Sys {
    var f := s.state;
    s.(state := Fields(f.time, f.mallocs + mallocs, f.reallocs + reallocs, f.frees + frees,
                       f.unknownReallocs + unknownReallocs, f.unknownFrees + unknownFrees))
  }

  function Effect(s: Sys, r: Record): Sys {
    match r
    case Malloc(_, size, address) =>
      Counted(Added(s, address, size), 1, 0, 0, 0, 0)
    case Realloc(_, previous, size, address) =>
      if previous !in s.live then Counted(Added(s, address, size), 0, 0, 0, 1, 0)
      else Counted(Added(s.(live := s.live - {previous}), address, size), 0, 1, 0, 0, 0)
    case Free(_, address) =>
      if address in s.live then Counted(s.(live := s.live - {address}), 0, 0, 1, 0, 0)
      else Counted(s, 0, 0, 0, 0, 1)
  }

  ghost function Apply(s: Sys, r: Record): Sys {
    Effect(Ticked(s, r.time), r)
  }

  ghost function Run(s: Sys, rs: seq<Record>): Sys
    decreases |rs|
  {
    if |rs| == 0 then s else Run(Apply(s, rs[0]), rs[1..])
  }

  // `char` is signed.
  function SignedChar(b: Byte): int { if b < 128 then b else b - 256 }

  ghost function Stopped(s: Sys, rest: seq<Byte>): Sys {
    if Garbage(rest) then s.(log := s.log + [BadCommand(SignedChar(rest[0]))]) else s
  }

  // One `Parse` over `b`.
  ghost function Parsed(s: Sys, b: seq<Byte>): Sys {
    Stopped(Run(s, Decode(b).records), Decode(b).rest)
  }

  // What the program prints for a file, by one parse of the whole of it.
  ghost function WholeFile(file: seq<Byte>): Sys {
    Closed(Printed(Ended(file)))
  }

  ghost function Ended(file: seq<Byte>): Sys {
    var rest, s := Decode(file).rest, Parsed(INITIAL, file);
    if rest == [] || Garbage(rest) then s else s.(log := s.log + [CorruptEnd(|rest|)])
  }

  function Closed(s: Sys): Sys {
    var f := s.state;
    s.(log := s.log + [Totals(f.mallocs, f.reallocs, f.frees, f.unknownReallocs)])
  }

  // ----- decoding is the inverse of writing records one after another -----

  function Bytes(n: nat, width: nat): (b: seq<Byte>)
    ensures |b| == width
  {
    if width == 0 then [] else [n % 256] + Bytes(n / 256, width - 1)
  }

  function Encode(r: Record): seq<Byte> {
    match r
    case Malloc(time, size, address) => [1] + Bytes(time, 4) + Bytes(size, 8) + Bytes(address, 8)
    case Realloc(time, previous, size, address) =>
      [2] + Bytes(time, 4) + Bytes(previous, 8) + Bytes(size, 8) + Bytes(address, 8)
    case Free(time, address) => [3] + Bytes(time, 4) + Bytes(address, 8)
  }

  function EncodeAll(rs: seq<Record>): seq<Byte> {
    if |rs| == 0 then [] else Encode(rs[0]) + EncodeAll(rs[1..])
  }

  lemma {:induction false} BytesOfLittleEndian(b: seq<Byte>)
    ensures Bytes(LittleEndian(b), |b|) == b
  {
    if |b| > 0 {
      BytesOfLittleEndian(b[1..]);
      assert LittleEndian(b) % 256 == b[0] && LittleEndian(b) / 256 == LittleEndian(b[1..]);
    }
  }

  lemma EncodeFirst(b: seq<Byte>)
    requires Complete(b)
    ensures Encode(FirstRecord(b)) == b[..EntryLength(b[0])]
  {
    hide Bytes, LittleEndian;
    BytesOfLittleEndian(b[1..5]);
    BytesOfLittleEndian(b[5..13]);
    if b[0] == 1 {
      BytesOfLittleEndian(b[13..21]);
      Pieces(b, 21);
    } else if b[0] == 2 {
      BytesOfLittleEndian(b[13..21]);
      BytesOfLittleEndian(b[21..29]);
      Pieces(b, 29);
    } else {
      Pieces(b, 13);
    }
  }

  lemma Pieces(b: seq<Byte>, n: nat)
    requires n <= |b| && n in {13, 21, 29}
    ensures n == 13 ==> b[..n] == [b[0]] + b[1..5] + b[5..13]
    ensures n == 21 ==> b[..n] == [b[0]] + b[1..5] + b[5..13] + b[13..21]
    ensures n == 29 ==> b[..n] == [b[0]] + b[1..5] + b[5..13] + b[13..21] + b[21..29]
  {
    assert b[..5] == [b[0]] + b[1..5];
    Join(b, 5, 13);
    if n >= 21 { Join(b, 13, 21); }
    if n >= 29 { Join(b, 21, 29); }
  }

  lemma Join(b: seq<Byte>, i: nat, j: nat)
    requires i <= j <= |b|
    ensures b[..j] == b[..i] + b[i..j]
  {
  }

  lemma EncodeOneMore(r: Record, rs: seq<Record>, rest: seq<Byte>)
    ensures EncodeAll([r] + rs) + rest == Encode(r) + (EncodeAll(rs) + rest)
  {
  }

  /** Nothing of a file is lost or invented: the decoded records write back exactly what was consumed. */
  lemma {:induction false} DecodeLosesNothing(b: seq<Byte>)
    ensures EncodeAll(Decode(b).records) + Decode(b).rest == b
    decreases |b|
  {
    hide Encode, FirstRecord, EncodeAll, EntryLength, Decode;
    DecodeUnfolds(b);
    if !Complete(b) {
      assert EncodeAll([]) == [] by { EncodeNone(); }
    } else {
      var n := EntryLength(b[0]);
      var d := Decode(b[n..]);
      DecodeLosesNothing(b[n..]);
      EncodeFirst(b);
      EncodeOneMore(FirstRecord(b), d.records, d.rest);
      assert b[..n] + b[n..] == b;
    }
  }

  lemma DecodeUnfolds(b: seq<Byte>)
    ensures !Complete(b) ==> Decode(b) == Decoded([], b)
    ensures Complete(b) ==>
              var d := Decode(b[EntryLength(b[0])..]);
              Decode(b) == Decoded([FirstRecord(b)] + d.records, d.rest)
  {
  }

  lemma EncodeNone()
    ensures EncodeAll([]) == []
  {
  }

  // ----- and writing is undone by decoding -----

  function Power256(width: nat): nat {
    if width == 0 then 1 else 256 * Power256(width - 1)
  }

  predicate Fits(r: Record) {
    r.time < Power256(4) && r.address < Power256(8)
    && (!r.Free? ==> r.size < Power256(8)) && (r.Realloc? ==> r.previous < Power256(8))
  }

  lemma {:induction false} LittleEndianOfBytes(n: nat, width: nat)
    requires n < Power256(width)
    ensures LittleEndian(Bytes(n, width)) == n
  {
    if width > 0 {
      LittleEndianOfBytes(n / 256, width - 1);
      assert Bytes(n, width)[1..] == Bytes(n / 256, width - 1);
    }
  }

  lemma FirstOfEncoded(r: Record, rest: seq<Byte>)
    requires Fits(r)
    ensures var b := Encode(r) + rest;
            Complete(b) && FirstRecord(b) == r && b[EntryLength(b[0])..] == rest
  {
    hide Bytes, LittleEndian, Power256;
    LittleEndianOfBytes(r.time, 4);
    LittleEndianOfBytes(r.address, 8);
    var b, time, address := Encode(r) + rest, Bytes(r.time, 4), Bytes(r.address, 8);
    assert b[1..5] == time;
    match r
    case Malloc(_, size, _) =>
      LittleEndianOfBytes(size, 8);
      assert b[5..13] == Bytes(size, 8) && b[13..21] == address && b[21..] == rest;
    case Realloc(_, previous, size, _) =>
      LittleEndianOfBytes(previous, 8);
      LittleEndianOfBytes(size, 8);
      assert b[5..13] == Bytes(previous, 8) && b[13..21] == Bytes(size, 8) && b[21..29] == address;
      assert b[29..] == rest;
    case Free(_, _) =>
      assert b[5..13] == address && b[13..] == rest;
  }

  /** Any records written one after another are decoded as they were, whatever incomplete follows. */
  lemma {:induction false} DecodeOfEncoded(rs: seq<Record>, rest: seq<Byte>)
    requires (forall i :: 0 <= i < |rs| ==> Fits(rs[i])) && !Complete(rest)
    ensures Decode(EncodeAll(rs) + rest) == Decoded(rs, rest)
    decreases |rs|
  {
    hide Encode, FirstRecord, Complete, EntryLength, Fits, Decode;
    DecodeUnfolds(EncodeAll(rs) + rest);
    if |rs| == 0 {
      assert EncodeAll(rs) + rest == rest;
    } else {
      var tail := EncodeAll(rs[1..]) + rest;
      assert EncodeAll(rs) + rest == Encode(rs[0]) + tail;
      FirstOfEncoded(rs[0], tail);
      DecodeOfEncoded(rs[1..], rest);
    }
  }

  // ----- splitting a file -----

  lemma {:induction false} RunAppend(s: Sys, rs: seq<Record>, more: seq<Record>)
    ensures Run(s, rs + more) == Run(Run(s, rs), more)
    decreases |rs|
  {
    if |rs| == 0 {
      assert rs + more == more;
    } else {
      assert (rs + more)[0] == rs[0] && (rs + more)[1..] == rs[1..] + more;
      RunAppend(Apply(s, rs[0]), rs[1..], more);
    }
  }

  lemma {:induction false} DecodeSplit(a: seq<Byte>, b: seq<Byte>)
    ensures var d := Decode(a);
            if Garbage(d.rest) then Decode(a + b) == Decoded(d.records, d.rest + b)
            else var e := Decode(d.rest + b); Decode(a + b) == Decoded(d.records + e.records, e.rest)
    decreases |a|
  {
    if Complete(a) {
      var n := EntryLength(a[0]);
      assert (a + b)[n..] == a[n..] + b;
      FirstRecordOfPrefix(a, b);
      DecodeSplit(a[n..], b);
    }
  }

  lemma FirstRecordOfPrefix(a: seq<Byte>, b: seq<Byte>)
    requires Complete(a)
    ensures Complete(a + b) && FirstRecord(a + b) == FirstRecord(a)
  {
    assert forall i, j :: 0 <= i <= j <= |a| ==> (a + b)[i..j] == a[i..j];
  }

  /** One parse of a file equals a parse of any prefix, then of what that left over plus the rest. */
  lemma ParseInTwoSteps(s: Sys, a: seq<Byte>, b: seq<Byte>)
    ensures var left := Decode(a).rest;
            Parsed(s, a + b) == if Garbage(left) then Parsed(s, a) else Parsed(Parsed(s, a), left + b)
  {
    DecodeSplit(a, b);
    var d := Decode(a);
    if !Garbage(d.rest) {
      RunAppend(s, d.records, Decode(d.rest + b).records);
    }
  }

  // ----- conservation -----

  function RepeatedIn(log: seq<Event>): nat {
    if |log| == 0 then 0 else RepeatedIn(log[..|log| - 1]) + (if log[|log| - 1].Repeated? then 1 else 0)
  }

  lemma RepeatedOneMore(log: seq<Event>, e: Event)
    ensures RepeatedIn(log + [e]) == RepeatedIn(log) + (if e.Repeated? then 1 else 0)
  {
    assert (log + [e])[..|log|] == log;
  }

  // Live entries, frees and refused entries account for every entry that was offered.
  ghost predicate Conserved(s: Sys) {
    |s.live| + s.state.frees + RepeatedIn(s.log) == s.state.mallocs + s.state.unknownReallocs
  }

  function Records(f: Fields): nat {
    f.mallocs + f.reallocs + f.frees + f.unknownReallocs + f.unknownFrees
  }

  function LatestTime(rs: seq<Record>): nat {
    if |rs| == 0 then 0
    else var t := LatestTime(rs[..|rs| - 1]); if rs[|rs| - 1].time > t then rs[|rs| - 1].time else t
  }

  lemma TickConserves(s: Sys, time: nat)
    requires Conserved(s)
    ensures var t := Ticked(s, time);
            Conserved(t) && Records(t.state) == Records(s.state)
            && t.state.time == if time > s.state.time then time else s.state.time
  {
  }

  lemma EffectConserves(s: Sys, r: Record)
    requires Conserved(s)
    ensures Conserved(Effect(s, r)) && Records(Effect(s, r).state) == Records(s.state) + 1
    ensures Effect(s, r).state.time == s.state.time
  {
    hide RepeatedIn;
    match r
    case Malloc(_, size, address) =>
      RepeatedOneMore(s.log, Repeated(address, size));
    case Realloc(_, previous, size, address) =>
      RepeatedOneMore(s.log, Repeated(address, size));
      if previous in s.live { assert |s.live - {previous}| == |s.live| - 1; }
    case Free(_, address) =>
      if address in s.live { assert |s.live - {address}| == |s.live| - 1; }
  }

  /** After every sequence of records. */
  lemma {:induction false} RunConserves(rs: seq<Record>)
    ensures var s := Run(INITIAL, rs);
            Conserved(s) && Records(s.state) == |rs| && s.state.time == LatestTime(rs)
    decreases |rs|
  {
    if |rs| > 0 {
      var front, last := rs[..|rs| - 1], rs[|rs| - 1];
      RunConserves(front);
      assert rs == front + [last];
      RunAppend(INITIAL, front, [last]);
      var s := Run(INITIAL, front);
      assert Run(s, [last]) == Apply(s, last);
      TickConserves(s, last.time);
      EffectConserves(Ticked(s, last.time), last);
    }
  }

  lemma LogConserves(s: Sys, e: Event)
    requires Conserved(s) && !e.Repeated?
    ensures Conserved(s.(log := s.log + [e]))
  {
    RepeatedOneMore(s.log, e);
  }

  /** The totals the program prints for a file account for every complete record in it. */
  lemma WholeFileConserves(file: seq<Byte>)
    ensures var s := WholeFile(file);
            Conserved(s) && Records(s.state) == |Decode(file).records|
            && s.state.time == LatestTime(Decode(file).records)
  {
    hide Conserved;
    var rs, rest := Decode(file).records, Decode(file).rest;
    RunConserves(rs);
    var s := Run(INITIAL, rs);
    if Garbage(rest) { LogConserves(s, BadCommand(SignedChar(rest[0]))); }
    if rest != [] && !Garbage(rest) { LogConserves(s, CorruptEnd(|rest|)); }
    var e := Ended(file);
    LogConserves(e, Snapshot(e.state.time, Wrap(Total(e.live)), e.state.unknownFrees));
    var f := e.state;
    LogConserves(Printed(e), Totals(f.mallocs, f.reallocs, f.frees, f.unknownReallocs));
  }

  lemma {:induction false} TotalWithout(m: map<nat, nat>, k: nat)
    requires k in m
    ensures Total(m) == m[k] + Total(m - {k})
    decreases |m|
  {
    var j :| j in m && Total(m) == m[j] + Total(m - {j});
    if j != k {
      assert |m - {j}| == |m| - 1 by { assert m.Keys - {j} == (m - {j}).Keys; }
      TotalWithout(m - {j}, k);
      assert |m - {k}| == |m| - 1 by { assert m.Keys - {k} == (m - {k}).Keys; }
      TotalWithout(m - {k}, j);
      assert m - {j} - {k} == m - {k} - {j};
    }
  }

  // ----- the program -----

  // The loop of `PrintState`, in whatever order the hash map gives its entries.
  method SumOf(live: map<nat, nat>) returns (full: nat)
    ensures full == Wrap(Total(live))
  {
    hide Wrap;
    full := 0;
    WrapAdd(0, 0);
    var rest := live;
    ghost var sum: nat := 0;
    while rest != map[]
      invariant full == Wrap(sum) && sum + Total(rest) == Total(live)
      decreases |rest|
    {
      var k :| k in rest;
      TotalWithout(rest, k);
      assert |rest - {k}| == |rest| - 1 by { assert rest.Keys - {k} == (rest - {k}).Keys; }
      WrapAdd(sum, rest[k]);
      full := Wrap(full + rest[k]);
      sum := sum + rest[k];
      rest := rest - {k};
    }
    assert Total(rest) == 0;
  }

  class Reader {
    var state: Fields
    var live: map<nat, nat>
    var log: seq<Event>
    const buffer: array<Byte>

    constructor ()
      ensures View() == INITIAL && fresh(buffer) && buffer.Length == BUFFER_SIZE
    {
      state, live, log := Fields(0, 0, 0, 0, 0, 0), map[], [];
      buffer := new Byte[BUFFER_SIZE];
    }

    ghost function View(): Sys
      reads this
    {
      Sys(state, live, log)
    }

    method PrintState()
      modifies this`log
      ensures View() == Printed(old(View()))
    {
      if state.time == 0 {
        return;
      }
      var full := SumOf(live);
      log := log + [Snapshot(state.time, full, state.unknownFrees)];
    }

    method Add(address: nat, size: nat)
      modifies this`live, this`log
      ensures View() == Added(old(View()), address, size)
    {
      if address in live {
        log := log + [Repeated(address, size)];
        return;
      }
      live := live[address := size];
    }

    method ParseMalloc(at: nat, ghost r: Record)
      requires at + 16 <= buffer.Length
      requires r.Malloc? && r.size == LittleEndian(buffer[at..at + 8])
      requires r.address == LittleEndian(buffer[at + 8..at + 16])
      modifies this
      ensures View() == Effect(old(View()), r)
    {
      var size := LittleEndian(buffer[at..at + 8]);
      var address := LittleEndian(buffer[at + 8..at + 16]);
      Add(address, size);
      state := state.(mallocs := state.mallocs + 1);
    }

    method ParseRealloc(at: nat, ghost r: Record)
      requires at + 24 <= buffer.Length
      requires r.Realloc? && r.previous == LittleEndian(buffer[at..at + 8])
      requires r.size == LittleEndian(buffer[at + 8..at + 16]) && r.address == LittleEndian(buffer[at + 16..at + 24])
      modifies this
      ensures View() == Effect(old(View()), r)
    {
      var previous := LittleEndian(buffer[at..at + 8]);
      var size := LittleEndian(buffer[at + 8..at + 16]);
      var address := LittleEndian(buffer[at + 16..at + 24]);
      if previous !in live {
        state := state.(unknownReallocs := state.unknownReallocs + 1);
        Add(address, size);
      } else if previous != address {
        live := live - {previous};
        Add(address, size);
        state := state.(reallocs := state.reallocs + 1);
      } else {
        assert (live - {previous})[address := size] == live[previous := size];
        live := live[previous := size];
        state := state.(reallocs := state.reallocs + 1);
      }
    }

    method ParseFree(at: nat, ghost r: Record)
      requires at + 8 <= buffer.Length
      requires r.Free? && r.address == LittleEndian(buffer[at..at + 8])
      modifies this
      ensures View() == Effect(old(View()), r)
    {
      var address := LittleEndian(buffer[at..at + 8]);
      if address !in live {
        state := state.(unknownFrees := state.unknownFrees + 1);
      } else {
        live := live - {address};
        state := state.(frees := state.frees + 1);
      }
    }

    // The time check of one record.
    method Tick(time: nat)
      modifies this
      ensures View() == Ticked(old(View()), time)
    {
      if time > state.time {
        PrintState();
        state := state.(time := time);
      } else if time < state.time {
        log := log + [LateTime(time, state.time)];
      }
    }

    // One turn of the loop in `Parse`, on a complete record at `at`.
    method ParseOne(at: nat, end: nat)
      requires at < end <= buffer.Length && Complete(buffer[at..end])
      modifies this
      ensures View() == Apply(old(View()), FirstRecord(buffer[at..end]))
    {
      var command := buffer[at];
      ghost var r := FirstRecord(buffer[at..end]);
      SubSlice(buffer[..], at, end, 1, 5);
      SubSlice(buffer[..], at, end, 5, 13);
      if command < 3 { SubSlice(buffer[..], at, end, 13, 21); }
      if command == 2 { SubSlice(buffer[..], at, end, 21, 29); }
      Tick(LittleEndian(buffer[at + 1..at + 5]));
      if command == 1 {
        ParseMalloc(at + 5, r);
      } else if command == 2 {
        ParseRealloc(at + 5, r);
      } else {
        ParseFree(at + 5, r);
      }
    }

    /** `Parse` over the first `end` bytes of the buffer; -1 for garbage, else the bytes consumed. */
    method Parse(end: nat) returns (result: int)
      requires end <= buffer.Length
      modifies this
      ensures View() == Parsed(old(View()), buffer[..end])
      ensures var rest := Decode(buffer[..end]).rest;
              result == if Garbage(rest) then -1 else end - |rest|
    {
      hide Parsed, Decode, FirstRecord, Apply;
      ghost var all := buffer[..end];
      var at := 0;
      result := 0;
      while end > at
        invariant 0 <= at <= end && result == at
        invariant Parsed(old(View()), all) == Parsed(View(), all[at..])
        invariant Decode(all).rest == Decode(all[at..]).rest
      {
        assert all[at..] == buffer[at..end];
        var entry := EntryLength(buffer[at]);
        if entry == 0 {
          ParseStops(View(), all[at..]);
          log := log + [BadCommand(SignedChar(buffer[at]))];
          return -1;
        }
        if end - at < entry {
          ParseStops(View(), all[at..]);
          break;
        }
        ParseFirst(View(), all[at..]);
        assert all[at..][entry..] == all[at + entry..];
        ParseOne(at, end);
        at := at + entry;
        result := result + entry;
      }
      if end == at { ParseStops(View(), all[at..]); }
    }

    // `fread` of one chunk behind what the buffer holds.
    method Receive(chunk: seq<Byte>, data: nat)
      requires data + |chunk| <= buffer.Length
      modifies buffer
      ensures buffer[..data + |chunk|] == old(buffer[..data]) + chunk
    {
      forall i | 0 <= i < |chunk| {
        buffer[data + i] := chunk[i];
      }
    }

    // `memmove` of the unparsed end to the front.
    method MoveDown(parsed: nat, data: nat)
      requires parsed <= data <= buffer.Length
      modifies buffer
      ensures buffer[..data - parsed] == old(buffer[parsed..data])
    {
      forall i | 0 <= i < data - parsed {
        buffer[i] := buffer[parsed + i];
      }
    }

    // The last lines of `main`.
    method PrintTotals()
      modifies this`log
      ensures View() == Closed(old(View()))
    {
      log := log + [Totals(state.mallocs, state.reallocs, state.frees, state.unknownReallocs)];
    }
  }

  // The refill loop: what is parsed, what the buffer holds, and what `fread` has not given yet.
  ghost predicate RefillInvariant(s: Sys, held: seq<Byte>, file: seq<Byte>, pos: nat)
    requires pos <= |file|
  {
    && !Garbage(held) && !Complete(held)
    && Parsed(INITIAL, file) == Parsed(s, held + file[pos..])
    && Decode(file).rest == Decode(held + file[pos..]).rest
  }

  lemma StartRefill(file: seq<Byte>)
    ensures RefillInvariant(INITIAL, [], file, 0)
  {
    assert [] + file[0..] == file;
  }

  lemma CarryOverIsShort(s: Sys, held: seq<Byte>, file: seq<Byte>, pos: nat)
    requires pos <= |file| && RefillInvariant(s, held, file, pos)
    ensures |held| < 29
  {
  }

  // A refill of n bytes and one `Parse` keep the invariant, or stop at garbage with the whole file's result.
  lemma RefillStep(s: Sys, held: seq<Byte>, file: seq<Byte>, pos: nat, n: nat)
    requires pos + n <= |file| && RefillInvariant(s, held, file, pos)
    ensures var chunk := held + file[pos..pos + n];
            var left := Decode(chunk).rest;
            if Garbage(left) then Parsed(s, chunk) == Ended(file)
            else RefillInvariant(Parsed(s, chunk), left, file, pos + n)
  {
    var chunk, later := held + file[pos..pos + n], file[pos + n..];
    assert held + file[pos..] == chunk + later;
    ParseInTwoSteps(s, chunk, later);
    DecodeSplit(chunk, later);
  }

  lemma SubSlice(b: seq<Byte>, at: nat, end: nat, i: nat, j: nat)
    requires i <= j && at + j <= end <= |b|
    ensures b[at..end][i..j] == b[at + i..at + j]
  {
    var s, t := b[at..end][i..j], b[at + i..at + j];
    assert |s| == |t| && forall k :: 0 <= k < j - i ==> s[k] == t[k];
  }

  lemma WrapAdd(a: nat, b: nat)
    ensures Wrap(0) == 0 && Wrap(Wrap(a) + b) == Wrap(a + b)
  {
  }

  lemma ParseStops(s: Sys, b: seq<Byte>)
    requires !Complete(b)
    ensures Parsed(s, b) == Stopped(s, b) && Decode(b).rest == b
  {
    assert Run(s, []) == s;
  }

  lemma ParseFirst(s: Sys, b: seq<Byte>)
    requires Complete(b)
    ensures var tail := b[EntryLength(b[0])..];
            Parsed(s, b) == Parsed(Apply(s, FirstRecord(b)), tail) && Decode(b).rest == Decode(tail).rest
  {
  }

  lemma RestIsSuffix(b: seq<Byte>)
    ensures var rest := Decode(b).rest; b[|b| - |rest|..] == rest
  {
    DecodeLosesNothing(b);
    SuffixOf(EncodeAll(Decode(b).records), Decode(b).rest);
  }

  lemma SuffixOf(a: seq<Byte>, b: seq<Byte>)
    ensures (a + b)[|a + b| - |b|..] == b
  {
  }

  lemma NothingLeftToRead(s: Sys, held: seq<Byte>, file: seq<Byte>)
    requires RefillInvariant(s, held, file, |file|)
    ensures Ended(file) == if |held| == 0 then s else s.(log := s.log + [CorruptEnd(|held|)])
  {
  }

  /**
   `main` after the file is opened, for every way `fread` splits the file into non-empty chunks.
   The loop always has room to read into, and it ends.
   */
  method ReadTrace(file: seq<Byte>) returns (reader: Reader)
    ensures reader.View() == WholeFile(file)
  {
    hide RefillInvariant, Ended, Parsed, Garbage, Complete, Decode, Printed, Closed;
    reader := new Reader();
    var data, pos := 0, 0;
    StartRefill(file);
    assert reader.buffer[..0] == [];
    while true
      invariant 0 <= data <= reader.buffer.Length == BUFFER_SIZE && 0 <= pos <= |file|
      invariant fresh(reader) && fresh(reader.buffer)
      invariant RefillInvariant(reader.View(), reader.buffer[..data], file, pos)
      decreases |file| - pos
    {
      ghost var s, held := reader.View(), reader.buffer[..data];
      CarryOverIsShort(s, held, file, pos);
      if pos == |file| {
        NothingLeftToRead(s, held, file);
        if data != 0 {
          reader.log := reader.log + [CorruptEnd(data)];
        }
        break;
      }
      var read: nat :| 1 <= read <= BUFFER_SIZE - data && read <= |file| - pos;
      reader.Receive(file[pos..pos + read], data);
      RefillStep(s, held, file, pos, read);
      data := data + read;
      pos := pos + read;
      RestIsSuffix(reader.buffer[..data]);
      var parsed := reader.Parse(data);
      if parsed < 0 {
        break;
      }
      reader.MoveDown(parsed, data);
      data := data - parsed;
    }
    assert reader.View() == Ended(file);
    reader.PrintState();
    reader.PrintTotals();
  }
}
