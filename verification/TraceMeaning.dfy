/**
 What a trace means by its records alone: which entries are live at the end, with which sizes, what was
 counted and what was printed, told without following the reader's map.
 */
module TraceMeaning {
  import opened TraceReader

  // The record asks for memory at the address.
  predicate Offers(r: Record, a: nat) {
    !r.Free? && r.address == a
  }

  // The record ends whatever is at the address.
  predicate Ends(r: Record, a: nat) {
    (r.Free? && r.address == a) || (r.Realloc? && r.previous == a)
  }

  // The first record that offers the address since the last one that ended it.
  ghost predicate Enters(rs: seq<Record>, k: nat, a: nat) {
    && k < |rs| && Offers(rs[k], a)
    && forall i :: 0 <= i < k && Offers(rs[i], a) ==> EndedIn(rs, i, k + 1, a)
  }

  ghost predicate EndedIn(rs: seq<Record>, i: nat, j: nat, a: nat)
    requires i <= j <= |rs|
  {
    exists e :: i < e < j && Ends(rs[e], a)
  }

  // What is live at the address is what record k put there.
  ghost predicate PutBy(rs: seq<Record>, k: nat, a: nat) {
    Enters(rs, k, a) && !EndedIn(rs, k, |rs|, a)
  }

  ghost predicate Puts(rs: seq<Record>, k: nat, a: nat, size: nat) {
    PutBy(rs, k, a) && rs[k].size == size
  }

  ghost predicate Alive(rs: seq<Record>, a: nat) {
    exists k: nat :: PutBy(rs, k, a)
  }

  predicate HasEntry(live: map<nat, nat>, a: nat, size: nat) {
    a in live && live[a] == size
  }

  // The map is exactly the entries put by some record.
  ghost predicate Leaves(rs: seq<Record>, live: map<nat, nat>) {
    forall a: nat, size: nat :: HasEntry(live, a, size) <==> exists k: nat :: Puts(rs, k, a, size)
  }

  lemma PutByOne(rs: seq<Record>, j: nat, k: nat, a: nat)
    requires PutBy(rs, j, a) && PutBy(rs, k, a)
    ensures j == k
  {
  }

  // Offered and not ended since, an address is alive.
  lemma {:induction false} OfferedIsAlive(rs: seq<Record>, i: nat, a: nat)
    requires i < |rs| && Offers(rs[i], a) && !EndedIn(rs, i, |rs|, a)
    ensures Alive(rs, a)
    decreases i
  {
    if !Enters(rs, i, a) {
      var h :| 0 <= h < i && Offers(rs[h], a) && !EndedIn(rs, h, i + 1, a);
      OfferedIsAlive(rs, h, a);
    } else {
      assert PutBy(rs, i, a);
    }
  }

  lemma SameBefore(rs: seq<Record>, r: Record, k: nat, a: nat)
    requires k < |rs|
    ensures Enters(rs + [r], k, a) <==> Enters(rs, k, a)
    ensures EndedIn(rs + [r], k, |rs| + 1, a) <==> EndedIn(rs, k, |rs|, a) || Ends(r, a)
  {
    var all := rs + [r];
    assert all[|rs|] == r;
    forall i, j | 0 <= i <= j <= |rs| ensures EndedIn(all, i, j, a) <==> EndedIn(rs, i, j, a) {
      assert forall e :: i < e < j ==> all[e] == rs[e];
    }
    assert forall i :: 0 <= i <= k ==> all[i] == rs[i];
  }

  // One record more: it puts an entry, ends one, or leaves all as they were.
  lemma PutByOneMore(rs: seq<Record>, r: Record, k: nat, a: nat)
    ensures k < |rs| ==> (PutBy(rs + [r], k, a) <==> PutBy(rs, k, a) && !Ends(r, a))
    ensures PutBy(rs + [r], |rs|, a) <==> Offers(r, a) && (Ends(r, a) || !Alive(rs, a))
  {
    var all := rs + [r];
    if k < |rs| { SameBefore(rs, r, k, a); }
    assert all[|rs|] == r;
    if Offers(r, a) && !Ends(r, a) {
      if Alive(rs, a) {
        var j: nat :| PutBy(rs, j, a);
        SameBefore(rs, r, j, a);
        assert all[j] == rs[j];
      } else {
        forall i | 0 <= i < |rs| && Offers(all[i], a) ensures EndedIn(all, i, |rs| + 1, a) {
          SameBefore(rs, r, i, a);
          if !EndedIn(rs, i, |rs|, a) { OfferedIsAlive(rs, i, a); }
        }
      }
    }
  }

  lemma AliveIsIn(rs: seq<Record>, live: map<nat, nat>, a: nat)
    requires Leaves(rs, live)
    ensures Alive(rs, a) <==> a in live
  {
    if a in live {
      assert HasEntry(live, a, live[a]);
    }
    if Alive(rs, a) {
      var k: nat :| PutBy(rs, k, a);
      assert Puts(rs, k, a, rs[k].size) && HasEntry(live, a, rs[k].size);
    }
  }

  // What one record makes of the entries.
  predicate EntriesChange(live: map<nat, nat>, r: Record, live': map<nat, nat>, a: nat, size: nat) {
    HasEntry(live', a, size) <==>
      if Offers(r, a) && (Ends(r, a) || a !in live) then r.size == size else HasEntry(live, a, size) && !Ends(r, a)
  }

  lemma EntryOneMore(rs: seq<Record>, live: map<nat, nat>, r: Record, live': map<nat, nat>, a: nat, size: nat)
    requires Leaves(rs, live) && EntriesChange(live, r, live', a, size)
    ensures HasEntry(live', a, size) <==> exists k: nat :: Puts(rs + [r], k, a, size)
  {
    hide PutBy, HasEntry, Ends;
    var all := rs + [r];
    AliveIsIn(rs, live, a);
    PutByOneMore(rs, r, |rs|, a);
    if HasEntry(live', a, size) {
      if Offers(r, a) && (Ends(r, a) || a !in live) {
        assert Puts(all, |rs|, a, size);
      } else {
        var k: nat :| Puts(rs, k, a, size);
        PutByOneMore(rs, r, k, a);
        assert Puts(all, k, a, size) by { IsIn(rs, k, a); }
      }
    }
    if k: nat :| Puts(all, k, a, size) {
      IsIn(all, k, a);
      PutByOneMore(rs, r, k, a);
      if k < |rs| {
        assert Puts(rs, k, a, size);
        assert HasEntry(live, a, size) && Alive(rs, a);
      }
    }
  }

  lemma IsIn(rs: seq<Record>, k: nat, a: nat)
    requires PutBy(rs, k, a)
    ensures k < |rs| && !rs[k].Free?
  {
  }

  lemma EntriesOneMore(rs: seq<Record>, live: map<nat, nat>, r: Record, live': map<nat, nat>)
    requires Leaves(rs, live) && forall a: nat, size: nat :: EntriesChange(live, r, live', a, size)
    ensures Leaves(rs + [r], live')
  {
    hide Puts, HasEntry, EntriesChange;
    forall a: nat, size: nat
      ensures HasEntry(live', a, size) <==> exists k: nat :: Puts(rs + [r], k, a, size)
    {
      assert EntriesChange(live, r, live', a, size);
      EntryOneMore(rs, live, r, live', a, size);
    }
  }

  // ----- what is counted and printed -----

  ghost function Counts(rs: seq<Record>): Fields {
    if |rs| == 0 then Fields(0, 0, 0, 0, 0, 0)
    else
      var front, r := rs[..|rs| - 1], rs[|rs| - 1];
      var f := Counts(front).(time := LatestTime(rs));
      match r
      case Malloc(_, _, _) => f.(mallocs := f.mallocs + 1)
      case Realloc(_, previous, _, _) =>
        if Alive(front, previous) then f.(reallocs := f.reallocs + 1)
        else f.(unknownReallocs := f.unknownReallocs + 1)
      case Free(_, address) =>
        if Alive(front, address) then f.(frees := f.frees + 1) else f.(unknownFrees := f.unknownFrees + 1)
  }

  // The state of the entries before the record is printed when its time is later than all before, and of
  // these there was one; an earlier time is warned about, and so is an offer of an address that stays alive.
  ghost function Lines(rs: seq<Record>, live: map<nat, nat>, r: Record): seq<Event> {
    var latest := LatestTime(rs);
    (if r.time < latest then [LateTime(r.time, latest)]
     else if r.time > latest && latest != 0 then
       [Snapshot(latest, Total(live) % 0x1_0000_0000_0000_0000, Counts(rs).unknownFrees)]
     else [])
    + if !r.Free? && Alive(rs, r.address) && !Ends(r, r.address) then [Repeated(r.address, r.size)] else []
  }

  lemma CountsAreTimed(rs: seq<Record>)
    ensures Counts(rs).time == LatestTime(rs)
  {
  }

  lemma EffectOnEntry(s: Sys, r: Record, a: nat, size: nat)
    ensures EntriesChange(s.live, r, Effect(s, r).live, a, size)
  {
  }

  lemma EffectOnEntries(rs: seq<Record>, s: Sys, r: Record)
    requires Leaves(rs, s.live)
    ensures Leaves(rs + [r], Apply(s, r).live)
  {
    var live := Apply(s, r).live;
    assert live == Effect(s, r).live by { hide Total; }
    hide Apply, Leaves, Effect, EntriesChange;
    forall a: nat, size: nat ensures EntriesChange(s.live, r, live, a, size) {
      EffectOnEntry(s, r, a, size);
    }
    EntriesOneMore(rs, s.live, r, live);
  }

  // One record: its entries, its count and its lines.
  lemma ApplyMeans(rs: seq<Record>, s: Sys, r: Record)
    requires Leaves(rs, s.live) && s.state == Counts(rs)
    ensures var t := Apply(s, r);
            Leaves(rs + [r], t.live) && t.state == Counts(rs + [r]) && t.log == s.log + Lines(rs, s.live, r)
  {
    EffectOnEntries(rs, s, r);
    AliveIsIn(rs, s.live, if r.Realloc? then r.previous else r.address);
    AliveIsIn(rs, s.live, r.address);
    CountsAreTimed(rs);
    assert (rs + [r])[..|rs|] == rs;
    hide Leaves, Alive, Total;
  }

  /**
   After any records the live entries are exactly those some record put there, each with the size of that record,
   and each record was counted as what it is.
   */
  lemma {:induction false} RunMeans(rs: seq<Record>)
    ensures var s := Run(INITIAL, rs); Leaves(rs, s.live) && s.state == Counts(rs)
    decreases |rs|
  {
    if |rs| == 0 {
      assert Leaves([], map[]);
    } else {
      var front, last := rs[..|rs| - 1], rs[|rs| - 1];
      RunMeans(front);
      RunOneMore(front, last);
      ApplyMeans(front, Run(INITIAL, front), last);
      assert rs == front + [last];
    }
  }

  lemma RunOneMore(rs: seq<Record>, r: Record)
    ensures Run(INITIAL, rs + [r]) == Apply(Run(INITIAL, rs), r)
  {
    RunAppend(INITIAL, rs, [r]);
    assert Run(Run(INITIAL, rs), [r]) == Apply(Run(INITIAL, rs), r);
  }

  /** What each record prints, and with which total, follows from the records before it. */
  lemma LogOneMore(rs: seq<Record>, r: Record, live: map<nat, nat>)
    requires Leaves(rs, live)
    ensures Run(INITIAL, rs + [r]).log == Run(INITIAL, rs).log + Lines(rs, live, r)
  {
    var s := Run(INITIAL, rs);
    RunMeans(rs);
    RunOneMore(rs, r);
    ApplyMeans(rs, s, r);
    OneMapLeft(rs, live, s.live);
  }

  lemma OneMapLeft(rs: seq<Record>, m: map<nat, nat>, n: map<nat, nat>)
    requires Leaves(rs, m) && Leaves(rs, n)
    ensures m == n
  {
    forall a | a in m ensures HasEntry(n, a, m[a]) { assert HasEntry(m, a, m[a]); }
    forall a | a in n ensures HasEntry(m, a, n[a]) { assert HasEntry(n, a, n[a]); }
  }

  /** The end of a file: what is left unparsed, the last snapshot and the totals. */
  lemma FileMeans(file: seq<Byte>, live: map<nat, nat>)
    requires Leaves(Decode(file).records, live)
    ensures var rs, rest := Decode(file).records, Decode(file).rest;
            var s, f, latest := WholeFile(file), Counts(rs), LatestTime(rs);
            && s.live == live && s.state == f
            && s.log == Run(INITIAL, rs).log
                        + (if rest == [] then []
                           else if Garbage(rest) then [BadCommand((rest[0] as int) - if rest[0] < 128 then 0 else 256)]
                           else [CorruptEnd(|rest|)])
                        + (if latest == 0 then []
                           else [Snapshot(latest, Total(live) % 0x1_0000_0000_0000_0000, f.unknownFrees)])
                        + [Totals(f.mallocs, f.reallocs, f.frees, f.unknownReallocs)]
  {
    hide Leaves, Run, Decode, LatestTime;
    var rs := Decode(file).records;
    RunMeans(rs);
    CountsAreTimed(rs);
    OneMapLeft(rs, live, Run(INITIAL, rs).live);
  }
}
