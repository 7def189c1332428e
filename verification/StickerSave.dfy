/**
 Saving the sticker sets: the local effect of one save on the sets, their order and the recent pack,
 and the protocol of its install, uninstall and reorder requests.
 */
module StickerSave {

  datatype Type = Stickers | Masks | Emoji

  datatype Flags = Flags(installed: bool, archived: bool, masks: bool, featured: bool, special: bool, emoji: bool)

  datatype StickersSet = StickersSet(flags: Flags, locked: nat, installDate: int, stickers: set<nat>)

  type Sets = map<nat, StickersSet>

  datatype Recent = Recent(sticker: nat, uses: int)

  const CUSTOM_SET_ID: nat := 0xFFFF_FFFF_FFFF_FFFF
  const CLOUD_RECENT_SET_ID: nat := 0xFFFF_FFFF_FFFF_FFFC
  const CLOUD_RECENT_ATTACHED_SET_ID: nat := 0xFFFF_FFFF_FFFF_FFF9

  predicate IsCloudRecent(id: nat) {
    id == CLOUD_RECENT_SET_ID || id == CLOUD_RECENT_ATTACHED_SET_ID
  }

  predicate DroppedWithCloudRecent(id: nat) {
    IsCloudRecent(id) || id == CUSTOM_SET_ID
  }

  // ----- what a save means -----

  // Kept by nothing but being installed.
  predicate Plain(s: StickersSet) {
    !s.flags.featured && !s.flags.special && !s.flags.emoji && s.locked == 0
  }

  function Uninstalled(s: StickersSet): StickersSet {
    s.(flags := s.flags.(installed := false, archived := false), installDate := 0)
  }

  predicate RemovesCloudRecent(removed: seq<nat>) {
    exists id :: id in removed && IsCloudRecent(id)
  }

  predicate SurvivesRemoval(id: nat, s: StickersSet, removed: seq<nat>) {
    && !(RemovesCloudRecent(removed) && DroppedWithCloudRecent(id))
    && !(id in removed && !IsCloudRecent(id) && !s.flags.archived && Plain(s))
  }

  function AfterRemoval(id: nat, s: StickersSet, removed: seq<nat>): StickersSet {
    if id in removed && !IsCloudRecent(id) && !s.flags.archived then Uninstalled(s) else s
  }

  function Remaining(sets: Sets, removed: seq<nat>): Sets {
    map id | id in sets && SurvivesRemoval(id, sets[id], removed) :: AfterRemoval(id, sets[id], removed)
  }

  // A sticker of a removed set.
  predicate IsRemovedSticker(sticker: nat, sets: Sets, removed: seq<nat>) {
    exists id :: id in removed && !IsCloudRecent(id) && id in sets && sticker in sets[id].stickers
  }

  function RecentWithout(recent: seq<Recent>, sets: Sets, removed: seq<nat>): seq<Recent> {
    if |recent| == 0 then []
    else
      var front, last := RecentWithout(recent[..|recent| - 1], sets, removed), recent[|recent| - 1];
      if IsRemovedSticker(last.sticker, sets, removed) then front else front + [last]
  }

  function RemainingRecent(recent: seq<Recent>, sets: Sets, removed: seq<nat>): seq<Recent> {
    if RemovesCloudRecent(removed) then [] else RecentWithout(recent, sets, removed)
  }

  function TypeOf(s: StickersSet): Type {
    if s.flags.emoji then Emoji else if s.flags.masks then Masks else Stickers
  }

  function Cleared(s: StickersSet, t: Type): StickersSet {
    if !s.flags.archived && TypeOf(s) == t then s.(flags := s.flags.(installed := false)) else s
  }

  // A set of the new order.
  function Installed(id: nat, s: StickersSet, removed: seq<nat>, now: int): StickersSet {
    s.(flags := s.flags.(installed := true, archived := s.flags.archived && id in removed),
       installDate := if s.installDate == 0 then now else s.installDate)
  }

  predicate Swept(s: StickersSet) {
    Plain(s) && !s.flags.installed && !s.flags.archived
  }

  // A remaining set after the order was rebuilt.
  function Rebuilt(id: nat, s: StickersSet, order: seq<nat>, removed: seq<nat>, t: Type, now: int): StickersSet {
    if id in order then Installed(id, Cleared(s, t), removed, now) else Cleared(s, t)
  }

  function Saved(sets: Sets, order: seq<nat>, removed: seq<nat>, t: Type, now: int): Sets {
    var remaining := Remaining(sets, removed);
    map id | id in remaining && !Swept(Rebuilt(id, remaining[id], order, removed, t, now))
      :: Rebuilt(id, remaining[id], order, removed, t, now)
  }

  // The local order restricted to the sets that are still there.
  function Known(order: seq<nat>, sets: Sets): seq<nat> {
    if |order| == 0 then []
    else
      var front, last := Known(order[..|order| - 1], sets), order[|order| - 1];
      if last in sets then front + [last] else front
  }

  // ----- properties of a save -----

  lemma {:induction false} KnownMembers(order: seq<nat>, sets: Sets)
    ensures forall id :: id in Known(order, sets) <==> id in order && id in sets
    decreases |order|
  {
    if |order| > 0 {
      var front, last := order[..|order| - 1], order[|order| - 1];
      KnownMembers(front, sets);
      assert order == front + [last];
    }
  }

  /** Every set of the new order is still known after the save, and installed. */
  lemma OrderedSetsExist(sets: Sets, order: seq<nat>, removed: seq<nat>, t: Type, now: int, id: nat)
    requires id in Known(order, Remaining(sets, removed))
    ensures var saved := Saved(sets, order, removed, t, now);
            id in saved && saved[id].flags.installed
  {
    KnownMembers(order, Remaining(sets, removed));
  }

  /** A non-archived set of the saved type is installed exactly when it is in the new order. */
  lemma InstalledIsOrdered(sets: Sets, order: seq<nat>, removed: seq<nat>, t: Type, now: int, id: nat)
    requires var saved := Saved(sets, order, removed, t, now);
             id in saved && !saved[id].flags.archived && TypeOf(saved[id]) == t
    ensures Saved(sets, order, removed, t, now)[id].flags.installed <==> id in Known(order, Remaining(sets, removed))
  {
    KnownMembers(order, Remaining(sets, removed));
  }

  lemma ArchivedBefore(id: nat, s: StickersSet, order: seq<nat>, removed: seq<nat>, t: Type, now: int)
    requires Rebuilt(id, AfterRemoval(id, s, removed), order, removed, t, now).flags.archived
    ensures s.flags.archived && (id in order ==> id in removed)
  {
  }

  /** A set the save leaves archived was archived before, and is not in the order unless it was also removed. */
  lemma ArchivedWasArchived(sets: Sets, order: seq<nat>, removed: seq<nat>, t: Type, now: int, id: nat)
    requires var saved := Saved(sets, order, removed, t, now); id in saved && saved[id].flags.archived
    ensures id in sets && sets[id].flags.archived && (id in order ==> id in removed)
  {
    hide Swept, SurvivesRemoval, AfterRemoval, Rebuilt;
    ArchivedBefore(id, sets[id], order, removed, t, now);
  }

  /** A set disappears only by removal, or because nothing but being installed kept it. */
  lemma GoneSetsWereRemovable(sets: Sets, order: seq<nat>, removed: seq<nat>, t: Type, now: int, id: nat)
    requires id in sets && id !in Saved(sets, order, removed, t, now)
    ensures (RemovesCloudRecent(removed) && DroppedWithCloudRecent(id))
            || (Plain(sets[id]) && !sets[id].flags.archived && (id in removed || id !in order))
  {
  }

  /** The recent pack lost exactly the stickers of removed sets, or everything with a cloud recent set. */
  lemma {:induction false} RecentLosesExactlyRemoved(recent: seq<Recent>, sets: Sets, removed: seq<nat>, r: Recent)
    ensures r in RecentWithout(recent, sets, removed)
       <==> r in recent && !IsRemovedSticker(r.sticker, sets, removed)
    decreases |recent|
  {
    if |recent| > 0 {
      var front, last := recent[..|recent| - 1], recent[|recent| - 1];
      RecentLosesExactlyRemoved(front, sets, removed, r);
      assert recent == front + [last];
    }
  }

  // The new order and the recent pack keep theirs: both are taken piece by piece.
  lemma {:induction false} KnownSplits(a: seq<nat>, b: seq<nat>, sets: Sets)
    ensures Known(a + b, sets) == Known(a, sets) + Known(b, sets)
    decreases |b|
  {
    if |b| == 0 {
      assert a + b == a;
    } else {
      assert (a + b)[..|a + b| - 1] == a + b[..|b| - 1];
      KnownSplits(a, b[..|b| - 1], sets);
    }
  }

  lemma {:induction false} RecentSplits(a: seq<Recent>, b: seq<Recent>, sets: Sets, removed: seq<nat>)
    ensures RecentWithout(a + b, sets, removed) == RecentWithout(a, sets, removed) + RecentWithout(b, sets, removed)
    decreases |b|
  {
    hide IsRemovedSticker;
    if |b| == 0 {
      assert a + b == a;
    } else {
      assert (a + b)[..|a + b| - 1] == a + b[..|b| - 1];
      RecentSplits(a, b[..|b| - 1], sets, removed);
    }
  }

  // Whether a save takes a set of its own accord: it is removed, and was not archived.
  predicate Takes(id: nat, s: StickersSet, removed: seq<nat>) {
    id in removed && !s.flags.archived && id !in {0xFFFF_FFFF_FFFF_FFFC, 0xFFFF_FFFF_FFFF_FFF9}
  }

  predicate HasType(f: Flags, t: Type) {
    match t
    case Emoji => f.emoji
    case Masks => f.masks && !f.emoji
    case Stickers => !f.masks && !f.emoji
  }

  /**
   What a save makes of each set, flag by flag. It is gone when it goes with a cloud recent set, when it is taken
   and nothing else keeps it, or when nothing but being installed kept it and it is not in the order.
   */
  lemma SavedIs(sets: Sets, order: seq<nat>, removed: seq<nat>, t: Type, now: int, id: nat)
    requires id in sets
    ensures var s, saved := sets[id], Saved(sets, order, removed, t, now);
            var f := s.flags;
            var taken, kept := Takes(id, s, removed), f.featured || f.special || f.emoji || s.locked > 0;
            var withCloud := (0xFFFF_FFFF_FFFF_FFFC in removed || 0xFFFF_FFFF_FFFF_FFF9 in removed)
                             && id in {0xFFFF_FFFF_FFFF_FFFC, 0xFFFF_FFFF_FFFF_FFF9, 0xFFFF_FFFF_FFFF_FFFF};
            var stays := f.installed && !taken && (f.archived || !HasType(f, t));
            && (id in saved <==>
                  !withCloud && (kept || (!taken && (id in order || f.archived || stays))))
            && (id in saved ==>
                  && saved[id].flags == f.(installed := id in order || stays,
                                           archived := f.archived && (id in order ==> id in removed))
                  && saved[id].locked == s.locked && saved[id].stickers == s.stickers
                  && saved[id].installDate == if taken && id !in order then 0
                                              else if id in order && (taken || s.installDate == 0) then now
                                              else s.installDate)
  {
    hide Swept, SurvivesRemoval, AfterRemoval, Rebuilt;
    var s := sets[id];
    SurvivesIs(id, s, removed);
    RebuiltIs(id, s, order, removed, t, now);
  }

  lemma SurvivesIs(id: nat, s: StickersSet, removed: seq<nat>)
    ensures SurvivesRemoval(id, s, removed) <==>
              && !((0xFFFF_FFFF_FFFF_FFFC in removed || 0xFFFF_FFFF_FFFF_FFF9 in removed)
                   && id in {0xFFFF_FFFF_FFFF_FFFC, 0xFFFF_FFFF_FFFF_FFF9, 0xFFFF_FFFF_FFFF_FFFF})
              && !(Takes(id, s, removed) && !s.flags.featured && !s.flags.special && !s.flags.emoji && s.locked == 0)
  {
  }

  lemma RebuiltIs(id: nat, s: StickersSet, order: seq<nat>, removed: seq<nat>, t: Type, now: int)
    ensures var r, f := Rebuilt(id, AfterRemoval(id, s, removed), order, removed, t, now), s.flags;
            var taken := Takes(id, s, removed);
            var stays := f.installed && !taken && (f.archived || !HasType(f, t));
            && r.flags == f.(installed := id in order || stays,
                             archived := f.archived && (id in order ==> id in removed))
            && r.locked == s.locked && r.stickers == s.stickers
            && (r.installDate == if taken && id !in order then 0
                                 else if id in order && (taken || s.installDate == 0) then now else s.installDate)
            && (Swept(r) <==> !f.featured && !f.special && !f.emoji && s.locked == 0
                              && !r.flags.installed && !r.flags.archived)
  {
  }

  // ----- one removed id at a time -----

  function WithoutStickers(recent: seq<Recent>, stickers: set<nat>): seq<Recent> {
    if |recent| == 0 then []
    else
      var front, last := WithoutStickers(recent[..|recent| - 1], stickers), recent[|recent| - 1];
      if last.sticker in stickers then front else front + [last]
  }

  // The sets after one turn of the loop over `localRemoved`.
  function RemovedOne(sets: Sets, id: nat): Sets {
    if IsCloudRecent(id) then sets - {CLOUD_RECENT_SET_ID, CLOUD_RECENT_ATTACHED_SET_ID, CUSTOM_SET_ID}
    else if id !in sets || sets[id].flags.archived then sets
    else if Plain(sets[id]) then sets - {id}
    else sets[id := Uninstalled(sets[id])]
  }

  function RecentAfterOne(recent: seq<Recent>, sets: Sets, id: nat): seq<Recent> {
    if IsCloudRecent(id) then []
    else if id in sets then WithoutStickers(recent, sets[id].stickers)
    else recent
  }

  lemma RemoveOneMore(sets: Sets, removed: seq<nat>, i: nat)
    requires i < |removed|
    ensures Remaining(sets, removed[..i + 1]) == RemovedOne(Remaining(sets, removed[..i]), removed[i])
  {
  }

  lemma {:induction false} RecentWithoutOneMore(recent: seq<Recent>, sets: Sets, before: seq<nat>, after: seq<nat>,
                                                stickers: set<nat>)
    requires forall x :: IsRemovedSticker(x, sets, after) <==> IsRemovedSticker(x, sets, before) || x in stickers
    ensures RecentWithout(recent, sets, after) == WithoutStickers(RecentWithout(recent, sets, before), stickers)
    decreases |recent|
  {
    hide IsRemovedSticker;
    if |recent| > 0 {
      var front, last := recent[..|recent| - 1], recent[|recent| - 1];
      RecentWithoutOneMore(front, sets, before, after, stickers);
      var kept := RecentWithout(front, sets, before);
      assert (kept + [last])[..|kept|] == kept;
    }
  }

  lemma {:induction false} WithoutNothing(recent: seq<Recent>)
    ensures WithoutStickers(recent, {}) == recent
  {
    if |recent| > 0 { WithoutNothing(recent[..|recent| - 1]); }
  }

  lemma RecentOneMore(recent: seq<Recent>, sets: Sets, removed: seq<nat>, i: nat)
    requires i < |removed|
    ensures RemainingRecent(recent, sets, removed[..i + 1])
         == RecentAfterOne(RemainingRecent(recent, sets, removed[..i]), Remaining(sets, removed[..i]), removed[i])
  {
    var before, after, id := removed[..i], removed[..i + 1], removed[i];
    assert after == before + [id];
    if IsCloudRecent(id) {
      assert id in after;
    } else if RemovesCloudRecent(before) {
      var c :| c in before && IsCloudRecent(c);
      assert c in after;
    } else {
      assert !RemovesCloudRecent(after);
      var now := Remaining(sets, before);
      var stickers := if id in now then now[id].stickers else {};
      forall x ensures IsRemovedSticker(x, sets, after) <==> IsRemovedSticker(x, sets, before) || x in stickers {
        RemovedStickerOneMore(x, sets, before, after, id);
      }
      RecentWithoutOneMore(recent, sets, before, after, stickers);
      WithoutNothing(RecentWithout(recent, sets, before));
    }
  }

  lemma RemovedStickerOneMore(x: nat, sets: Sets, before: seq<nat>, after: seq<nat>, id: nat)
    requires after == before + [id] && !IsCloudRecent(id) && !RemovesCloudRecent(before)
    ensures var now := Remaining(sets, before);
            (IsRemovedSticker(x, sets, after)
             <==> IsRemovedSticker(x, sets, before) || (id in now && x in now[id].stickers))
  {
  }

  // ----- the loops over the sets -----

  // The loop that takes a removed set's stickers out of the recent pack.
  method EraseRecent(recent: seq<Recent>, stickers: set<nat>) returns (left: seq<Recent>)
    ensures left == WithoutStickers(recent, stickers)
  {
    left := [];
    for i := 0 to |recent|
      invariant left == WithoutStickers(recent[..i], stickers)
    {
      assert recent[..i + 1][..i] == recent[..i];
      if recent[i].sticker !in stickers {
        left := left + [recent[i]];
      }
    }
    assert recent[..|recent|] == recent;
  }

  function ClearedAll(sets: Sets, t: Type): Sets {
    map id | id in sets :: Cleared(sets[id], t)
  }

  // "Clear all installed flags, set only for sets from order."
  method ClearInstalled(sets: Sets, t: Type) returns (cleared: Sets)
    ensures cleared == ClearedAll(sets, t)
  {
    cleared := sets;
    var left := sets.Keys;
    while left != {}
      invariant left <= sets.Keys
      invariant cleared == map id | id in sets :: if id in left then sets[id] else Cleared(sets[id], t)
      decreases |left|
    {
      var id :| id in left;
      left := left - {id};
      var s := cleared[id];
      if !s.flags.archived && t == (if s.flags.emoji then Emoji else if s.flags.masks then Masks else Stickers) {
        cleared := cleared[id := s.(flags := s.flags.(installed := false))];
      }
    }
  }

  function SweptOut(sets: Sets): Sets {
    map id | id in sets && !Swept(sets[id]) :: sets[id]
  }

  // The last loop, which erases the sets that nothing keeps.
  method Sweep(sets: Sets) returns (kept: Sets)
    ensures kept == SweptOut(sets)
  {
    kept := sets;
    var left := sets.Keys;
    while left != {}
      invariant left <= sets.Keys
      invariant kept == map id | id in sets && (id in left || !Swept(sets[id])) :: sets[id]
      decreases |left|
    {
      var id :| id in left;
      left := left - {id};
      var s := kept[id];
      if !(s.flags.featured || s.flags.installed || s.flags.archived || s.flags.special || s.flags.emoji
           || s.locked > 0) {
        kept := kept - {id};
      }
    }
  }

  // The sets after the first i ids of the local order were installed.
  function InstalledUpTo(sets: Sets, order: seq<nat>, removed: seq<nat>, now: int): Sets {
    map id | id in sets :: if id in order then Installed(id, sets[id], removed, now) else sets[id]
  }

  lemma InstallOneMore(sets: Sets, order: seq<nat>, i: nat, removed: seq<nat>, now: int)
    requires i < |order|
    ensures var before := InstalledUpTo(sets, order[..i], removed, now);
            (order[i] in before <==> order[i] in sets) &&
            InstalledUpTo(sets, order[..i + 1], removed, now)
            == if order[i] in before then before[order[i] := Installed(order[i], before[order[i]], removed, now)]
               else before
    ensures Known(order[..i + 1], sets)
         == if order[i] in sets then Known(order[..i], sets) + [order[i]] else Known(order[..i], sets)
  {
    assert order[..i + 1] == order[..i] + [order[i]];
  }

  // The four phases make up a save.
  lemma PhasesMakeSave(sets: Sets, order: seq<nat>, removed: seq<nat>, t: Type, now: int)
    ensures var cleared := ClearedAll(Remaining(sets, removed), t);
            SweptOut(InstalledUpTo(cleared, order, removed, now)) == Saved(sets, order, removed, t, now)
    ensures Known(order, ClearedAll(Remaining(sets, removed), t)) == Known(order, Remaining(sets, removed))
  {
    hide Swept, Installed, Cleared, SurvivesRemoval, AfterRemoval;
    SameKnown(order, Remaining(sets, removed), ClearedAll(Remaining(sets, removed), t));
  }

  lemma {:induction false} SameKnown(order: seq<nat>, a: Sets, b: Sets)
    requires a.Keys == b.Keys
    ensures Known(order, a) == Known(order, b)
  {
    if |order| > 0 { SameKnown(order[..|order| - 1], a, b); }
  }

  // ----- the protocol -----

  // Requests of one type of sets. The other types have fields of their own and go the same way.
  // An install of a set, or an uninstall.
  datatype Ask = Ask(setId: nat, install: bool)

  datatype Request =
    | Disenable(save: nat, ask: Ask)  // its handler captures the save's order
    | Reorder(save: nat)
    | ClearRecent(attached: bool)

  datatype SentReorder = SentReorder(save: nat, order: seq<nat>)

  type Owed = map<nat, Request>

  ghost predicate NotSent(save: nat, sent: seq<SentReorder>) {
    forall i :: 0 <= i < |sent| ==> sent[i].save != save
  }

  // A reorder carries its own save's order, at most one a save, and never one that was overtaken while
  // its installs or uninstalls were owed. `saves` holds the orders of all calls so far.
  ghost predicate SentHolds(sent: seq<SentReorder>, saves: seq<seq<nat>>, overtaken: set<nat>) {
    && (forall i :: 0 <= i < |sent| ==>
          sent[i].save < |saves| && sent[i].order == saves[sent[i].save] && sent[i].save !in overtaken)
    && (forall i, j :: 0 <= i < j < |sent| ==> sent[i].save != sent[j].save)
  }

  // The installs and uninstalls owed are the ones counted, all of the latest save, which has sent no
  // reorder while there are any; a reorder owed is the one stored.
  ghost predicate OwedHolds(disable: set<nat>, reorder: nat, outstanding: Owed, current: int) {
    && (forall id :: id in disable ==>
          id in outstanding && outstanding[id].Disenable? && outstanding[id].save == current)
    && (forall id :: id in outstanding && outstanding[id].Disenable? ==> id in disable)
    && (reorder != 0 ==> reorder in outstanding && outstanding[reorder].Reorder?)
    && (forall id :: id in outstanding && outstanding[id].Reorder? ==> id == reorder && outstanding[id].save == current)
  }

  // An install or uninstall that is owed.
  ghost predicate Asked(ask: Ask, disable: set<nat>, outstanding: Owed) {
    exists id :: id in disable && id in outstanding && outstanding[id].Disenable? && outstanding[id].ask == ask
  }

  lemma AskOneMore(x: Ask, disable: set<nat>, outstanding: Owed, id: nat, r: Request)
    requires id !in outstanding && id !in disable && r.Disenable?
    ensures Asked(x, disable + {id}, outstanding[id := r]) <==> Asked(x, disable, outstanding) || x == r.ask
  {
  }

  lemma SentOneMore(sent: seq<SentReorder>, saves: seq<seq<nat>>, overtaken: set<nat>, save: nat)
    requires SentHolds(sent, saves, overtaken) && NotSent(save, sent)
    requires save < |saves| && save !in overtaken
    ensures SentHolds(sent + [SentReorder(save, saves[save])], saves, overtaken)
    ensures !NotSent(save, sent + [SentReorder(save, saves[save])])
  {
    assert (sent + [SentReorder(save, saves[save])])[|sent|].save == save;
  }

  lemma OneMoreSave(sent: seq<SentReorder>, saves: seq<seq<nat>>, overtaken: set<nat>, order: seq<nat>)
    requires SentHolds(sent, saves, overtaken)
    ensures SentHolds(sent, saves + [order], overtaken) && NotSent(|saves|, sent)
  {
  }

  ghost predicate ProtocolHolds(disable: set<nat>, reorder: nat, lastId: nat, outstanding: Owed,
                                sent: seq<SentReorder>, saves: seq<seq<nat>>, overtaken: set<nat>) {
    && (forall id :: id in outstanding ==> 0 < id <= lastId)
    && OwedHolds(disable, reorder, outstanding, |saves| - 1)
    && SentHolds(sent, saves, overtaken)
    && (forall s :: s in overtaken ==> s < |saves|)
    && (disable != {} ==> |saves| > 0 && NotSent(|saves| - 1, sent) && |saves| - 1 !in overtaken)
    && (reorder != 0 ==> |saves| > 0 && !NotSent(|saves| - 1, sent))
  }

  // After the cancels only requests of other kinds are owed.
  lemma CancelKeeps(disable: set<nat>, reorder: nat, lastId: nat, outstanding: Owed, sent: seq<SentReorder>,
                    saves: seq<seq<nat>>, overtaken: set<nat>, left: Owed, overtaken': set<nat>)
    requires ProtocolHolds(disable, reorder, lastId, outstanding, sent, saves, overtaken)
    requires forall id :: id in left ==>
               id in outstanding && left[id] == outstanding[id] && id !in disable && id != reorder
    requires if disable != {} then |saves| > 0 && overtaken' == overtaken + {|saves| - 1} else overtaken' == overtaken
    ensures forall id :: id in left ==> left[id].ClearRecent?
    ensures ProtocolHolds({}, 0, lastId, left, sent, saves, overtaken')
  {
  }

  lemma SomeSaved(disable: set<nat>, reorder: nat, lastId: nat, outstanding: Owed,
                  sent: seq<SentReorder>, saves: seq<seq<nat>>, overtaken: set<nat>)
    requires ProtocolHolds(disable, reorder, lastId, outstanding, sent, saves, overtaken)
    ensures disable != {} ==> |saves| > 0
  {
  }

  // A request id stored for the clearing of recent stickers is of such a request, if it is owed at all.
  ghost predicate ClearKnown(id: nat, lastId: nat, outstanding: Owed) {
    id <= lastId && (id in outstanding ==> outstanding[id].ClearRecent?)
  }

  // A request to clear recent stickers that was sent after the others.
  ghost predicate ClearAsked(attached: bool, since: nat, outstanding: Owed) {
    exists id :: id in outstanding && id > since && outstanding[id] == ClearRecent(attached)
  }

  function CloudSet(attached: bool): nat {
    if attached then CLOUD_RECENT_ATTACHED_SET_ID else CLOUD_RECENT_SET_ID
  }

  // The clears sent are those of the cloud recent sets that were removed.
  ghost predicate ClearsAsked(since: nat, removed: seq<nat>, outstanding: Owed) {
    forall attached :: ClearAsked(attached, since, outstanding) <==> CloudSet(attached) in removed
  }

  lemma ClearsAskedAre(since: nat, removed: seq<nat>, outstanding: Owed)
    requires ClearsAsked(since, removed, outstanding)
    ensures ClearAsked(false, since, outstanding) <==> 0xFFFF_FFFF_FFFF_FFFC in removed
    ensures ClearAsked(true, since, outstanding) <==> 0xFFFF_FFFF_FFFF_FFF9 in removed
  {
  }

  lemma NoClearsAsked(since: nat, outstanding: Owed)
    requires forall id :: id in outstanding ==> id <= since
    ensures ClearsAsked(since, [], outstanding)
  {
  }

  lemma ClearsOneMore(since: nat, removed: seq<nat>, i: nat, before: Owed, id: nat, r: Request, after: Owed)
    requires i < |removed| && ClearsAsked(since, removed[..i], before)
    requires id > since && id !in before
    requires if IsCloudRecent(removed[i]) then
               after == before[id := r] && r.ClearRecent? && CloudSet(r.attached) == removed[i]
             else after == before || (after == before[id := r] && r.Disenable?)
    ensures ClearsAsked(since, removed[..i + 1], after)
  {
    assert removed[..i + 1] == removed[..i] + [removed[i]];
    forall attached ensures ClearAsked(attached, since, after) <==> CloudSet(attached) in removed[..i + 1] {
      assert ClearAsked(attached, since, before) <==> CloudSet(attached) in removed[..i];
      if ClearAsked(attached, since, before) {
        var k :| k in before && k > since && before[k] == ClearRecent(attached);
        assert after[k] == ClearRecent(attached);
      }
      if IsCloudRecent(removed[i]) { assert after[id] == r; }
    }
  }

  ghost predicate SameClears(a: Owed, b: Owed) {
    forall id, attached ::
      id in a && a[id] == ClearRecent(attached) <==> id in b && b[id] == ClearRecent(attached)
  }

  lemma SameClearsAsked(since: nat, removed: seq<nat>, a: Owed, b: Owed)
    requires ClearsAsked(since, removed, a) && SameClears(a, b)
    ensures ClearsAsked(since, removed, b)
  {
    forall attached ensures ClearAsked(attached, since, b) <==> ClearAsked(attached, since, a) {
      assert forall id :: id in a && a[id] == ClearRecent(attached) <==> id in b && b[id] == ClearRecent(attached);
    }
  }

  // What is owed when some requests were cancelled and clears sent after that.
  ghost predicate ClearedAgain(was: Owed, cancelled: set<nat>, since: nat, clears: seq<bool>, now: Owed) {
    && (forall id :: id in was ==> id <= since)
    && (forall id :: id in now <==> (id in was && id !in cancelled) || since < id <= since + |clears|)
    && (forall id :: id in now ==> now[id] == if id <= since then was[id] else ClearRecent(clears[id - since - 1]))
  }

  lemma ClearAgain(was: Owed, cancelled: set<nat>, since: nat, clears: seq<bool>, now: Owed, attached: bool)
    requires ClearedAgain(was, cancelled, since, clears, now)
    ensures ClearedAgain(was, cancelled, since, clears + [attached], now[since + |clears| + 1 := ClearRecent(attached)])
  {
  }

  // `request(id).cancel()` for each: the handlers will not run.
  method CancelAll(outstanding: Owed, ids: set<nat>) returns (left: Owed)
    ensures forall id :: id in left <==> id in outstanding && id !in ids
    ensures forall id :: id in left ==> left[id] == outstanding[id]
  {
    left := outstanding;
    var requests := ids;
    while requests != {}
      invariant requests <= ids
      invariant forall id :: id in left <==> id in outstanding && (id !in ids || id in requests)
      invariant forall id :: id in left ==> left[id] == outstanding[id]
      decreases |requests|
    {
      var id :| id in requests;
      requests := requests - {id};
      left := left - {id};
    }
  }

  class Saver {
    const type_: Type
    var sets: Sets
    var recent: seq<Recent>
    var order: seq<nat>
    var disable: set<nat>             // `_stickerSetDisenableRequests`, or the one of the type
    var reorder: nat                  // `_stickersReorderRequestId`, or the one of the type
    var clearRecentId: nat
    var clearRecentAttachedId: nat
    var lastId: nat
    var outstanding: Owed             // what the transport still owes
    var sent: seq<SentReorder>        // the reorder requests sent so far
    var saves: seq<seq<nat>>          // the orders of the calls so far
    ghost var overtaken: set<nat>     // saves overtaken with installs or uninstalls owed

    ghost predicate Valid()
      reads this
    {
      && ProtocolHolds(disable, reorder, lastId, outstanding, sent, saves, overtaken)
      && ClearKnown(clearRecentId, lastId, outstanding)
      && ClearKnown(clearRecentAttachedId, lastId, outstanding)
    }

    constructor (type_: Type, sets: Sets, recent: seq<Recent>, order: seq<nat>)
      ensures Valid() && outstanding == map[] && sent == [] && saves == []
      ensures this.type_ == type_ && this.sets == sets && this.recent == recent
    {
      this.type_, this.sets, this.recent, this.order := type_, sets, recent, order;
      disable, reorder, clearRecentId, clearRecentAttachedId, lastId, outstanding := {}, 0, 0, 0, 0, map[];
      sent, saves, overtaken := [], [], {};
    }

    method Send(r: Request) returns (id: nat)
      modifies this`lastId, this`outstanding
      ensures id == lastId == old(lastId) + 1 && outstanding == old(outstanding)[id := r]
    {
      lastId := lastId + 1;
      id := lastId;
      outstanding := outstanding[id := r];
    }

    // The cancels at the start of a save.
    method CancelOlder()
      requires Valid()
      modifies this`disable, this`reorder, this`clearRecentId, this`clearRecentAttachedId, this`outstanding,
               this`overtaken
      ensures Valid() && disable == {} && reorder == 0
      ensures overtaken == if old(disable) != {} then old(overtaken) + {|saves| - 1} else old(overtaken)
      ensures forall id :: id in outstanding ==> outstanding[id].ClearRecent?
      ensures forall id :: id in outstanding <==>
                id in old(outstanding)
                && id !in old(disable) + {old(reorder), old(clearRecentId), old(clearRecentAttachedId)}
    {
      SomeSaved(disable, reorder, lastId, outstanding, sent, saves, overtaken);
      hide ProtocolHolds;
      var left := CancelAll(outstanding, disable + {reorder, clearRecentId, clearRecentAttachedId});
      ghost var overtaken' := if disable != {} then overtaken + {|saves| - 1} else overtaken;
      CancelKeeps(disable, reorder, lastId, outstanding, sent, saves, overtaken, left, overtaken');
      overtaken := overtaken';
      outstanding := left;
      disable, reorder, clearRecentId, clearRecentAttachedId := {}, 0, 0, 0;
    }

    method BeginSave(localOrder: seq<nat>)
      requires Valid() && disable == {} && reorder == 0
      requires forall id :: id in outstanding ==> outstanding[id].ClearRecent?
      modifies this`saves
      ensures Saving() && saves == old(saves) + [localOrder]
    {
      OneMoreSave(sent, saves, overtaken, localOrder);
      saves := saves + [localOrder];
    }

    // The latest save has sent no reorder yet.
    ghost predicate Saving()
      reads this
    {
      Valid() && |saves| > 0 && reorder == 0 && NotSent(|saves| - 1, sent) && |saves| - 1 !in overtaken
    }

    // `stickersSaveOrder`, with the order of the save that captured it.
    method SaveOrder(save: nat)
      requires Valid() && disable == {} && save == |saves| - 1 && NotSent(save, sent) && save !in overtaken
      modifies this`reorder, this`lastId, this`outstanding, this`sent
      ensures Valid() && lastId >= old(lastId)
      ensures if |saves[save]| < 2 then sent == old(sent) && outstanding == old(outstanding)
              else sent == old(sent) + [SentReorder(save, saves[save])] && reorder == lastId == old(lastId) + 1
                   && outstanding == old(outstanding)[lastId := Reorder(save)]
    {
      if |saves[save]| < 2 {
        return;
      }
      SentOneMore(sent, saves, overtaken, save);
      var id := Send(Reorder(save));
      reorder := id;
      sent := sent + [SentReorder(save, saves[save])];
    }

    // `stickerSetDisenabled`: both handlers of an install or uninstall.
    method Disenabled(id: nat)
      requires Valid() && id in outstanding && outstanding[id].Disenable?
      modifies this`disable, this`reorder, this`lastId, this`outstanding, this`sent
      ensures Valid() && disable == old(disable) - {id} && id in old(disable)
      ensures var save := old(outstanding)[id].save;
              && save == |saves| - 1
              && sent == old(sent) + if old(disable) == {id} && |saves[save]| >= 2
                                     then [SentReorder(save, saves[save])] else []
    {
      var save := outstanding[id].save;
      outstanding := outstanding - {id};
      disable := disable - {id};
      if disable == {} {
        SaveOrder(save);
      }
    }

    // Both handlers of a reorder.
    method Reordered(id: nat)
      requires Valid() && id in outstanding && outstanding[id].Reorder?
      modifies this`reorder, this`outstanding
      ensures Valid() && outstanding == old(outstanding) - {id} && reorder == 0
    {
      outstanding := outstanding - {id};
      reorder := 0;
    }

    // Both handlers of a request to clear the recent stickers.
    method RecentCleared(id: nat)
      requires Valid() && id in outstanding && outstanding[id].ClearRecent?
      modifies this`clearRecentId, this`clearRecentAttachedId, this`outstanding
      ensures Valid() && outstanding == old(outstanding) - {id}
    {
      if outstanding[id].attached {
        clearRecentAttachedId := 0;
      } else {
        clearRecentId := 0;
      }
      outstanding := outstanding - {id};
    }

    method AskFor(ask: Ask)
      requires Saving()
      modifies this`disable, this`lastId, this`outstanding
      ensures Saving() && lastId == old(lastId) + 1 && lastId !in old(outstanding)
      ensures forall x :: Asked(x, disable, outstanding) <==> Asked(x, old(disable), old(outstanding)) || x == ask
      ensures disable == old(disable) + {old(lastId) + 1}
      ensures outstanding == old(outstanding)[old(lastId) + 1 := Disenable(|saves| - 1, ask)]
    {
      ghost var before, owed := disable, outstanding;
      var id := Send(Disenable(|saves| - 1, ask));
      disable := disable + {id};
      forall x ensures Asked(x, disable, outstanding) <==> Asked(x, before, owed) || x == ask {
        AskOneMore(x, before, owed, id, Disenable(|saves| - 1, ask));
      }
    }

    // One turn of the loop over `localRemoved`.
    method RemoveSet(id: nat)
      requires Saving()
      modifies this`sets, this`recent, this`order, this`disable, this`lastId, this`outstanding,
               this`clearRecentId, this`clearRecentAttachedId
      ensures Saving()
      ensures sets == RemovedOne(old(sets), id) && recent == RecentAfterOne(old(recent), old(sets), id)
      ensures forall x :: Asked(x, disable, outstanding) <==>
                Asked(x, old(disable), old(outstanding))
                || (x == Ask(id, false) && !IsCloudRecent(id) && id in old(sets) && !old(sets)[id].flags.archived)
      ensures var asks := !IsCloudRecent(id) && id in old(sets) && !old(sets)[id].flags.archived;
              && order == (if asks then RemoveFirst(old(order), id) else old(order))
              && lastId == old(lastId) + (if asks || IsCloudRecent(id) then 1 else 0)
              && outstanding == if IsCloudRecent(id) then old(outstanding)[lastId := ClearRecent(id == CloudSet(true))]
                                else if asks then old(outstanding)[lastId := Disenable(|saves| - 1, Ask(id, false))]
                                else old(outstanding)
    {
      hide SentHolds, NotSent, ProtocolHolds, OwedHolds, ClearKnown, Asked;
      if IsCloudRecent(id) {
        sets := sets - {CLOUD_RECENT_SET_ID, CLOUD_RECENT_ATTACHED_SET_ID, CUSTOM_SET_ID};
        recent := [];
        AskClear(id == CloudSet(true));
        return;
      }
      if id in sets {
        var s := sets[id];
        recent := EraseRecent(recent, s.stickers);
        if !s.flags.archived {
          AskFor(Ask(id, false));
          order := RemoveFirst(order, id);
          if !s.flags.featured && !s.flags.special && !s.flags.emoji && !(s.locked > 0) {
            sets := sets - {id};
          } else {
            sets := sets[id := s.(flags := s.flags.(installed := false, archived := false), installDate := 0)];
          }
        }
      }
    }

    method AskClear(attached: bool)
      requires Valid()
      modifies this`lastId, this`outstanding, this`clearRecentId, this`clearRecentAttachedId
      ensures Valid() && lastId == old(lastId) + 1
      ensures forall x :: Asked(x, disable, outstanding) <==> Asked(x, old(disable), old(outstanding))
      ensures outstanding == old(outstanding)[lastId := ClearRecent(attached)]
      ensures if attached then clearRecentAttachedId == lastId && clearRecentId == old(clearRecentId)
              else clearRecentId == lastId && clearRecentAttachedId == old(clearRecentAttachedId)
    {
      var id := Send(ClearRecent(attached));
      if attached {
        clearRecentAttachedId := id;
      } else {
        clearRecentId := id;
      }
      forall x ensures Asked(x, disable, outstanding) <==> Asked(x, disable, old(outstanding)) {
        ClearAsksNothing(x, disable, old(outstanding), id, attached);
      }
    }

    // The loop over `localRemoved`.
    method RemoveSets(removed: seq<nat>)
      requires Saving() && disable == {}
      modifies this`sets, this`recent, this`order, this`disable, this`lastId, this`outstanding,
               this`clearRecentId, this`clearRecentAttachedId
      ensures Saving()
      ensures sets == Remaining(old(sets), removed) && recent == RemainingRecent(old(recent), old(sets), removed)
      ensures forall x :: Asked(x, disable, outstanding) <==> !x.install && IsUninstalled(x.setId, old(sets), removed)
      ensures ClearsAsked(old(lastId), removed, outstanding)
    {
      hide Asked, NotSent, SentHolds, OwedHolds, Remaining, RemainingRecent, RemovedOne, RecentAfterOne, IsUninstalled;
      ghost var sets0, recent0 := sets, recent;
      NothingRemoved(sets0, recent0);
      NothingAsked(outstanding);
      ghost var since := lastId;
      NoClearsAsked(since, outstanding);
      for i := 0 to |removed|
        invariant Saving() && lastId >= since && ClearsAsked(since, removed[..i], outstanding)
        invariant sets == Remaining(sets0, removed[..i]) && recent == RemainingRecent(recent0, sets0, removed[..i])
        invariant forall x :: Asked(x, disable, outstanding) <==>
                    !x.install && IsUninstalled(x.setId, sets0, removed[..i])
      {
        RemoveOneMore(sets0, removed, i);
        RecentOneMore(recent0, sets0, removed, i);
        label Before:
        RemoveSet(removed[i]);
        ClearsOneMore(since, removed, i, old@Before(outstanding), old@Before(lastId) + 1,
                      if IsCloudRecent(removed[i]) then ClearRecent(removed[i] == CloudSet(true))
                      else Disenable(|saves| - 1, Ask(removed[i], false)), outstanding);
        forall x
          ensures Asked(x, disable, outstanding) <==> !x.install && IsUninstalled(x.setId, sets0, removed[..i + 1])
        {
          assert Asked(x, old@Before(disable), old@Before(outstanding)) <==>
              !x.install && IsUninstalled(x.setId, sets0, removed[..i]);
          UninstallOneMore(sets0, removed, i, x.setId);
        }
      }
      assert removed[..|removed|] == removed;
    }

    // One turn of the loop that rebuilds the order.
    method InstallSet(id: nat, removed: seq<nat>, now: int)
      requires Saving()
      modifies this`sets, this`order, this`disable, this`lastId, this`outstanding
      ensures Saving()
      ensures if id in old(sets) then
                sets == old(sets)[id := Installed(id, old(sets)[id], removed, now)] && order == old(order) + [id]
              else sets == old(sets) && order == old(order)
      ensures forall x :: Asked(x, disable, outstanding) <==>
                Asked(x, old(disable), old(outstanding))
                || (x == Ask(id, true) && id in old(sets) && old(sets)[id].flags.archived && id !in removed)
      ensures SameClears(old(outstanding), outstanding)
    {
      hide SentHolds, NotSent, ProtocolHolds, ClearKnown;
      if id !in sets {
        return;
      }
      var s := sets[id];
      if s.flags.archived && id !in removed {
        AskFor(Ask(id, true));
        s := s.(flags := s.flags.(archived := false));
      }
      order := order + [id];
      s := s.(flags := s.flags.(installed := true));
      if s.installDate == 0 {
        s := s.(installDate := now);
      }
      sets := sets[id := s];
    }

    method InstallSets(localOrder: seq<nat>, removed: seq<nat>, now: int)
      requires Saving()
      modifies this`sets, this`order, this`disable, this`lastId, this`outstanding
      ensures Saving()
      ensures sets == InstalledUpTo(old(sets), localOrder, removed, now) && order == Known(localOrder, old(sets))
      ensures forall x :: Asked(x, disable, outstanding) <==>
                || Asked(x, old(disable), old(outstanding))
                || (x.install && IsUnarchived(x.setId, old(sets), localOrder, removed))
      ensures SameClears(old(outstanding), outstanding)
    {
      hide Asked, NotSent, SentHolds, OwedHolds, InstalledUpTo, Known, Installed, IsUnarchived;
      ghost var sets0, disable0, owed0 := sets, disable, outstanding;
      NothingInstalled(sets0, removed, now);
      order := [];
      for i := 0 to |localOrder|
        invariant Saving()
        invariant sets == InstalledUpTo(sets0, localOrder[..i], removed, now) && order == Known(localOrder[..i], sets0)
        invariant forall x :: Asked(x, disable, outstanding) <==>
                    Asked(x, disable0, owed0) || (x.install && IsUnarchived(x.setId, sets0, localOrder[..i], removed))
        invariant SameClears(owed0, outstanding)
      {
        InstallOneMore(sets0, localOrder, i, removed, now);
        UnarchiveOneMore(sets0, localOrder, i, removed, now);
        InstallSet(localOrder[i], removed, now);
      }
      assert localOrder[..|localOrder|] == localOrder;
    }

    // What a save asks the server for: the uninstalls and installs.
    ghost predicate AskedExactly(was: Sets, localOrder: seq<nat>, localRemoved: seq<nat>)
      reads this
    {
      forall x :: Asked(x, disable, outstanding) <==>
        if x.install then
          IsUnarchived(x.setId, ClearedAll(Remaining(was, localRemoved), type_), localOrder, localRemoved)
        else IsUninstalled(x.setId, was, localRemoved)
    }

    // The loops over the sets.
    method ApplySave(localOrder: seq<nat>, localRemoved: seq<nat>, now: int)
      requires Saving() && disable == {}
      modifies this`sets, this`recent, this`order, this`disable, this`lastId, this`outstanding,
               this`clearRecentId, this`clearRecentAttachedId
      ensures Saving()
      ensures sets == Saved(old(sets), localOrder, localRemoved, type_, now)
      ensures recent == RemainingRecent(old(recent), old(sets), localRemoved)
      ensures order == Known(localOrder, Remaining(old(sets), localRemoved))
      ensures AskedExactly(old(sets), localOrder, localRemoved)
      ensures ClearsAsked(old(lastId), localRemoved, outstanding)
    {
      hide ClearsAsked, SameClears, ClearKnown, ProtocolHolds;
      hide Asked, NotSent, SentHolds, OwedHolds, Saved, RemainingRecent, Known, Remaining, IsUninstalled, IsUnarchived;
      hide InstalledUpTo, SweptOut, ClearedAll;
      PhasesMakeSave(sets, localOrder, localRemoved, type_, now);
      RemoveSets(localRemoved);
      sets := ClearInstalled(sets, type_);
      ghost var owed := outstanding;
      InstallSets(localOrder, localRemoved, now);
      SameClearsAsked(old(lastId), localRemoved, owed, outstanding);
      sets := Sweep(sets);
    }

    /** `saveStickerSets`. */
    method SaveStickerSets(localOrder: seq<nat>, localRemoved: seq<nat>, now: int)
      requires Valid()
      modifies this
      ensures Valid() && saves == old(saves) + [localOrder]
      ensures sets == Saved(old(sets), localOrder, localRemoved, type_, now)
      ensures recent == RemainingRecent(old(recent), old(sets), localRemoved)
      ensures order == Known(localOrder, Remaining(old(sets), localRemoved))
      ensures AskedExactly(old(sets), localOrder, localRemoved)
      ensures ClearsAsked(old(lastId), localRemoved, outstanding)
      ensures sent == old(sent) + if disable == {} && |localOrder| >= 2
                                  then [SentReorder(|saves| - 1, localOrder)] else []
      ensures overtaken == if old(disable) != {} then old(overtaken) + {|old(saves)| - 1} else old(overtaken)
    {
      hide NotSent, SentHolds, OwedHolds, Saved, RemainingRecent, Known, Remaining;
      hide IsUninstalled, IsUnarchived, ClearedAll;
      CancelOlder();
      BeginSave(localOrder);
      ApplySave(localOrder, localRemoved, now);
      if disable == {} {
        ghost var owed := outstanding;
        assert lastId + 1 !in owed;
        SaveOrder(|saves| - 1);
        NothingAskedNow(owed, outstanding);
        ReorderClearsNothing(owed, lastId, |saves| - 1, outstanding);
        SameClearsAsked(old(lastId), localRemoved, owed, outstanding);
      }
    }

    // What a save of another type does here: it may change the sets and the recent pack, cancels the
    // requests to clear recent stickers that are stored, and may send such requests.
    method OtherTypeSaves(sets: Sets, recent: seq<Recent>, clears: seq<bool>)
      requires Valid()
      modifies this`sets, this`recent, this`outstanding, this`lastId, this`clearRecentId, this`clearRecentAttachedId
      ensures Valid() && lastId == old(lastId) + |clears| && this.sets == sets && this.recent == recent
      ensures ClearedAgain(old(outstanding), {old(clearRecentId), old(clearRecentAttachedId)}, old(lastId), clears,
                           outstanding)
    {
      this.sets, this.recent := sets, recent;
      CancelClears();
      SendClears(clears, old(outstanding), {old(clearRecentId), old(clearRecentAttachedId)});
    }

    method SendClears(clears: seq<bool>, ghost was: Owed, ghost cancelled: set<nat>)
      requires Valid() && ClearedAgain(was, cancelled, lastId, [], outstanding)
      modifies this`outstanding, this`lastId, this`clearRecentId, this`clearRecentAttachedId
      ensures Valid() && lastId == old(lastId) + |clears|
      ensures ClearedAgain(was, cancelled, old(lastId), clears, outstanding)
    {
      hide ProtocolHolds, ClearKnown, ClearedAgain, Asked;
      for i := 0 to |clears|
        invariant Valid() && lastId == old(lastId) + i
        invariant ClearedAgain(was, cancelled, old(lastId), clears[..i], outstanding)
      {
        ClearAgain(was, cancelled, old(lastId), clears[..i], outstanding, clears[i]);
        assert clears[..i + 1] == clears[..i] + [clears[i]];
        AskClear(clears[i]);
      }
      assert clears[..|clears|] == clears;
    }

    method CancelClears()
      requires Valid()
      modifies this`outstanding, this`clearRecentId, this`clearRecentAttachedId
      ensures Valid()
      ensures ClearedAgain(old(outstanding), {old(clearRecentId), old(clearRecentAttachedId)}, lastId, [], outstanding)
    {
      outstanding := CancelAll(outstanding, {clearRecentId, clearRecentAttachedId});
      clearRecentId, clearRecentAttachedId := 0, 0;
    }

    method Happen(e: Event)
      requires Valid()
      modifies this
      ensures Valid() && old(saves) <= saves && old(overtaken) <= overtaken
      ensures sent == old(sent)
              || (disable == {}
                  && exists s :: sent == old(sent) + [s] && s.save == |saves| - 1 && s.order == saves[s.save])
    {
      match e {
        case UserSave(order, removed, now) => SaveStickerSets(order, removed, now);
        case OtherType(sets, recent, clears) => OtherTypeSaves(sets, recent, clears);
        case OkOrFail(id) =>
          if id in outstanding {
            match outstanding[id] {
              case Disenable(_, _) => Disenabled(id);
              case Reorder(_) => Reordered(id);
              case ClearRecent(_) => RecentCleared(id);
            }
          }
      }
    }
  }

  datatype Event =
    | UserSave(order: seq<nat>, removed: seq<nat>, now: int)
    | OtherType(sets: Sets, recent: seq<Recent>, clears: seq<bool>)
    | OkOrFail(id: nat)

  /**
   In every run: each reorder sent carries its own save's order, a save sends at most one, and a save
   that was overtaken while its installs or uninstalls were owed sends none.
   */
  method AnyRun(type_: Type, sets: Sets, recent: seq<Recent>, order: seq<nat>, events: seq<Event>) returns (s: Saver)
    ensures s.Valid() && SentHolds(s.sent, s.saves, s.overtaken)
  {
    s := new Saver(type_, sets, recent, order);
    for i := 0 to |events|
      invariant s.Valid() && fresh(s)
    {
      s.Happen(events[i]);
    }
  }

  lemma NothingAskedNow(outstanding: Owed, outstanding': Owed)
    ensures forall x :: !Asked(x, {}, outstanding) && !Asked(x, {}, outstanding')
  {
  }

  lemma ReorderClearsNothing(owed: Owed, id: nat, save: nat, outstanding: Owed)
    requires outstanding == owed || (id !in owed && outstanding == owed[id := Reorder(save)])
    ensures SameClears(owed, outstanding)
  {
  }

  // An install is sent for every archived set of the order, but for one that was also removed.
  predicate IsUnarchived(id: nat, sets: Sets, order: seq<nat>, removed: seq<nat>) {
    id in order && id in sets && sets[id].flags.archived && id !in removed
  }

  // In terms of the sets before the save: the set is archived, and not gone with a cloud recent one.
  lemma UnarchivedIs(was: Sets, order: seq<nat>, removed: seq<nat>, t: Type, id: nat)
    ensures IsUnarchived(id, ClearedAll(Remaining(was, removed), t), order, removed) <==>
              && id in order && id !in removed && id in was && was[id].flags.archived
              && !(RemovesCloudRecent(removed) && DroppedWithCloudRecent(id))
  {
  }

  lemma UnarchiveOneMore(sets: Sets, order: seq<nat>, i: nat, removed: seq<nat>, now: int)
    requires i < |order|
    ensures var id, before := order[i], InstalledUpTo(sets, order[..i], removed, now);
            forall x ::
              (IsUnarchived(x, sets, order[..i + 1], removed) <==>
               IsUnarchived(x, sets, order[..i], removed)
               || (x == id && id in before && before[id].flags.archived && id !in removed))
  {
    var id, before := order[i], InstalledUpTo(sets, order[..i], removed, now);
    forall x
      ensures IsUnarchived(x, sets, order[..i + 1], removed) <==>
              IsUnarchived(x, sets, order[..i], removed)
              || (x == id && id in before && before[id].flags.archived && id !in removed)
    {
      assert order[..i + 1] == order[..i] + [id];
      assert x in order[..i + 1] <==> x in order[..i] || x == id;
    }
  }

  lemma NothingInstalled(sets: Sets, removed: seq<nat>, now: int)
    ensures InstalledUpTo(sets, [], removed, now) == sets && Known([], sets) == []
    ensures forall x :: !IsUnarchived(x, sets, [], removed)
  {
  }

  // An uninstall is sent for every removed set that was not archived; for the set of custom stickers, which
  // is dropped with the cloud recent ones, only if it is removed before them.
  predicate IsUninstalled(id: nat, sets: Sets, removed: seq<nat>) {
    && !IsCloudRecent(id) && id in sets && !sets[id].flags.archived
    && exists i :: 0 <= i < |removed| && RemovedInTime(id, removed, i)
  }

  predicate RemovedInTime(id: nat, removed: seq<nat>, i: nat)
    requires i < |removed|
  {
    removed[i] == id && (id == CUSTOM_SET_ID ==> !RemovesCloudRecent(removed[..i]))
  }

  lemma UninstallOneMore(sets: Sets, removed: seq<nat>, i: nat, x: nat)
    requires i < |removed|
    ensures var id, now := removed[i], Remaining(sets, removed[..i]);
            IsUninstalled(x, sets, removed[..i + 1]) <==>
            IsUninstalled(x, sets, removed[..i])
            || (x == id && !IsCloudRecent(id) && id in now && !now[id].flags.archived)
  {
    var id, before, after := removed[i], removed[..i], removed[..i + 1];
    hide RemovesCloudRecent;
    assert forall j :: 0 <= j <= i ==> after[j] == removed[j] && after[..j] == removed[..j];
    assert forall j :: 0 <= j < i ==> before[j] == removed[j] && before[..j] == removed[..j];
    assert forall j :: 0 <= j < i ==> (RemovedInTime(x, after, j) <==> RemovedInTime(x, before, j));
    assert RemovedInTime(x, after, i) <==> x == id && (x == CUSTOM_SET_ID ==> !RemovesCloudRecent(before));
    if x == id && id in before && (x != CUSTOM_SET_ID || !RemovesCloudRecent(before)) {
      var j :| 0 <= j < i && before[j] == id;
      if x == CUSTOM_SET_ID { FewerRemove(before, j); }
      assert RemovedInTime(x, before, j);
    }
  }

  lemma FewerRemove(removed: seq<nat>, j: nat)
    requires j <= |removed| && !RemovesCloudRecent(removed)
    ensures !RemovesCloudRecent(removed[..j])
  {
  }

  lemma NothingRemoved(sets: Sets, recent: seq<Recent>)
    ensures Remaining(sets, []) == sets && RemainingRecent(recent, sets, []) == recent
    ensures forall id :: !IsUninstalled(id, sets, [])
  {
    KeptWithoutRemovals(recent, sets);
  }

  lemma {:induction false} KeptWithoutRemovals(recent: seq<Recent>, sets: Sets)
    ensures RecentWithout(recent, sets, []) == recent
  {
    if |recent| > 0 { KeptWithoutRemovals(recent[..|recent| - 1], sets); }
  }

  lemma NothingAsked(outstanding: Owed)
    ensures forall x :: !Asked(x, {}, outstanding)
  {
  }

  lemma ClearAsksNothing(x: Ask, disable: set<nat>, outstanding: Owed, id: nat, attached: bool)
    requires id !in outstanding && id !in disable
    ensures Asked(x, disable, outstanding[id := ClearRecent(attached)]) <==> Asked(x, disable, outstanding)
  {
  }

  function RemoveFirst(order: seq<nat>, id: nat): seq<nat> {
    if |order| == 0 then [] else if order[0] == id then order[1..] else [order[0]] + RemoveFirst(order[1..], id)
  }
}
