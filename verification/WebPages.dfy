/**
 Resolving pending web pages: the due ones are grouped by chat in one pass over the pending map, with
 negative placeholders for requests not sent yet, and the placeholders are replaced after sending.
 */
module WebPages {

  type MsgId = m: int | -0x8000_0000_0000_0000 <= m < 0x8000_0000_0000_0000

  datatype Place = Common | Channel(id: nat)

  // The message a page is shown in, as `findWebPageItem` gives it.
  datatype Item = Item(place: Place, id: MsgId)

  datatype Page = Page(pendingTill: int, failed: bool)

  type Pages = map<nat, Page>
  type Pending = map<nat, int>

  // What one call sees: the page objects, the messages they are shown in, and the time.
  datatype World = World(pages: Pages, items: map<nat, Item>, now: int)

  datatype Sent = Sent(place: Place, ids: seq<MsgId>)

  type Owed = map<nat, Sent>

  // ----- direct grouping -----

  predicate Due(page: nat, w: World) {
    page in w.pages && w.pages[page].pendingTill <= w.now
  }

  // The pages a call sends for: not in flight, due, and shown in a message.
  predicate ToSend(page: nat, pending: Pending, w: World) {
    page in pending && pending[page] <= 0 && Due(page, w) && page in w.items
  }

  predicate ToSendIn(page: nat, p: Place, pending: Pending, w: World) {
    ToSend(page, pending, w) && w.items[page].place == p
  }

  // The messages to ask for in one chat, in the order the map is walked.
  function IdsFor(walk: seq<nat>, p: Place, pending: Pending, w: World): seq<MsgId> {
    if |walk| == 0 then []
    else
      var last := walk[|walk| - 1];
      IdsFor(walk[..|walk| - 1], p, pending, w) + if ToSendIn(last, p, pending, w) then [w.items[last].id] else []
  }

  lemma IdsOneMore(walk: seq<nat>, page: nat, p: Place, pending: Pending, w: World)
    ensures IdsFor(walk + [page], p, pending, w)
         == IdsFor(walk, p, pending, w) + if ToSendIn(page, p, pending, w) then [w.items[page].id] else []
  {
    assert (walk + [page])[..|walk|] == walk;
  }

  lemma {:induction false} AskedForWhenDue(walk: seq<nat>, page: nat, p: Place, pending: Pending, w: World)
    requires page in walk && ToSendIn(page, p, pending, w)
    ensures w.items[page].id in IdsFor(walk, p, pending, w)
    decreases |walk|
  {
    var front, last := walk[..|walk| - 1], walk[|walk| - 1];
    if page != last {
      assert walk == front + [last];
      AskedForWhenDue(front, page, p, pending, w);
    }
  }

  lemma {:induction false} AskedForOnlyWhenDue(walk: seq<nat>, id: MsgId, p: Place, pending: Pending, w: World)
    requires id in IdsFor(walk, p, pending, w)
    ensures exists page :: page in walk && ToSendIn(page, p, pending, w) && w.items[page].id == id
    decreases |walk|
  {
    var front, last := walk[..|walk| - 1], walk[|walk| - 1];
    assert walk == front + [last];
    if id in IdsFor(front, p, pending, w) {
      AskedForOnlyWhenDue(front, id, p, pending, w);
    } else {
      assert ToSendIn(last, p, pending, w) && w.items[last].id == id;
    }
  }

  // ----- the first loop -----

  // One channel's slot in `idsByChannel`.
  datatype Group = Group(index: nat, ids: seq<MsgId>)

  type Groups = map<nat, Group>

  datatype Collected = Collected(ids: seq<MsgId>, groups: Groups, pending: Pending)

  function Placeholder(groups: Groups, p: Place): int
    requires p.Channel? ==> p.id in groups
  {
    if p.Common? then -1 else -2 - groups[p.id].index
  }

  // Channel indices are dense: `order` lists the channels by index.
  ghost predicate Dense(groups: Groups, order: seq<nat>) {
    && |order| == |groups|
    && (forall c :: c in groups ==> groups[c].index < |order| && order[groups[c].index] == c)
    && (forall i :: 0 <= i < |order| ==> order[i] in groups && groups[order[i]].index == i)
  }

  ghost predicate GroupsFor(groups: Groups, walk: seq<nat>, pending: Pending, w: World) {
    forall ch: nat ::
      var ids := IdsFor(walk, Channel(ch), pending, w);
      if ch in groups then ids != [] && groups[ch].ids == ids else ids == []
  }

  ghost predicate PlaceholdersFor(marked: Pending, groups: Groups, walk: seq<nat>, pending: Pending, w: World) {
    && marked.Keys == pending.Keys
    && (forall page :: page in pending ==>
          if page in walk && ToSend(page, pending, w) then
            var p := w.items[page].place;
            (p.Channel? ==> p.id in groups) && marked[page] == Placeholder(groups, p)
          else marked[page] == pending[page])
  }

  ghost predicate CollectedFor(c: Collected, walk: seq<nat>, pending: Pending, w: World) {
    && c.ids == IdsFor(walk, Common, pending, w)
    && GroupsFor(c.groups, walk, pending, w)
    && PlaceholdersFor(c.pending, c.groups, walk, pending, w)
  }

  lemma NewGroupIsDense(groups: Groups, order: seq<nat>, ch: nat, ids: seq<MsgId>)
    requires Dense(groups, order) && ch !in groups
    ensures Dense(groups[ch := Group(|groups|, ids)], order + [ch])
  {
  }

  lemma SameGroupsDense(groups: Groups, order: seq<nat>, ch: nat, ids: seq<MsgId>)
    requires Dense(groups, order) && ch in groups
    ensures Dense(groups[ch := groups[ch].(ids := ids)], order)
  {
  }

  method AddToGroup(groups: Groups, ch: nat, id: MsgId, ghost order: seq<nat>)
    returns (groups': Groups, ghost order': seq<nat>)
    requires Dense(groups, order)
    ensures Dense(groups', order') && groups'.Keys == groups.Keys + {ch}
    ensures forall k :: k in groups && k != ch ==> groups'[k] == groups[k]
    ensures groups'[ch].ids == (if ch in groups then groups[ch].ids else []) + [id]
    ensures ch in groups ==> groups'[ch].index == groups[ch].index
  {
    hide Dense;
    order' := order;
    if ch !in groups {
      NewGroupIsDense(groups, order, ch, [id]);
      groups' := groups[ch := Group(|groups|, [id])];
      order' := order + [ch];
    } else {
      SameGroupsDense(groups, order, ch, groups[ch].ids + [id]);
      groups' := groups[ch := groups[ch].(ids := groups[ch].ids + [id])];
    }
  }

  lemma GroupsOneMore(groups: Groups, groups': Groups, walk: seq<nat>, page: nat, ch: nat, pending: Pending, w: World)
    requires GroupsFor(groups, walk, pending, w) && ToSendIn(page, Channel(ch), pending, w)
    requires groups'.Keys == groups.Keys + {ch}
    requires forall k :: k in groups && k != ch ==> groups'[k] == groups[k]
    requires groups'[ch].ids == (if ch in groups then groups[ch].ids else []) + [w.items[page].id]
    ensures GroupsFor(groups', walk + [page], pending, w)
  {
  }

  lemma OtherGroupsKept(groups: Groups, walk: seq<nat>, page: nat, pending: Pending, w: World)
    requires GroupsFor(groups, walk, pending, w)
    requires ToSend(page, pending, w) ==> w.items[page].place == Common
    ensures GroupsFor(groups, walk + [page], pending, w)
  {
  }

  lemma PlaceholdersOneMore(marked: Pending, groups: Groups, groups': Groups, walk: seq<nat>, page: nat,
                            pending: Pending, w: World)
    requires PlaceholdersFor(marked, groups, walk, pending, w)
    requires page !in walk && ToSend(page, pending, w)
    requires forall ch :: ch in groups ==> ch in groups' && groups'[ch].index == groups[ch].index
    requires w.items[page].place.Channel? ==> w.items[page].place.id in groups'
    ensures PlaceholdersFor(marked[page := Placeholder(groups', w.items[page].place)], groups', walk + [page], pending,
                            w)
  {
  }

  // One due page with its message: the branches of the first loop.
  method Collect(c: Collected, page: nat, ghost walk: seq<nat>, ghost order: seq<nat>, pending: Pending, w: World)
    returns (c': Collected, ghost order': seq<nat>)
    requires CollectedFor(c, walk, pending, w) && Dense(c.groups, order)
    requires page !in walk && page in c.pending && ToSend(page, pending, w)
    ensures CollectedFor(c', walk + [page], pending, w) && Dense(c'.groups, order')
  {
    hide Dense, IdsFor, GroupsFor, PlaceholdersFor;
    var item := w.items[page];
    order' := order;
    IdsOneMore(walk, page, Common, pending, w);
    match item.place {
      case Common =>
        OtherGroupsKept(c.groups, walk, page, pending, w);
        PlaceholdersOneMore(c.pending, c.groups, c.groups, walk, page, pending, w);
        c' := Collected(c.ids + [item.id], c.groups, c.pending[page := -1]);
      case Channel(ch) =>
        var groups;
        groups, order' := AddToGroup(c.groups, ch, item.id, order);
        GroupsOneMore(c.groups, groups, walk, page, ch, pending, w);
        PlaceholdersOneMore(c.pending, c.groups, groups, walk, page, pending, w);
        c' := Collected(c.ids, groups, c.pending[page := -2 - groups[ch].index]);
    }
  }

  // The pages waiting for their time, and the least wait among them.
  predicate Waits(page: nat, pending: Pending, w: World) {
    page in pending && pending[page] <= 0 && page in w.pages && w.pages[page].pendingTill > w.now
  }

  ghost predicate IsLeastWait(m: int, walk: seq<nat>, pending: Pending, w: World) {
    && (forall page :: page in walk && Waits(page, pending, w) ==> m <= w.pages[page].pendingTill - w.now)
    && (m == INT_MAX
        || exists page :: page in walk && Waits(page, pending, w) && m == w.pages[page].pendingTill - w.now)
  }

  const INT_MAX := 0x7fff_ffff

  const DAY := 86400

  // Every page of the map once, in the order of the walk.
  ghost predicate Walks(walk: seq<nat>, pages: set<nat>) {
    && (forall page :: page in walk <==> page in pages)
    && (forall i, j :: 0 <= i < j < |walk| ==> walk[i] != walk[j])
  }

  lemma StartCollecting(pending: Pending, w: World)
    ensures CollectedFor(Collected([], map[], pending), [], pending, w) && Dense(map[], [])
  {
  }

  method CollectAll(pending: Pending, w: World)
    returns (c: Collected, m: int, ghost walk: seq<nat>, ghost order: seq<nat>)
    requires pending.Keys <= w.pages.Keys
    ensures Walks(walk, pending.Keys)
    ensures CollectedFor(c, walk, pending, w) && Dense(c.groups, order)
    ensures IsLeastWait(m, walk, pending, w)
  {
    hide CollectedFor, Dense;
    StartCollecting(pending, w);
    c, m, walk, order := Collected([], map[], pending), INT_MAX, [], [];
    var left := pending.Keys;
    while left != {}
      invariant left <= pending.Keys && Walks(walk, pending.Keys - left)
      invariant CollectedFor(c, walk, pending, w) && Dense(c.groups, order)
      invariant IsLeastWait(m, walk, pending, w)
      decreases |left|
    {
      var page :| page in left;
      left := left - {page};
      SkipKeeps(c, walk, page, pending, w);
      if pending[page] <= 0 {
        if w.pages[page].pendingTill <= w.now {
          if page in w.items {
            c, order := Collect(c, page, walk, order, pending, w);
          }
        } else if w.pages[page].pendingTill - w.now < m {
          m := w.pages[page].pendingTill - w.now;
        }
      }
      walk := walk + [page];
    }
  }

  lemma SkipKeeps(c: Collected, walk: seq<nat>, page: nat, pending: Pending, w: World)
    requires CollectedFor(c, walk, pending, w) && page in pending
    ensures !ToSend(page, pending, w) ==> CollectedFor(c, walk + [page], pending, w)
    ensures page in c.pending
  {
  }

  // ----- sending, and replacing the placeholders -----

  // The id a placeholder stands for.
  function Resolved(v: int, requestId: nat, reqs: seq<nat>): int {
    if v >= 0 then v
    else if v == -1 then requestId
    else if -v - 2 < |reqs| then reqs[-v - 2] else 0
  }

  // The third loop.
  method ReplacePlaceholders(marked: Pending, requestId: nat, reqs: seq<nat>) returns (pending: Pending)
    requires forall page :: page in marked ==> -marked[page] - 2 < |reqs|
    ensures pending.Keys == marked.Keys
    ensures forall page :: page in marked ==> pending[page] == Resolved(marked[page], requestId, reqs)
  {
    pending := marked;
    var left := marked.Keys;
    while left != {}
      invariant left <= marked.Keys && pending.Keys == marked.Keys
      invariant forall page :: page in marked ==>
                  pending[page] == if page in left then marked[page] else Resolved(marked[page], requestId, reqs)
      decreases |left|
    {
      var page :| page in left;
      left := left - {page};
      if pending[page] < 0 {
        if pending[page] == -1 {
          pending := pending[page := requestId];
        } else {
          pending := pending[page := reqs[-pending[page] - 2]];
        }
      }
    }
  }

  // The requests sent for the channels: reqs[index] asks for the ids of the channel with that index.
  ghost predicate ChannelsSent(groups: Groups, done: set<nat>, reqs: seq<nat>, before: Owed, after: Owed,
                               firstId: nat) {
    && (forall id :: id in before ==> id in after && after[id] == before[id])
    && (forall ch :: ch in done && ch in groups ==>
          && groups[ch].index < |reqs|
          && firstId < reqs[groups[ch].index]
          && reqs[groups[ch].index] in after
          && after[reqs[groups[ch].index]] == Sent(Channel(ch), groups[ch].ids))
    && (forall id :: id in after && id !in before ==>
          exists ch :: ch in done && ch in groups && groups[ch].index < |reqs| && reqs[groups[ch].index] == id)
  }

  lemma SendOneChannel(groups: Groups, order: seq<nat>, done: set<nat>, reqs: seq<nat>, before: Owed, after: Owed,
                       firstId: nat, ch: nat, id: nat)
    requires ChannelsSent(groups, done, reqs, before, after, firstId) && Dense(groups, order) && |reqs| == |groups|
    requires ch in groups && ch !in done && id !in after && id > firstId
    ensures groups[ch].index < |reqs|
    ensures ChannelsSent(groups, done + {ch}, reqs[groups[ch].index := id], before,
                         after[id := Sent(Channel(ch), groups[ch].ids)], firstId)
  {
  }

  // Every page sent for ends with the id of the request that asks for its message; the others keep theirs.
  ghost predicate PagesGrouped(walk: seq<nat>, pending: Pending, pending': Pending, w: World, after: Owed,
                               firstId: nat) {
    && pending'.Keys == pending.Keys
    && (forall page :: page in pending ==>
          if ToSend(page, pending, w) then
            var p, id := w.items[page].place, pending'[page];
            && id > firstId && id in after
            && after[id] == Sent(p, IdsFor(walk, p, pending, w)) && w.items[page].id in after[id].ids
          else pending'[page] == pending[page])
  }

  // One new request a chat with due pages, for exactly their messages; older requests are untouched.
  ghost predicate RequestsGrouped(walk: seq<nat>, pending: Pending, w: World, before: Owed, after: Owed) {
    && (forall id :: id in before ==> id in after && after[id] == before[id])
    && (forall id :: id in after && id !in before ==>
          after[id].ids == IdsFor(walk, after[id].place, pending, w) && after[id].ids != [])
    && (forall a, b :: a in after && a !in before && b in after && b !in before && after[a].place == after[b].place ==>
          a == b)
  }

  ghost predicate CommonSent(ids: seq<MsgId>, requestId: nat, before: Owed, after: Owed, firstId: nat) {
    if ids == [] then requestId == 0 && after == before
    else requestId > firstId && requestId !in before && after == before[requestId := Sent(Common, ids)]
  }

  lemma PlaceSent(ids: seq<MsgId>, groups: Groups, p: Place, requestId: nat, reqs: seq<nat>,
                  before: Owed, mid: Owed, after: Owed, firstId: nat, secondId: nat)
    requires CommonSent(ids, requestId, before, mid, firstId) && firstId <= secondId
    requires ChannelsSent(groups, groups.Keys, reqs, mid, after, secondId)
    requires if p.Common? then ids != [] else p.id in groups
    ensures var id := Resolved(Placeholder(groups, p), requestId, reqs);
            id > firstId && id in after && after[id] == Sent(p, if p.Common? then ids else groups[p.id].ids)
    ensures -Placeholder(groups, p) - 2 < |reqs|
  {
  }

  lemma PageGrouped(c: Collected, walk: seq<nat>, page: nat, requestId: nat, reqs: seq<nat>, pending: Pending, w: World,
                    before: Owed, mid: Owed, after: Owed, firstId: nat, secondId: nat)
    requires CollectedFor(c, walk, pending, w) && Walks(walk, pending.Keys)
    requires CommonSent(c.ids, requestId, before, mid, firstId) && firstId <= secondId
    requires ChannelsSent(c.groups, c.groups.Keys, reqs, mid, after, secondId)
    requires ToSend(page, pending, w)
    ensures var p, id := w.items[page].place, Resolved(c.pending[page], requestId, reqs);
            && id > firstId && id in after
            && after[id] == Sent(p, IdsFor(walk, p, pending, w)) && w.items[page].id in after[id].ids
    ensures -c.pending[page] - 2 < |reqs|
  {
    hide IdsFor, CommonSent, ChannelsSent, Resolved;
    var p := w.items[page].place;
    AskedForWhenDue(walk, page, p, pending, w);
    if p.Channel? {
      assert c.groups[p.id].ids == IdsFor(walk, p, pending, w);
    }
    PlaceSent(c.ids, c.groups, p, requestId, reqs, before, mid, after, firstId, secondId);
  }

  lemma RequestGrouped(c: Collected, walk: seq<nat>, requestId: nat, reqs: seq<nat>, pending: Pending, w: World,
                       before: Owed, mid: Owed, after: Owed, firstId: nat, secondId: nat, id: nat)
    requires CollectedFor(c, walk, pending, w)
    requires CommonSent(c.ids, requestId, before, mid, firstId)
    requires ChannelsSent(c.groups, c.groups.Keys, reqs, mid, after, secondId)
    requires id in after && id !in before
    ensures after[id].ids == IdsFor(walk, after[id].place, pending, w) && after[id].ids != []
    ensures if after[id].place == Common then id == requestId
            else after[id].place.id in c.groups && c.groups[after[id].place.id].index < |reqs|
                 && id == reqs[c.groups[after[id].place.id].index]
  {
  }

  lemma AllPagesGrouped(c: Collected, walk: seq<nat>, requestId: nat, reqs: seq<nat>, pending: Pending,
                        pending': Pending, w: World, before: Owed, mid: Owed, after: Owed, firstId: nat, secondId: nat)
    requires CollectedFor(c, walk, pending, w) && Walks(walk, pending.Keys)
    requires CommonSent(c.ids, requestId, before, mid, firstId) && firstId <= secondId
    requires ChannelsSent(c.groups, c.groups.Keys, reqs, mid, after, secondId)
    requires c.pending.Keys == pending'.Keys == pending.Keys && forall page :: page in pending ==> pending[page] >= 0
    requires forall page :: page in pending' ==> pending'[page] == Resolved(c.pending[page], requestId, reqs)
    ensures PagesGrouped(walk, pending, pending', w, after, firstId)
  {
    hide IdsFor, CommonSent, ChannelsSent, Resolved, Walks, GroupsFor;
    forall page | page in pending
      ensures if ToSend(page, pending, w) then
                var p, id := w.items[page].place, pending'[page];
                && id > firstId && id in after
                && after[id] == Sent(p, IdsFor(walk, p, pending, w)) && w.items[page].id in after[id].ids
              else pending'[page] == pending[page]
    {
      if ToSend(page, pending, w) {
        PageGrouped(c, walk, page, requestId, reqs, pending, w, before, mid, after, firstId, secondId);
      } else {
        KeptWhenNotSent(pending[page], requestId, reqs);
      }
    }
  }

  lemma AllRequestsGrouped(c: Collected, walk: seq<nat>, requestId: nat, reqs: seq<nat>, pending: Pending, w: World,
                           before: Owed, mid: Owed, after: Owed, firstId: nat, secondId: nat)
    requires CollectedFor(c, walk, pending, w)
    requires CommonSent(c.ids, requestId, before, mid, firstId)
    requires ChannelsSent(c.groups, c.groups.Keys, reqs, mid, after, secondId)
    ensures RequestsGrouped(walk, pending, w, before, after)
  {
    hide IdsFor, CollectedFor;
    forall id | id in after && id !in before
      ensures after[id].ids == IdsFor(walk, after[id].place, pending, w) && after[id].ids != []
      ensures if after[id].place == Common then id == requestId
              else after[id].place.id in c.groups && c.groups[after[id].place.id].index < |reqs|
                   && id == reqs[c.groups[after[id].place.id].index]
    {
      RequestGrouped(c, walk, requestId, reqs, pending, w, before, mid, after, firstId, secondId, id);
    }
    assert forall id :: id in before ==> id in mid && mid[id] == before[id];
    assert forall id :: id in before ==> id in after && after[id] == before[id];
    hide ChannelsSent, CommonSent;
  }

  lemma KeptWhenNotSent(v: int, requestId: nat, reqs: seq<nat>)
    requires v >= 0
    ensures Resolved(v, requestId, reqs) == v
  {
  }

  lemma InFlightAfter(walk: seq<nat>, pending: Pending, pending': Pending, w: World, before: Owed, after: Owed,
                      firstId: nat, lost: set<nat>)
    requires PagesGrouped(walk, pending, pending', w, after, firstId)
    requires RequestsGrouped(walk, pending, w, before, after)
    requires forall page :: page in pending && pending[page] != 0 ==>
               pending[page] in before || (pending[page] > 0 && pending[page] in lost)
    ensures forall page :: page in pending' && pending'[page] != 0 ==>
              pending'[page] in after || (pending'[page] > 0 && pending'[page] in lost)
  {
    hide IdsFor;
  }

  // What becomes of a page that is not in flight and shown in a message: asked for once its time has come, and
  // until then waited for, with the timer no later.
  ghost predicate SentOrWaits(page: nat, v: int, timer: int, w: World, after: Owed)
    requires page in w.pages && page in w.items
  {
    var wait := w.pages[page].pendingTill - w.now;
    if wait <= 0 then
      v in after && after[v].place == w.items[page].place && w.items[page].id in after[v].ids
    else v == 0 && (wait < INT_MAX ==> timer <= wait && timer <= 86400)
  }

  lemma SameKeys(walk: seq<nat>, pending: Pending, pending': Pending, w: World, after: Owed, firstId: nat)
    requires PagesGrouped(walk, pending, pending', w, after, firstId)
    ensures pending'.Keys == pending.Keys
  {
  }

  lemma NonePassedOver(walk: seq<nat>, pending: Pending, pending': Pending, w: World, after: Owed, firstId: nat,
                       m: int, timer: int)
    requires PagesGrouped(walk, pending, pending', w, after, firstId) && Walks(walk, pending.Keys)
    requires IsLeastWait(m, walk, pending, w) && (m < INT_MAX ==> timer == if m < DAY then m else DAY)
    ensures forall page :: page in pending && pending[page] == 0 && page in w.pages && page in w.items ==>
              SentOrWaits(page, pending'[page], timer, w, after)
  {
    hide IdsFor;
    forall page | page in pending && pending[page] == 0 && page in w.pages && page in w.items
      ensures SentOrWaits(page, pending'[page], timer, w, after)
    {
      assert w.pages[page].pendingTill > w.now ==> Waits(page, pending, w);
    }
  }

  // Pages whose request failed keep waiting for it, but for those that are cleared.
  ghost predicate LostStay(pending: Pending, pending': Pending, lost: set<nat>, cleared: set<nat>) {
    forall page :: page in pending && pending[page] > 0 && pending[page] in lost && page !in cleared ==>
      page in pending' && pending'[page] == pending[page]
  }

  lemma LostStayGrouped(walk: seq<nat>, pending: Pending, pending': Pending, w: World, after: Owed, firstId: nat,
                        lost: set<nat>)
    requires PagesGrouped(walk, pending, pending', w, after, firstId)
    ensures LostStay(pending, pending', lost, {})
  {
  }

  // A page that its answer left unresolved.
  function AfterAnswer(page: Page): Page {
    if page.pendingTill > 0 then Page(0, true) else page
  }

  // The loop of `gotWebPages`.
  method DropAnswered(pending: Pending, pages: Pages, id: int) returns (pending': Pending, pages': Pages)
    requires pending.Keys <= pages.Keys
    ensures pending' == map page | page in pending && pending[page] != id :: pending[page]
    ensures pages' == map page | page in pages ::
                        if page in pending && pending[page] == id then AfterAnswer(pages[page]) else pages[page]
  {
    pending', pages' := pending, pages;
    var left := pending.Keys;
    while left != {}
      invariant left <= pending.Keys
      invariant pending' == map page | page in pending && (page in left || pending[page] != id) :: pending[page]
      invariant pages' == map page | page in pages ::
                            if page in pending && page !in left && pending[page] == id then AfterAnswer(pages[page])
                            else pages[page]
      decreases |left|
    {
      var page :| page in left;
      left := left - {page};
      if pending[page] == id {
        if pages'[page].pendingTill > 0 {
          pages' := pages'[page := Page(0, true)];
        }
        pending' := pending' - {page};
      }
    }
  }

  class Resolver {
    var pages: Pages
    var pending: Pending      // `_webPagesPending`
    var timer: int            // seconds until `_webPagesTimer` fires, -1 when it is not active
    var lastId: nat
    var outstanding: Owed
    ghost var lost: set<nat>  // requests that failed: there is no `fail` handler

    // In flight means owed, or lost; nothing negative survives a call.
    ghost predicate Valid()
      reads this
    {
      && pending.Keys <= pages.Keys
      && (forall id :: id in outstanding ==> 0 < id <= lastId && id !in lost)
      && (forall page :: page in pending && pending[page] != 0 ==>
            pending[page] in outstanding || (pending[page] > 0 && pending[page] in lost))
      && (forall id :: id in lost ==> id <= lastId)
    }

    constructor (pages: Pages)
      ensures Valid() && this.pages == pages && pending == map[] && outstanding == map[]
    {
      this.pages := pages;
      pending, timer, lastId, outstanding, lost := map[], -1, 0, map[], {};
    }

    method SendChannels(groups: Groups, ghost order: seq<nat>) returns (reqs: seq<nat>)
      requires Dense(groups, order) && forall id :: id in outstanding ==> id <= lastId
      modifies this`lastId, this`outstanding
      ensures |reqs| == |groups| && lastId >= old(lastId)
      ensures ChannelsSent(groups, groups.Keys, reqs, old(outstanding), outstanding, old(lastId))
      ensures forall id :: id in outstanding ==> id <= lastId && (id in old(outstanding) || id > old(lastId))
    {
      hide Dense, ChannelsSent;
      reqs := seq(|groups|, _ => 0);
      var left := groups.Keys;
      assert ChannelsSent(groups, groups.Keys - left, reqs, outstanding, outstanding, lastId) by {
        NothingSent(groups, reqs, outstanding, lastId);
      }
      while left != {}
        invariant left <= groups.Keys && |reqs| == |groups| && lastId >= old(lastId)
        invariant ChannelsSent(groups, groups.Keys - left, reqs, old(outstanding), outstanding, old(lastId))
        invariant forall id :: id in outstanding ==> id <= lastId && (id in old(outstanding) || id > old(lastId))
        decreases |left|
      {
        var ch :| ch in left;
        SendOneChannel(groups, order, groups.Keys - left, reqs, old(outstanding), outstanding, old(lastId), ch,
                       lastId + 1);
        assert groups.Keys - left + {ch} == groups.Keys - (left - {ch});
        lastId := lastId + 1;
        outstanding := outstanding[lastId := Sent(Channel(ch), groups[ch].ids)];
        reqs := reqs[groups[ch].index := lastId];
        left := left - {ch};
      }
      assert groups.Keys - left == groups.Keys;
    }

    method SendAll(ids: seq<MsgId>, groups: Groups, ghost order: seq<nat>)
      returns (requestId: nat, reqs: seq<nat>, ghost mid: Owed, ghost secondId: nat)
      requires Dense(groups, order) && forall id :: id in outstanding ==> id <= lastId
      modifies this`lastId, this`outstanding
      ensures |reqs| == |groups| && old(lastId) <= secondId
      ensures CommonSent(ids, requestId, old(outstanding), mid, old(lastId))
      ensures ChannelsSent(groups, groups.Keys, reqs, mid, outstanding, secondId)
      ensures lastId >= old(lastId)
      ensures forall id :: id in outstanding ==> id <= lastId && (id in old(outstanding) || id > old(lastId))
    {
      hide Dense, ChannelsSent;
      requestId := 0;
      if ids != [] {
        lastId := lastId + 1;
        requestId := lastId;
        outstanding := outstanding[requestId := Sent(Common, ids)];
      }
      mid, secondId := outstanding, lastId;
      reqs := SendChannels(groups, order);
    }

    // `resolveWebPages`, called by the timer.
    method ResolveWebPages(items: map<nat, Item>, now: int) returns (ghost walk: seq<nat>)
      requires Valid()
      modifies this`pending, this`timer, this`lastId, this`outstanding
      ensures Valid() && Walks(walk, old(pending.Keys))
      ensures PagesGrouped(walk, old(pending), pending, World(pages, items, now), outstanding, old(lastId))
      ensures RequestsGrouped(walk, old(pending), World(pages, items, now), old(outstanding), outstanding)
      ensures exists m :: IsLeastWait(m, walk, old(pending), World(pages, items, now))
                          && timer == if m < INT_MAX then (if m < DAY then m else DAY) else old(timer)
      ensures forall page :: page in old(pending) && old(pending)[page] == 0 && page in items ==>
                page in pending && SentOrWaits(page, pending[page], timer, World(pages, items, now), outstanding)
    {
      hide CollectedFor, Dense, ChannelsSent, IsLeastWait, Walks, PagesGrouped, RequestsGrouped, Resolved, CommonSent;
      hide SentOrWaits;
      var w := World(pages, items, now);
      var c, m;
      ghost var order;
      c, m, walk, order := CollectAll(pending, w);
      var requestId, reqs;
      ghost var mid, secondId;
      requestId, reqs, mid, secondId := SendAll(c.ids, c.groups, order);
      PlaceholdersInBounds(c, walk, requestId, reqs, pending, w, old(outstanding), mid, outstanding, old(lastId),
                           secondId);
      var resolved := c.pending;
      if requestId != 0 || |reqs| > 0 {
        resolved := ReplacePlaceholders(c.pending, requestId, reqs);
      }
      AllPagesGrouped(c, walk, requestId, reqs, pending, resolved, w, old(outstanding), mid, outstanding, old(lastId),
                      secondId);
      AllRequestsGrouped(c, walk, requestId, reqs, pending, w, old(outstanding), mid, outstanding, old(lastId),
                         secondId);
      InFlightAfter(walk, pending, resolved, w, old(outstanding), outstanding, old(lastId), lost);
      pending := resolved;
      if m < INT_MAX {
        timer := if m < DAY then m else DAY;
      }
      NonePassedOver(walk, old(pending), pending, w, outstanding, old(lastId), m, timer);
      SameKeys(walk, old(pending), pending, w, outstanding, old(lastId));
    }

    // `requestWebPageDelayed`.
    method RequestWebPageDelayed(page: nat, now: int)
      requires Valid() && page in pages
      modifies this`pending, this`timer
      ensures Valid()
      ensures var wanted := !pages[page].failed && pages[page].pendingTill != 0;
              && pending == (if wanted && page !in old(pending) then old(pending)[page := 0] else old(pending))
              && timer == if !wanted then old(timer)
                          else var wait := Max(0, pages[page].pendingTill - now);
                               if 0 <= old(timer) < wait then old(timer) else wait
    {
      if pages[page].failed || pages[page].pendingTill == 0 {
        return;
      }
      if page !in pending {
        pending := pending[page := 0];
      }
      var left := pages[page].pendingTill - now;
      if timer < 0 || left <= timer {
        timer := if left < 0 then 0 else left;
      }
    }

    // `clearWebPageRequest`.
    method ClearWebPageRequest(page: nat)
      requires Valid()
      modifies this`pending, this`timer
      ensures Valid() && pending == old(pending) - {page}
      ensures timer == if pending == map[] then -1 else old(timer)
    {
      pending := pending - {page};
      if pending == map[] {
        timer := -1;
      }
    }

    // `gotWebPages`; `applied` are the pages after the answer's own changes.
    method GotWebPages(id: nat, applied: Pages)
      requires Valid() && id in outstanding && applied.Keys == pages.Keys
      modifies this`pages, this`pending, this`outstanding
      ensures Valid() && outstanding == old(outstanding) - {id} && pages.Keys == applied.Keys
      ensures pending == map page | page in old(pending) && old(pending)[page] != id :: old(pending)[page]
      ensures pages == map page | page in applied ::
                         if page in old(pending) && old(pending)[page] == id then AfterAnswer(applied[page])
                         else applied[page]
      ensures forall page :: page in old(pending) && old(pending)[page] == id ==>
                && page !in pending && pages[page].pendingTill <= 0
                && (applied[page].pendingTill > 0 ==> pages[page].failed)
    {
      outstanding := outstanding - {id};
      pending, pages := DropAnswered(pending, applied, id);
    }

    // A failed request: no handler runs.
    method RequestFails(id: nat)
      requires Valid() && id in outstanding
      modifies this`outstanding, this`lost
      ensures Valid() && outstanding == old(outstanding) - {id} && lost == old(lost) + {id}
    {
      outstanding := outstanding - {id};
      lost := lost + {id};
    }

    method Happen(e: Event)
      requires Valid()
      modifies this
      ensures Valid() && pages.Keys == old(pages.Keys) && old(lost) <= lost
      ensures LostStay(old(pending), pending, old(lost), if e.UserClear? then {e.page} else {})
    {
      hide PagesGrouped, RequestsGrouped, Walks, IsLeastWait;
      match e {
        case UserRequest(page, now) =>
          if page in pages { RequestWebPageDelayed(page, now); }
        case UserClear(page) => ClearWebPageRequest(page);
        case Timer(items, now) =>
          if timer >= 0 {
            timer := -1;
            ghost var walk := ResolveWebPages(items, now);
            LostStayGrouped(walk, old(pending), pending, World(pages, items, now), outstanding, old(lastId), lost);
          }
        case Ok(id, applied) =>
          if id in outstanding && applied.Keys == pages.Keys { GotWebPages(id, applied); }
        case Fail(id) =>
          if id in outstanding { RequestFails(id); }
      }
    }
  }

  function Max(a: int, b: int): int { if a < b then b else a }

  datatype Event =
    | UserRequest(page: nat, now: int)
    | UserClear(page: nat)
    | Timer(items: map<nat, Item>, now: int)
    | Ok(id: nat, applied: Pages)
    | Fail(id: nat)

  /** Every run keeps the invariant; between calls no page holds a placeholder. */
  method AnyRun(pages: Pages, events: seq<Event>) returns (r: Resolver)
    ensures r.Valid()
    ensures forall page :: page in r.pending ==> r.pending[page] >= 0
  {
    r := new Resolver(pages);
    for i := 0 to |events|
      invariant r.Valid() && fresh(r)
    {
      r.Happen(events[i]);
    }
  }

  /** A page in flight is owed an answer exactly while its request has not failed; else it hangs, and `Happen`
      keeps it so until it is cleared. */
  lemma HangsExactlyWhenFailed(r: Resolver, page: nat)
    requires r.Valid() && page in r.pending && r.pending[page] != 0
    ensures r.pending[page] > 0
    ensures r.pending[page] in r.outstanding <==> r.pending[page] !in r.lost
  {
  }

  lemma PlaceholdersInBounds(c: Collected, walk: seq<nat>, requestId: nat, reqs: seq<nat>, pending: Pending, w: World,
                             before: Owed, mid: Owed, after: Owed, firstId: nat, secondId: nat)
    requires CollectedFor(c, walk, pending, w) && Walks(walk, pending.Keys)
    requires CommonSent(c.ids, requestId, before, mid, firstId) && firstId <= secondId
    requires ChannelsSent(c.groups, c.groups.Keys, reqs, mid, after, secondId)
    requires |reqs| == |c.groups| && forall page :: page in pending ==> pending[page] >= 0
    ensures c.pending.Keys == pending.Keys
    ensures forall page :: page in c.pending ==> -c.pending[page] - 2 < |reqs|
    ensures requestId == 0 && |reqs| == 0 ==>
              forall page :: page in c.pending ==> c.pending[page] == Resolved(c.pending[page], requestId, reqs)
  {
    forall page | page in c.pending
      ensures -c.pending[page] - 2 < |reqs|
      ensures requestId == 0 && |reqs| == 0 ==> c.pending[page] == Resolved(c.pending[page], requestId, reqs)
    {
      if ToSend(page, pending, w) {
        PageGrouped(c, walk, page, requestId, reqs, pending, w, before, mid, after, firstId, secondId);
        if requestId == 0 && |reqs| == 0 {
          assert false;
        }
      }
    }
  }

  lemma NothingSent(groups: Groups, reqs: seq<nat>, outstanding: Owed, lastId: nat)
    ensures ChannelsSent(groups, groups.Keys - groups.Keys, reqs, outstanding, outstanding, lastId)
  {
  }
}
