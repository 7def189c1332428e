/**
 Batched loading of message data: callers register callbacks by message id, a queued call sends one
 request a chat for everything not yet sent, and its answer or failure fires the callbacks.

 Every registered callback is an object of its own, named here by a number.
 */
module MessageData {

  datatype Place = Common | Channel(id: nat)

  type MsgId = m: int | -0x8000_0000_0000_0000 <= m < 0x8000_0000_0000_0000

  datatype Entry = Entry(requestId: nat, callbacks: seq<nat>)

  type Entries = map<MsgId, Entry>
  type Requests = map<Place, Entries>

  datatype Sent = Sent(place: Place, ids: set<MsgId>)

  type Owed = map<nat, Sent>

  // ----- one map of entries -----

  function Unsent(entries: Entries): set<MsgId> {
    set m | m in entries && entries[m].requestId == 0
  }

  function MarkedSent(entries: Entries, id: nat): Entries {
    map m | m in entries :: if entries[m].requestId == 0 then entries[m].(requestId := id) else entries[m]
  }

  function Without(entries: Entries, id: nat): Entries {
    map m | m in entries && entries[m].requestId != id :: entries[m]
  }

  // `collectMessageIds`.
  method CollectMessageIds(entries: Entries) returns (ids: set<MsgId>)
    ensures ids == Unsent(entries)
  {
    ids := {};
    var left := entries.Keys;
    while left != {}
      invariant left <= entries.Keys
      invariant ids == set m | m in entries && m !in left && entries[m].requestId == 0
      decreases |left|
    {
      var m :| m in left;
      left := left - {m};
      if entries[m].requestId == 0 {
        ids := ids + {m};
      }
    }
  }

  // The loop that stores the id of a request just sent.
  method MarkSent(entries: Entries, id: nat) returns (marked: Entries)
    ensures marked == MarkedSent(entries, id)
  {
    marked := entries;
    var left := entries.Keys;
    while left != {}
      invariant left <= entries.Keys && marked.Keys == entries.Keys
      invariant forall m :: m in left ==> marked[m] == entries[m]
      invariant forall m :: m in entries && m !in left ==> marked[m] == MarkedSent(entries, id)[m]
      decreases |left|
    {
      var m :| m in left;
      left := left - {m};
      if marked[m].requestId == 0 {
        marked := marked[m := marked[m].(requestId := id)];
      }
    }
  }

  // ----- who waits for what -----

  // Callback t was registered for message home[t].1 of chat home[t].0.
  type Homes = map<nat, (Place, MsgId)>

  ghost predicate Distinct(s: seq<nat>) {
    forall i, j :: 0 <= i < j < |s| ==> s[i] != s[j]
  }

  ghost predicate EntryHolds(p: Place, m: MsgId, e: Entry, homes: Homes, fired: seq<nat>) {
    && Distinct(e.callbacks)
    && (forall t :: t in e.callbacks ==> t in homes && homes[t] == (p, m) && t !in fired)
  }

  ghost predicate IsPending(t: nat, home: (Place, MsgId), requests: Requests) {
    home.0 in requests && home.1 in requests[home.0] && t in requests[home.0][home.1].callbacks
  }

  // Registered is pending plus fired, and nothing fires twice.
  ghost predicate CallbacksHold(requests: Requests, homes: Homes, fired: seq<nat>) {
    && (forall p, m :: p in requests && m in requests[p] ==> EntryHolds(p, m, requests[p][m], homes, fired))
    && (forall t :: t in homes ==> (t in fired <==> !IsPending(t, homes[t], requests)))
    && (forall t :: t in fired ==> t in homes)
    && Distinct(fired)
  }

  // Unsent entries are only where a resolve is still to come; sent ones are in exactly one owed answer.
  ghost predicate PlaceHolds(p: Place, requests: Requests, outstanding: Owed, unsentAllowed: bool) {
    && (p in requests ==> forall m :: m in requests[p] ==>
          var id := requests[p][m].requestId;
          if id == 0 then unsentAllowed
          else id in outstanding && outstanding[id].place == p && m in outstanding[id].ids)
    && (forall id :: id in outstanding && outstanding[id].place == p ==>
          && id != 0 && p in requests && outstanding[id].ids != {}
          && forall m :: m in outstanding[id].ids ==> m in requests[p] && requests[p][m].requestId == id)
  }

  ghost predicate BatchesHold(requests: Requests, outstanding: Owed, unsentAllowed: set<Place>) {
    forall p :: PlaceHolds(p, requests, outstanding, p in unsentAllowed)
  }

  ghost predicate SameElsewhere(p: Place, requests: Requests, outstanding: Owed,
                                requests': Requests, outstanding': Owed) {
    && (forall q :: q != p ==> (q in requests <==> q in requests') && (q in requests ==> requests[q] == requests'[q]))
    && (forall id :: id in outstanding && outstanding[id].place != p ==>
          id in outstanding' && outstanding'[id] == outstanding[id])
    && (forall id :: id in outstanding' && outstanding'[id].place != p ==>
          id in outstanding && outstanding'[id] == outstanding[id])
  }

  lemma OnePlaceAtATime(p: Place, requests: Requests, outstanding: Owed, allowed: set<Place>,
                        requests': Requests, outstanding': Owed, allowed': set<Place>)
    requires BatchesHold(requests, outstanding, allowed)
    requires SameElsewhere(p, requests, outstanding, requests', outstanding')
    requires forall q :: q != p && q in allowed ==> q in allowed'
    requires PlaceHolds(p, requests', outstanding', p in allowed')
    ensures BatchesHold(requests', outstanding', allowed')
  {
    forall q ensures PlaceHolds(q, requests', outstanding', q in allowed') {
      if q != p {
        assert PlaceHolds(q, requests, outstanding, q in allowed);
      }
    }
  }

  // Sending everything unsent of one chat under a fresh id.
  lemma SendKeeps(p: Place, requests: Requests, outstanding: Owed, allowed: set<Place>, id: nat)
    requires BatchesHold(requests, outstanding, allowed) && p in requests
    requires id > 0 && id !in outstanding && Unsent(requests[p]) != {}
    ensures BatchesHold(requests[p := MarkedSent(requests[p], id)],
                        outstanding[id := Sent(p, Unsent(requests[p]))], allowed - {p})
  {
    assert PlaceHolds(p, requests, outstanding, p in allowed);
    OnePlaceAtATime(p, requests, outstanding, allowed, requests[p := MarkedSent(requests[p], id)],
                    outstanding[id := Sent(p, Unsent(requests[p]))], allowed - {p});
  }

  // A chat with nothing unsent, dropped when it is an empty channel.
  lemma NothingToSendKeeps(p: Place, requests: Requests, outstanding: Owed, allowed: set<Place>)
    requires BatchesHold(requests, outstanding, allowed) && p in requests && Unsent(requests[p]) == {}
    ensures BatchesHold(requests, outstanding, allowed - {p})
    ensures |requests[p]| == 0 ==> BatchesHold(requests - {p}, outstanding, allowed - {p})
  {
    assert PlaceHolds(p, requests, outstanding, p in allowed);
    assert forall m :: m in requests[p] ==> m !in Unsent(requests[p]);
    OnePlaceAtATime(p, requests, outstanding, allowed, requests, outstanding, allowed - {p});
    if |requests[p]| == 0 {
      OnePlaceAtATime(p, requests, outstanding, allowed, requests - {p}, outstanding, allowed - {p});
    }
  }

  // Removing the entries of an answered request.
  lemma AnswerKeeps(requests: Requests, outstanding: Owed, allowed: set<Place>, id: nat)
    requires BatchesHold(requests, outstanding, allowed) && id in outstanding
    ensures var p := outstanding[id].place;
            && p in requests
            && BatchesHold(requests[p := Without(requests[p], id)], outstanding - {id}, allowed)
            && (Without(requests[p], id) == map[] ==> BatchesHold(requests - {p}, outstanding - {id}, allowed))
  {
    var p := outstanding[id].place;
    assert PlaceHolds(p, requests, outstanding, p in allowed);
    OnePlaceAtATime(p, requests, outstanding, allowed, requests[p := Without(requests[p], id)],
                    outstanding - {id}, allowed);
    if Without(requests[p], id) == map[] {
      assert forall m :: m in requests[p] ==> m !in Without(requests[p], id);
      OnePlaceAtATime(p, requests, outstanding, allowed, requests - {p}, outstanding - {id}, allowed);
    }
  }

  // ----- callbacks -----

  lemma DistinctAppend(a: seq<nat>, b: seq<nat>)
    requires Distinct(a) && Distinct(b) && forall t :: t in a ==> t !in b
    ensures Distinct(a + b)
  {
    forall i, j | 0 <= i < j < |a + b| ensures (a + b)[i] != (a + b)[j] {
      if i < |a| <= j {
        assert a[i] in a && b[j - |a|] in b;
      }
    }
  }

  lemma NoneIsDistinct()
    ensures Distinct([])
  {
  }

  // The callbacks that an answer with this id is waited for by.
  ghost predicate WaitsFor(t: nat, entries: Entries, id: nat) {
    exists m :: m in entries && entries[m].requestId == id && t in entries[m].callbacks
  }

  function Handled(entries: Entries, left: set<MsgId>): Entries {
    map m | m in entries && m !in left :: entries[m]
  }

  lemma HandleOne(p: Place, entries: Entries, left: set<MsgId>, m: MsgId, id: nat, homes: Homes, fired: seq<nat>)
    requires left <= entries.Keys && m in left
    requires forall m :: m in entries ==> EntryHolds(p, m, entries[m], homes, fired)
    ensures forall t :: WaitsFor(t, Handled(entries, left - {m}), id)
              <==> WaitsFor(t, Handled(entries, left), id) || (entries[m].requestId == id && t in entries[m].callbacks)
    ensures forall t :: WaitsFor(t, Handled(entries, left), id) ==> t !in entries[m].callbacks
    ensures Distinct(entries[m].callbacks)
  {
    var now, next := Handled(entries, left), Handled(entries, left - {m});
    assert EntryHolds(p, m, entries[m], homes, fired);
    forall t | WaitsFor(t, now, id) ensures t !in entries[m].callbacks && WaitsFor(t, next, id) {
      var n :| n in now && now[n].requestId == id && t in now[n].callbacks;
      assert EntryHolds(p, n, entries[n], homes, fired);
      assert next[n] == entries[n];
    }
    if entries[m].requestId == id {
      assert next[m] == entries[m];
    }
  }

  // The loop of `finalizeMessageDataRequest`: what is left, and the callbacks taken out.
  method TakeAnswered(p: Place, entries: Entries, id: nat, ghost homes: Homes, ghost fired: seq<nat>)
    returns (rest: Entries, callbacks: seq<nat>)
    requires forall m :: m in entries ==> EntryHolds(p, m, entries[m], homes, fired)
    ensures rest == Without(entries, id)
    ensures Distinct(callbacks) && forall t :: t in callbacks <==> WaitsFor(t, entries, id)
  {
    rest, callbacks := entries, [];
    var left := entries.Keys;
    while left != {}
      invariant left <= entries.Keys
      invariant rest == map m | m in entries && (m in left || entries[m].requestId != id) :: entries[m]
      invariant Distinct(callbacks)
      invariant forall t :: t in callbacks <==> WaitsFor(t, Handled(entries, left), id)
      decreases |left|
    {
      hide WaitsFor, EntryHolds, Distinct, Handled;
      var m :| m in left;
      HandleOne(p, entries, left, m, id, homes, fired);
      left := left - {m};
      if entries[m].requestId == id {
        DistinctAppend(callbacks, entries[m].callbacks);
        callbacks := callbacks + entries[m].callbacks;
        rest := rest - {m};
      }
    }
    assert Handled(entries, {}) == entries;
  }

  lemma FiringKeeps(requests: Requests, homes: Homes, fired: seq<nat>, p: Place, id: nat, callbacks: seq<nat>,
                    requests': Requests)
    requires CallbacksHold(requests, homes, fired) && p in requests
    requires Distinct(callbacks) && forall t :: t in callbacks <==> WaitsFor(t, requests[p], id)
    requires forall q :: q != p ==>
               (q in requests <==> q in requests') && (q in requests ==> requests[q] == requests'[q])
    requires if p in requests' then requests'[p] == Without(requests[p], id) else Without(requests[p], id) == map[]
    ensures CallbacksHold(requests', homes, fired + callbacks)
  {
    var fired' := fired + callbacks;
    forall t | t in callbacks ensures t in homes && t !in fired && homes[t].0 == p && homes[t].1 in requests[p]
                                      && requests[p][homes[t].1].requestId == id {
      var m :| m in requests[p] && requests[p][m].requestId == id && t in requests[p][m].callbacks;
      assert EntryHolds(p, m, requests[p][m], homes, fired);
    }
    DistinctAppend(fired, callbacks);
    forall q, m | q in requests' && m in requests'[q] ensures EntryHolds(q, m, requests'[q][m], homes, fired') {
      assert EntryHolds(q, m, requests[q][m], homes, fired);
    }
    forall t | t in homes ensures t in fired' <==> !IsPending(t, homes[t], requests') {
      if t !in fired && t !in callbacks {
        var (q, m) := homes[t];
        assert IsPending(t, homes[t], requests) && (q == p ==> requests[p][m].requestId != id);
        if q == p { assert m in Without(requests[p], id); }
      }
    }
  }

  lemma SendingKeepsCallbacks(requests: Requests, homes: Homes, fired: seq<nat>, p: Place, id: nat)
    requires CallbacksHold(requests, homes, fired) && p in requests
    ensures CallbacksHold(requests[p := MarkedSent(requests[p], id)], homes, fired)
    ensures requests[p] == map[] ==> CallbacksHold(requests - {p}, homes, fired)
  {
    var after := requests[p := MarkedSent(requests[p], id)];
    forall q, m | q in after && m in after[q] ensures EntryHolds(q, m, after[q][m], homes, fired) {
      assert EntryHolds(q, m, requests[q][m], homes, fired);
    }
    forall t | t in homes ensures IsPending(t, homes[t], after) <==> IsPending(t, homes[t], requests) {
    }
    if requests[p] == map[] {
      forall t | t in homes ensures IsPending(t, homes[t], requests - {p}) <==> IsPending(t, homes[t], requests) {
      }
    }
  }

  // ----- the protocol -----

  // The map with entry m of chat p replaced; `operator[]` creates what is missing.
  function EntryOf(requests: Requests, p: Place, m: MsgId): Entry {
    if p in requests && m in requests[p] then requests[p][m] else Entry(0, [])
  }

  function WithEntry(requests: Requests, p: Place, m: MsgId, e: Entry): Requests {
    requests[p := (if p in requests then requests[p] else map[])[m := e]]
  }

  lemma TouchKeepsCallbacks(requests: Requests, homes: Homes, fired: seq<nat>, p: Place, m: MsgId)
    requires CallbacksHold(requests, homes, fired)
    ensures CallbacksHold(WithEntry(requests, p, m, EntryOf(requests, p, m)), homes, fired)
  {
  }

  lemma NewCallbackHolds(p: Place, m: MsgId, e: Entry, homes: Homes, fired: seq<nat>, t: nat)
    requires EntryHolds(p, m, e, homes, fired) && t !in homes && t !in fired
    ensures EntryHolds(p, m, e.(callbacks := e.callbacks + [t]), homes[t := (p, m)], fired)
  {
  }

  lemma RegisterKeepsPending(requests: Requests, homes: Homes, p: Place, m: MsgId, t: nat, u: nat)
    requires t !in homes && u in homes
    ensures var e := EntryOf(requests, p, m);
            var after := WithEntry(requests, p, m, e.(callbacks := e.callbacks + [t]));
            IsPending(u, homes[u], after) <==> IsPending(u, homes[u], requests)
  {
  }

  lemma RegisteredIsPending(requests: Requests, p: Place, m: MsgId, t: nat)
    ensures var e := EntryOf(requests, p, m);
            IsPending(t, (p, m), WithEntry(requests, p, m, e.(callbacks := e.callbacks + [t])))
  {
  }

  lemma RegisterKeepsCallbacks(requests: Requests, homes: Homes, fired: seq<nat>, p: Place, m: MsgId, t: nat)
    requires CallbacksHold(requests, homes, fired) && t !in homes
    ensures var e := EntryOf(requests, p, m);
            CallbacksHold(WithEntry(requests, p, m, e.(callbacks := e.callbacks + [t])), homes[t := (p, m)], fired)
  {
    hide Distinct, IsPending;
    var e := EntryOf(requests, p, m);
    var after, homes' := WithEntry(requests, p, m, e.(callbacks := e.callbacks + [t])), homes[t := (p, m)];
    assert EntryHolds(p, m, e, homes, fired) by { NoneIsDistinct(); }
    NewCallbackHolds(p, m, e, homes, fired, t);
    RegisteredIsPending(requests, p, m, t);
    forall q, n | q in after && n in after[q] ensures EntryHolds(q, n, after[q][n], homes', fired) {
      if (q, n) != (p, m) {
        assert EntryHolds(q, n, requests[q][n], homes, fired);
      }
    }
    forall u | u in homes' ensures u in fired <==> !IsPending(u, homes'[u], after) {
      if u != t {
        RegisterKeepsPending(requests, homes, p, m, t, u);
      }
    }
  }

  lemma RegisterKeepsBatches(requests: Requests, outstanding: Owed, allowed: set<Place>, p: Place, m: MsgId,
                             callbacks: seq<nat>)
    requires BatchesHold(requests, outstanding, allowed)
    ensures var e := EntryOf(requests, p, m);
            BatchesHold(WithEntry(requests, p, m, e.(callbacks := callbacks)), outstanding,
                        if e.requestId == 0 then allowed + {p} else allowed)
  {
    var e := EntryOf(requests, p, m);
    var allowed' := if e.requestId == 0 then allowed + {p} else allowed;
    assert PlaceHolds(p, requests, outstanding, p in allowed);
    OnePlaceAtATime(p, requests, outstanding, allowed, WithEntry(requests, p, m, e.(callbacks := callbacks)),
                    outstanding, allowed');
  }

  class Messages {
    var requests: Requests      // `_messageDataRequests` under Common, `_channelMessageDataRequests` under the others
    var resolveQueued: bool     // `_messageDataResolveDelayed`
    var lastId: nat
    var outstanding: Owed       // what the transport still owes
    var fired: seq<nat>         // callbacks called, in order
    var registered: nat         // callbacks 0, 1, ... were registered so far
    ghost var homes: Homes

    ghost predicate Valid()
      reads this
    {
      && Common in requests
      && (forall id :: id in outstanding ==> id <= lastId)
      && BatchesHold(requests, outstanding, if resolveQueued then requests.Keys else {})
      && CallbacksHold(requests, homes, fired)
      && (forall t: nat :: t in homes <==> t < registered)
    }

    constructor ()
      ensures Valid() && registered == 0 && fired == [] && outstanding == map[]
    {
      requests, resolveQueued, lastId, outstanding := map[Common := map[]], false, 0, map[];
      fired, registered, homes := [], 0, map[];
    }

    method RequestMessageData(p: Place, m: MsgId, done: bool)
      requires Valid()
      modifies this
      ensures Valid() && fired == old(fired) && outstanding == old(outstanding)
      ensures registered == old(registered) + if done then 1 else 0
      ensures var e := EntryOf(old(requests), p, m);
              && requests == WithEntry(old(requests), p, m,
                                       e.(callbacks := e.callbacks + if done then [old(registered)] else []))
              && resolveQueued == (old(resolveQueued) || e.requestId == 0)
    {
      hide BatchesHold, CallbacksHold;
      ghost var allowed := if resolveQueued then requests.Keys else {};
      var e := EntryOf(requests, p, m);
      if done {
        RegisterKeepsCallbacks(requests, homes, fired, p, m, registered);
        e := e.(callbacks := e.callbacks + [registered]);
        homes := homes[registered := (p, m)];
        registered := registered + 1;
      } else {
        TouchKeepsCallbacks(requests, homes, fired, p, m);
        assert e.callbacks + [] == e.callbacks;
      }
      RegisterKeepsBatches(requests, outstanding, allowed, p, m, e.callbacks);
      requests := WithEntry(requests, p, m, e);
      if e.requestId == 0 {
        resolveQueued := true;
      }
      MoreAllowed(requests, outstanding, if e.requestId == 0 then allowed + {p} else allowed,
                  if resolveQueued then requests.Keys else {});
    }

    // One turn of the loops of `resolveMessageDatas`: the common map, or one channel.
    method ResolvePlace(p: Place, ghost allowed: set<Place>)
      requires p in requests && Common in requests && (forall id :: id in outstanding ==> id <= lastId)
      requires BatchesHold(requests, outstanding, allowed) && CallbacksHold(requests, homes, fired)
      modifies this`requests, this`outstanding, this`lastId
      ensures BatchesHold(requests, outstanding, allowed - {p}) && CallbacksHold(requests, homes, fired)
      ensures Common in requests && (forall id :: id in outstanding ==> id <= lastId)
      ensures var unsent := Unsent(old(requests)[p]);
              if unsent != {} then
                && lastId == old(lastId) + 1
                && outstanding == old(outstanding)[lastId := Sent(p, unsent)]
                && requests == old(requests)[p := MarkedSent(old(requests)[p], lastId)]
              else
                && outstanding == old(outstanding) && lastId == old(lastId)
                && requests == if p != Common && old(requests)[p] == map[] then old(requests) - {p} else old(requests)
    {
      hide BatchesHold, CallbacksHold, MarkedSent;
      SendingKeepsCallbacks(requests, homes, fired, p, lastId + 1);
      var ids := CollectMessageIds(requests[p]);
      if ids != {} {
        SendKeeps(p, requests, outstanding, allowed, lastId + 1);
        lastId := lastId + 1;
        outstanding := outstanding[lastId := Sent(p, ids)];
        var marked := MarkSent(requests[p], lastId);
        requests := requests[p := marked];
      } else {
        NothingToSendKeeps(p, requests, outstanding, allowed);
        if p != Common && requests[p] == map[] {
          requests := requests - {p};
        }
      }
    }

    // The queued call of `resolveMessageDatas`.
    method ResolveMessageDatas()
      requires Valid() && resolveQueued
      modifies this
      ensures Valid() && !resolveQueued && fired == old(fired) && registered == old(registered)
      ensures forall p, m :: p in requests && m in requests[p] ==> requests[p][m].requestId in outstanding
      ensures forall id :: id in old(outstanding) ==> id in outstanding && outstanding[id] == old(outstanding)[id]
    {
      hide BatchesHold, CallbacksHold, MarkedSent, Unsent;
      resolveQueued := false;
      var left := requests.Keys;
      while left != {}
        invariant left <= requests.Keys && Common in requests && !resolveQueued
        invariant forall id :: id in outstanding ==> id <= lastId
        invariant BatchesHold(requests, outstanding, left) && CallbacksHold(requests, homes, fired)
        invariant forall id :: id in old(outstanding) ==> id in outstanding && outstanding[id] == old(outstanding)[id]
        invariant forall t: nat :: t in homes <==> t < registered
        invariant fired == old(fired) && registered == old(registered)
        decreases |left|
      {
        var p :| p in left;
        ResolvePlace(p, left);
        left := left - {p};
      }
      AllSent(requests, outstanding, left);
    }

    // The `done` and `fail` handlers.
    method FinalizeMessageDataRequest(id: nat)
      requires Valid() && id in outstanding
      modifies this
      ensures Valid() && outstanding == old(outstanding) - {id} && registered == old(registered)
      ensures var p := old(outstanding)[id].place;
              && p in old(requests)
              && (forall t :: t in fired <==> t in old(fired) || WaitsFor(t, old(requests)[p], id))
              && old(fired) <= fired
              && (p in requests ==> requests[p] == Without(old(requests)[p], id))
              && (p !in requests ==> Without(old(requests)[p], id) == map[])
              && (forall q :: q != p ==> (q in requests <==> q in old(requests))
                                         && (q in requests ==> requests[q] == old(requests)[q]))
    {
      hide BatchesHold, CallbacksHold, WaitsFor, EntryHolds, Without, Distinct;
      var p := outstanding[id].place;
      ghost var allowed := if resolveQueued then requests.Keys else {};
      AnswerKeeps(requests, outstanding, allowed, id);
      EntriesHold(requests, homes, fired, p);
      var rest, callbacks := TakeAnswered(p, requests[p], id, homes, fired);
      ghost var before := requests;
      requests := requests[p := rest];
      if p != Common && rest == map[] {
        requests := requests - {p};
        assert requests == before - {p};
      }
      FiringKeeps(before, homes, fired, p, id, callbacks, requests);
      outstanding := outstanding - {id};
      fired := fired + callbacks;
      FewerPlaces(requests, outstanding, allowed, if resolveQueued then requests.Keys else {});
    }

    method Happen(e: Event)
      requires Valid()
      modifies this
      ensures Valid() && old(fired) <= fired && old(registered) <= registered
    {
      match e {
        case UserRequest(p, m, done) =>
          RequestMessageData(p, m, done);
        case ResolveTimer =>
          if resolveQueued {
            ResolveMessageDatas();
          }
        case OkOrFail(id) =>
          if id in outstanding {
            FinalizeMessageDataRequest(id);
          }
      }
    }
  }

  lemma EntriesHold(requests: Requests, homes: Homes, fired: seq<nat>, p: Place)
    requires CallbacksHold(requests, homes, fired) && p in requests
    ensures forall m :: m in requests[p] ==> EntryHolds(p, m, requests[p][m], homes, fired)
  {
  }

  lemma AllSent(requests: Requests, outstanding: Owed, allowed: set<Place>)
    requires BatchesHold(requests, outstanding, allowed) && allowed == {}
    ensures forall p, m :: p in requests && m in requests[p] ==> requests[p][m].requestId in outstanding
  {
    forall p, m | p in requests && m in requests[p] ensures requests[p][m].requestId in outstanding {
      assert PlaceHolds(p, requests, outstanding, p in allowed);
    }
  }

  lemma MoreAllowed(requests: Requests, outstanding: Owed, allowed: set<Place>, allowed': set<Place>)
    requires BatchesHold(requests, outstanding, allowed) && allowed <= allowed'
    ensures BatchesHold(requests, outstanding, allowed')
  {
    forall p ensures PlaceHolds(p, requests, outstanding, p in allowed') {
      assert PlaceHolds(p, requests, outstanding, p in allowed);
    }
  }

  lemma FewerPlaces(requests: Requests, outstanding: Owed, allowed: set<Place>, allowed': set<Place>)
    requires BatchesHold(requests, outstanding, allowed)
    requires forall p :: p in allowed && p in requests ==> p in allowed'
    ensures BatchesHold(requests, outstanding, allowed')
  {
    forall p ensures PlaceHolds(p, requests, outstanding, p in allowed') {
      assert PlaceHolds(p, requests, outstanding, p in allowed);
    }
  }

  datatype Event = UserRequest(p: Place, m: MsgId, done: bool) | ResolveTimer | OkOrFail(id: nat)

  /** Every run keeps the invariant. */
  method AnyRun(events: seq<Event>) returns (x: Messages)
    ensures x.Valid()
  {
    x := new Messages();
    for i := 0 to |events|
      invariant x.Valid() && fresh(x)
    {
      x.Happen(events[i]);
    }
  }

  /** In every reachable state a message belongs to at most one owed answer of its chat. */
  lemma OneRequestAMessage(x: Messages, a: nat, b: nat, m: MsgId)
    requires x.Valid() && a in x.outstanding && b in x.outstanding
    requires x.outstanding[a].place == x.outstanding[b].place
    requires m in x.outstanding[a].ids && m in x.outstanding[b].ids
    ensures a == b
  {
    var allowed := if x.resolveQueued then x.requests.Keys else {};
    var p := x.outstanding[a].place;
    assert PlaceHolds(p, x.requests, x.outstanding, p in allowed);
  }

  /** Every registered callback has fired exactly once, or waits in its own message's entry; nothing else fires. */
  lemma RegisteredIsPendingPlusFired(x: Messages, t: nat)
    requires x.Valid()
    ensures multiset(x.fired)[t] == if t < x.registered && !IsPending(t, x.homes[t], x.requests) then 1 else 0
  {
    FiredOnce(x.fired, t);
  }

  lemma {:induction false} FiredOnce(s: seq<nat>, t: nat)
    requires Distinct(s)
    ensures multiset(s)[t] == if t in s then 1 else 0
  {
    if |s| > 0 {
      var front, last := s[..|s| - 1], s[|s| - 1];
      assert s == front + [last];
      FiredOnce(front, t);
      assert last !in front;
    }
  }

  /** No callback is forgotten: one that has not fired is in an owed answer, or a resolve is queued. */
  lemma PendingWillBeAnswered(x: Messages, t: nat)
    requires x.Valid() && t < x.registered && t !in x.fired
    ensures var (p, m) := x.homes[t];
            p in x.requests && m in x.requests[p] &&
            var id := x.requests[p][m].requestId;
            if id == 0 then x.resolveQueued
            else id in x.outstanding && x.outstanding[id].place == p && m in x.outstanding[id].ids
  {
    var (p, m) := x.homes[t];
    assert IsPending(t, x.homes[t], x.requests);
    var allowed := if x.resolveQueued then x.requests.Keys else {};
    assert PlaceHolds(p, x.requests, x.outstanding, p in allowed);
  }
}
