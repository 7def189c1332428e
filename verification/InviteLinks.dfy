/**
 The cache of a peer's invite links: a list whose live permanent link, if any, is first, kept by late
 server replies, edits, external updates and pruning.

 Urls are named by numbers, and so are callbacks.
 */
module InviteLinks {

  datatype Link = Link(url: nat, permanent: bool, revoked: bool, usage: int)

  datatype Stored = NoLink | TheLink(url: nat)

  type Links = seq<Link>

  predicate Live(link: Link) {
    link.permanent && !link.revoked
  }

  // The live permanent link is first, unique, and the one last stored on the peer.
  ghost predicate SliceHolds(links: Links, stored: Stored) {
    && (forall i :: 1 <= i < |links| ==> !Live(links[i]))
    && (|links| > 0 && Live(links[0]) ==> stored == TheLink(links[0].url))
  }

  predicate HasPermanent(links: Links) {
    |links| > 0 && Live(links[0])
  }

  // ----- the list operations, as the source does them -----

  // `BringPermanentToFront`.
  method BringPermanentToFront(links: Links) returns (r: Links)
    ensures r == Brought(links)
  {
    var i := 0;
    while i < |links| && !Live(links[i])
      invariant i <= |links| && forall j :: 0 <= j < i ==> !Live(links[j])
    {
      i := i + 1;
    }
    FirstLiveIs(links, i);
    r := if i < |links| then [links[i]] + links[..i] + links[i + 1..] else links;
  }

  function FirstLive(links: Links): (i: nat)
    ensures i <= |links|
  {
    if |links| == 0 || Live(links[0]) then 0 else 1 + FirstLive(links[1..])
  }

  lemma {:induction false} FirstLiveIs(links: Links, i: nat)
    requires i <= |links| && (i < |links| ==> Live(links[i])) && forall j :: 0 <= j < i ==> !Live(links[j])
    ensures FirstLive(links) == i
    decreases |links|
  {
    if i > 0 { FirstLiveIs(links[1..], i - 1); }
  }

  lemma {:induction false} FirstLiveFinds(links: Links)
    ensures forall j :: 0 <= j < FirstLive(links) ==> !Live(links[j])
    ensures FirstLive(links) < |links| ==> Live(links[FirstLive(links)])
    decreases |links|
  {
    if |links| > 0 && !Live(links[0]) {
      FirstLiveFinds(links[1..]);
      assert forall j :: 1 <= j < |links| ==> links[j] == links[1..][j - 1];
    }
  }

  function Brought(links: Links): Links {
    var i := FirstLive(links);
    if i < |links| then [links[i]] + links[..i] + links[i + 1..] else links
  }

  // `RemovePermanent`.
  method RemovePermanent(links: Links) returns (r: Links)
    ensures r == WithoutLive(links)
  {
    r := [];
    for i := 0 to |links|
      invariant r == WithoutLive(links[..i])
    {
      assert links[..i + 1][..i] == links[..i];
      if !Live(links[i]) {
        r := r + [links[i]];
      }
    }
    assert links[..|links|] == links;
  }

  function WithoutLive(links: Links): (r: Links)
    ensures forall i :: 0 <= i < |r| ==> !Live(r[i])
  {
    if |links| == 0 then []
    else
      var front, last := WithoutLive(links[..|links| - 1]), links[|links| - 1];
      if Live(last) then front else front + [last]
  }

  // The filter of `parseSlice` against the link that is already first.
  function WithoutUrl(links: Links, url: nat): Links {
    if |links| == 0 then []
    else
      var front, last := WithoutUrl(links[..|links| - 1], url), links[|links| - 1];
      if last.url == url then front else front + [last]
  }

  method ParseSlice(invites: Links, existing: Links) returns (r: Links)
    ensures r == if HasPermanent(existing) then WithoutUrl(invites, existing[0].url) else invites
  {
    r := [];
    for i := 0 to |invites|
      invariant r == if HasPermanent(existing) then WithoutUrl(invites[..i], existing[0].url) else invites[..i]
    {
      assert invites[..i + 1][..i] == invites[..i] && invites[..i + 1] == invites[..i] + [invites[i]];
      if !HasPermanent(existing) || invites[i].url != existing[0].url {
        r := r + [invites[i]];
      }
    }
    assert invites[..|invites|] == invites;
  }

  // `prependMyToFirstSlice`.
  function Prepended(links: Links, link: Link): Links {
    if !HasPermanent(links) then [link] + links
    else if link.permanent then [link] + links[1..]
    else [links[0], link] + links[1..]
  }

  // The new list after an answer with the peer's first links.
  function Reloaded(links: Links, invites: Links): Links {
    if HasPermanent(links) then [links[0]] + WithoutLive(WithoutUrl(invites, links[0].url))
    else Brought(invites)
  }

  // `applyExternalUpdate`.
  function Replaced(links: Links, updated: Link): (r: Links)
    ensures |r| == |links|
    ensures forall i :: 0 <= i < |links| ==> r[i] == if links[i].url == updated.url then updated else links[i]
  {
    if |links| == 0 then []
    else [if links[0].url == updated.url then updated else links[0]] + Replaced(links[1..], updated)
  }

  // `ranges::find` by url.
  function IndexOf(links: Links, url: nat): (i: nat)
    ensures i <= |links| && (i < |links| ==> links[i].url == url) && forall j :: 0 <= j < i ==> links[j].url != url
  {
    if |links| == 0 || links[0].url == url then 0 else 1 + IndexOf(links[1..], url)
  }

  // The cache part of an edit's answer.
  function Edited(links: Links, url: nat, updated: Link): Links {
    var j := IndexOf(links, url);
    if j == |links| then links
    else if updated.revoked && !links[j].revoked then links[..j] + links[j + 1..]
    else links[j := updated]
  }

  // `setMyPermanent`.
  function WithPermanent(links: Links, link: Link): Links {
    if !HasPermanent(links) then [link] + links
    else if links[0].url == link.url then [links[0].(usage := link.usage)] + links[1..]
    else [link] + links[1..]
  }

  // The list part of the answer to `requestMyLinks`.
  method Reload(existing: Links, invites: Links) returns (r: Links)
    ensures r == Reloaded(existing, invites)
  {
    var slice := ParseSlice(invites, existing);
    if !HasPermanent(existing) {
      r := BringPermanentToFront(slice);
    } else {
      slice := RemovePermanent(slice);
      assert existing[..1] == [existing[0]];
      r := existing[..1] + slice;
    }
  }

  // ----- what each operation makes of the list -----

  // A list without some of its links is taken piece by piece.
  lemma {:induction false} RemovalsSplit(a: Links, b: Links, url: nat)
    ensures WithoutLive(a + b) == WithoutLive(a) + WithoutLive(b)
    ensures WithoutUrl(a + b, url) == WithoutUrl(a, url) + WithoutUrl(b, url)
    decreases |b|
  {
    if |b| == 0 {
      assert a + b == a;
    } else {
      assert (a + b)[..|a + b| - 1] == a + b[..|b| - 1];
      RemovalsSplit(a, b[..|b| - 1], url);
    }
  }

  lemma RemovalsOfOne(link: Link, url: nat)
    ensures WithoutLive([link]) == if link.permanent && !link.revoked then [] else [link]
    ensures WithoutUrl([link], url) == if link.url == url then [] else [link]
  {
  }

  lemma RemovalsSplitIn3(a: Links, b: Links, c: Links, url: nat)
    ensures WithoutLive(a + b + c) == WithoutLive(a) + WithoutLive(b) + WithoutLive(c)
    ensures WithoutUrl(a + b + c, url) == WithoutUrl(a, url) + WithoutUrl(b, url) + WithoutUrl(c, url)
  {
    hide WithoutLive, WithoutUrl;
    RemovalsSplit(a, b, url);
    RemovalsSplit(a + b, c, url);
  }

  lemma MovedToFront(before: Links, link: Link, later: Links)
    requires Live(link)
    ensures multiset([link] + before + later) == multiset(before + [link] + later)
    ensures WithoutLive([link] + before + later) == WithoutLive(before + [link] + later)
  {
    hide WithoutLive, WithoutUrl, Live;
    LiveIs(link);
    RemovalsOfOne(link, 0);
    RemovalsSplitIn3([link], before, later, 0);
    RemovalsSplitIn3(before, [link], later, 0);
    assert WithoutLive(before) + [] == WithoutLive(before) == [] + WithoutLive(before);
  }

  // Bringing a link to the front moves that one only, and it is the first live one.
  lemma BroughtIs(invites: Links)
    ensures multiset(Brought(invites)) == multiset(invites) && WithoutLive(Brought(invites)) == WithoutLive(invites)
    ensures forall i :: 0 <= i < |invites| && Live(invites[i]) && (forall j :: 0 <= j < i ==> !Live(invites[j])) ==>
              |Brought(invites)| > 0 && Brought(invites)[0] == invites[i]
  {
    var k := FirstLive(invites);
    FirstLiveFinds(invites);
    hide FirstLive, Live, WithoutLive;
    if k < |invites| {
      MovedToFront(invites[..k], invites[k], invites[k + 1..]);
      assert invites == invites[..k] + [invites[k]] + invites[k + 1..];
    }
  }

  lemma LiveIs(link: Link)
    ensures Live(link) <==> link.permanent && !link.revoked
  {
  }

  // A new link joins the others, after the live permanent one or in its stead.
  lemma PrependedIs(links: Links, link: Link)
    ensures var after, at := Prepended(links, link), if HasPermanent(links) && !link.permanent then 1 else 0;
            && at < |after| && after[at] == link
            && after[..at] + after[at + 1..] == if HasPermanent(links) && link.permanent then links[1..] else links
  {
  }

  // A reload keeps the live permanent link, and takes from the answer all but live permanent links and that one.
  lemma ReloadedIs(links: Links, invites: Links, link: Link)
    requires HasPermanent(links)
    ensures var after := Reloaded(links, invites);
            && |after| > 0 && after[0] == links[0]
            && (link in after[1..] <==>
                  link in invites && link.url != links[0].url && !(link.permanent && !link.revoked))
  {
    WithoutMembers(WithoutUrl(invites, links[0].url), 0, link);
    WithoutMembers(invites, links[0].url, link);
  }

  lemma {:induction false} WithoutMembers(links: Links, url: nat, link: Link)
    ensures link in WithoutLive(links) <==> link in links && !(link.permanent && !link.revoked)
    ensures link in WithoutUrl(links, url) <==> link in links && link.url != url
    decreases |links|
  {
    if |links| > 0 {
      var front, last := links[..|links| - 1], links[|links| - 1];
      WithoutMembers(front, url, link);
      assert links == front + [last];
    }
  }

  // The permanent link comes first; a new one takes the place of the old one, the same one has its usage updated.
  lemma WithPermanentIs(links: Links, link: Link)
    ensures var after, had := WithPermanent(links, link), HasPermanent(links);
            && |after| > 0 && after[1..] == (if had then links[1..] else links)
            && (if had && links[0].url == link.url then after[0] == links[0].(usage := link.usage)
                else after[0] == link)
  {
  }

  // An edit's answer leaves the links of other urls, in their order.
  lemma EditedKeepsOthers(links: Links, url: nat, updated: Link)
    requires updated.url == url
    ensures WithoutUrl(Edited(links, url, updated), url) == WithoutUrl(links, url)
  {
    hide WithoutUrl, WithoutLive, IndexOf;
    var j := IndexOf(links, url);
    if j < |links| {
      var before, later := links[..j], links[j + 1..];
      assert links == before + [links[j]] + later;
      assert links[j := updated] == before + [updated] + later;
      assert links[j].url == url;
      RemovalsSplitIn3(before, [links[j]], later, url);
      RemovalsSplitIn3(before, [updated], later, url);
      RemovalsSplit(before, later, url);
      RemovalsOfOne(links[j], url);
      RemovalsOfOne(updated, url);
    }
  }

  // The link of its url is replaced, or is gone when this revoked it.
  lemma EditedIs(links: Links, i: nat, updated: Link)
    requires i < |links| && updated.url == links[i].url
    requires forall j :: 0 <= j < |links| && j != i ==> links[j].url != links[i].url
    ensures var after := Edited(links, links[i].url, updated);
            if updated.revoked && !links[i].revoked then after == links[..i] + links[i + 1..]
            else after == links[i := updated]
  {
  }

  // ----- exactly when each operation keeps the invariant -----

  lemma PrependKeeps(links: Links, stored: Stored, link: Link)
    requires SliceHolds(links, stored)
    ensures SliceHolds(Prepended(links, link), if link.permanent then TheLink(link.url) else stored)
  {
  }

  lemma SetPermanentKeeps(links: Links, stored: Stored, link: Link)
    requires SliceHolds(links, stored) && link.permanent
    ensures SliceHolds(WithPermanent(links, link),
                       if HasPermanent(links) && links[0].url == link.url then stored else TheLink(link.url))
  {
  }

  lemma ClearPermanentKeeps(links: Links, stored: Stored)
    requires SliceHolds(links, stored) && HasPermanent(links)
    ensures SliceHolds(links[1..], NoLink) && !HasPermanent(links[1..])
  {
  }

  predicate AtMostOneLive(links: Links) {
    forall i, j :: 0 <= i < j < |links| ==> !(Live(links[i]) && Live(links[j]))
  }

  /** A first answer keeps the invariant exactly when the server lists at most one live permanent link. */
  lemma ReloadKeeps(links: Links, stored: Stored, invites: Links)
    requires SliceHolds(links, stored)
    ensures var after := Reloaded(links, invites);
            (SliceHolds(after, if !HasPermanent(links) && HasPermanent(after) then TheLink(after[0].url) else stored)
             <==> HasPermanent(links) || AtMostOneLive(invites))
  {
    if !HasPermanent(links) {
      BroughtHolds(invites);
    }
  }

  lemma BroughtHolds(invites: Links)
    ensures var after := Brought(invites);
            ((forall i :: 1 <= i < |after| ==> !Live(after[i])) <==> AtMostOneLive(invites))
    ensures HasPermanent(Brought(invites)) <==> FirstLive(invites) < |invites|
  {
    FirstLiveFinds(invites);
    var k, after := FirstLive(invites), Brought(invites);
    hide Live, FirstLive;
    if k < |invites| {
      assert forall j :: k < j < |invites| ==> after[j] == invites[j];
      assert forall j :: 1 <= j <= k ==> after[j] == invites[j - 1];
      if AtMostOneLive(invites) {
        forall i | 1 <= i < |after| ensures !Live(after[i]) {
          assert i > k ==> !(Live(invites[k]) && Live(invites[i]));
        }
      } else {
        var i, j :| 0 <= i < j < |invites| && Live(invites[i]) && Live(invites[j]);
        assert i >= k && j > k && Live(after[j]);
      }
    }
  }

  // Nothing but the first link, stored under the url, is made live and permanent.
  predicate FaithfulUpdate(updated: Link, links: Links, stored: Stored) {
    Live(updated) ==>
      forall i :: 0 <= i < |links| && links[i].url == updated.url ==> i == 0 && stored == TheLink(updated.url)
  }

  // The same for the link that was edited.
  predicate FaithfulEdit(updated: Link, links: Links, url: nat, stored: Stored) {
    Live(updated) && IndexOf(links, url) < |links| ==> IndexOf(links, url) == 0 && stored == TheLink(updated.url)
  }

  /**
   An update from elsewhere keeps the invariant exactly when it makes no cached link live and permanent,
   but for the first one, already stored under that url.
   */
  lemma ExternalUpdateKeeps(links: Links, stored: Stored, updated: Link)
    requires SliceHolds(links, stored)
    ensures SliceHolds(Replaced(links, updated), stored) <==> FaithfulUpdate(updated, links, stored)
  {
  }

  /** The answer to an edit keeps it exactly under the same condition on the link that was edited. */
  lemma EditKeeps(links: Links, stored: Stored, url: nat, updated: Link)
    requires SliceHolds(links, stored)
    ensures SliceHolds(Edited(links, url, updated), stored) <==> FaithfulEdit(updated, links, url, stored)
  {
    var j, after := IndexOf(links, url), Edited(links, url, updated);
    if j < |links| && updated.revoked && !links[j].revoked {
      forall i | 0 <= i < |after| ensures after[i] == if i < j then links[i] else links[i + 1] {}
      assert forall i :: 1 <= i < |after| ==> !Live(after[i]);
      assert |after| > 0 ==> after[0] == if j == 0 then links[1] else links[0];
    } else if j < |links| {
      assert after == links[j := updated] && after[j] == updated;
      assert forall i :: 0 <= i < |after| && i != j ==> after[i] == links[i];
    }
  }

  /** It is enough that the server never renames a link and never makes one live and permanent that was not. */
  lemma FaithfulEditKeeps(links: Links, stored: Stored, url: nat, updated: Link)
    requires SliceHolds(links, stored) && updated.url == url
    requires Live(updated) ==> forall i :: 0 <= i < |links| && links[i].url == url ==> Live(links[i])
    ensures SliceHolds(Edited(links, url, updated), stored) && SliceHolds(Replaced(links, updated), stored)
  {
  }

  // ----- the protocol -----

  datatype Key = Key(peer: nat, url: nat)

  datatype Request =
    | Create(peer: nat)
    | Edit(key: Key)
    | Delete(key: Key)
    | FirstSlice(peer: nat)
    | Process(peer: nat, urlKnown: bool, approved: bool)

  type Slices = map<nat, Links>
  type Permanents = map<nat, Stored>
  type Callbacks = map<Key, seq<nat>>

  function StoredFor(stored: Permanents, peer: nat): Stored {
    if peer in stored then stored[peer] else NoLink
  }

  ghost predicate SlicesHold(slices: Slices, stored: Permanents) {
    forall p :: p in slices ==> SliceHolds(slices[p], StoredFor(stored, p))
  }

  // The requests, other than those for joins, that are owed: each once, under the id recorded for it.
  ghost predicate OwedHold(owedIds: map<Request, nat>, outstanding: map<nat, Request>) {
    && (forall r :: r in owedIds ==> !r.Process? && owedIds[r] in outstanding && outstanding[owedIds[r]] == r)
    && (forall id :: id in outstanding && !outstanding[id].Process? ==>
          outstanding[id] in owedIds && owedIds[outstanding[id]] == id)
  }

  lemma OwedGrow(owedIds: map<Request, nat>, outstanding: map<nat, Request>, r: Request, id: nat)
    requires OwedHold(owedIds, outstanding) && r !in owedIds && id !in outstanding
    ensures OwedHold(if r.Process? then owedIds else owedIds[r := id], outstanding[id := r])
  {
  }

  lemma OwedShrink(owedIds: map<Request, nat>, outstanding: map<nat, Request>, id: nat)
    requires OwedHold(owedIds, outstanding) && id in outstanding
    ensures var r := outstanding[id];
            OwedHold(if r.Process? then owedIds else owedIds - {r}, outstanding - {id})
  {
  }

  ghost predicate OwedOnce(outstanding: map<nat, Request>, r: Request) {
    exists id :: id in outstanding && outstanding[id] == r
                 && forall other :: other in outstanding && outstanding[other] == r ==> other == id
  }

  function SliceIn(slices: Slices, peer: nat): Links {
    if peer in slices then slices[peer] else []
  }

  lemma SliceOfPeer(slices: Slices, stored: Permanents, peer: nat)
    requires SlicesHold(slices, stored)
    ensures SliceHolds(SliceIn(slices, peer), StoredFor(stored, peer))
  {
  }

  lemma OneSliceAtATime(slices: Slices, stored: Permanents, peer: nat, links: Links, stored': Permanents)
    requires SlicesHold(slices, stored) && SliceHolds(links, StoredFor(stored', peer))
    requires forall p :: p != peer ==> StoredFor(stored', p) == StoredFor(stored, p)
    ensures SlicesHold(slices[peer := links], stored')
  {
    hide SliceHolds;
  }

  function EditedIn(slices: Slices, key: Key, link: Link): Slices {
    if key.peer in slices then slices[key.peer := Edited(slices[key.peer], key.url, link)] else slices
  }

  // The callbacks that wait under a key, and those with some more.
  function Of<K(==)>(callbacks: map<K, seq<nat>>, key: K): seq<nat> {
    if key in callbacks then callbacks[key] else []
  }

  function WithMore<K(==)>(callbacks: map<K, seq<nat>>, key: K, done: seq<nat>): map<K, seq<nat>> {
    callbacks[key := Of(callbacks, key) + done]
  }

  // Callbacks that wait stay, in their order, and the new ones come after those of their key.
  lemma WithMoreIs<K>(callbacks: map<K, seq<nat>>, key: K, done: seq<nat>)
    ensures var after := WithMore(callbacks, key, done);
            && after.Keys == callbacks.Keys + {key}
            && (forall k :: k in callbacks && k != key ==> after[k] == callbacks[k])
            && (if key in callbacks then after[key] == callbacks[key] + done else after[key] == done)
  {
  }

  class InviteLinks {
    var slices: Slices                 // `_firstSlices`
    var stored: Permanents             // what `editPermanentLink` stored on each peer
    var editCallbacks: Callbacks
    var deleteCallbacks: Callbacks
    var createCallbacks: map<nat, seq<nat>>
    var sliceRequests: set<nat>
    var lastId: nat
    var outstanding: map<nat, Request> // what the transport still owes
    var called: seq<nat>               // callbacks called, in order
    ghost var owedIds: map<Request, nat>
    ghost var faithful: bool           // no answer and no update so far broke a condition of the lemmas above

    ghost predicate Valid()
      reads this
    {
      && RequestsHold()
      && OwedHold(owedIds, outstanding)
      && (forall id :: id in outstanding ==> id <= lastId)
    }

    // What waits for the answer to the request.
    predicate IsWaited(r: Request)
      reads this
    {
      match r
      case Create(peer) => peer in createCallbacks
      case Edit(key) => key in editCallbacks
      case Delete(key) => key in deleteCallbacks
      case FirstSlice(peer) => peer in sliceRequests
      case Process(_, _, _) => false
    }

    ghost predicate RequestsHold()
      reads this
    {
      forall r :: r in owedIds <==> IsWaited(r)
    }

    // Callbacks and marks wait for exactly one owed request each.
    lemma WaitedIsOwedOnce(r: Request)
      requires Valid() && !r.Process?
      ensures IsWaited(r) <==> OwedOnce(outstanding, r)
    {
    }

    // What the cache promises as long as the server is faithful.
    ghost predicate CacheHolds()
      reads this
    {
      SlicesHold(slices, stored)
    }

    constructor ()
      ensures Valid() && CacheHolds() && faithful && slices == map[] && outstanding == map[] && called == []
    {
      slices, stored, editCallbacks, deleteCallbacks, createCallbacks := map[], map[], map[], map[], map[];
      sliceRequests, lastId, outstanding, called, owedIds, faithful := {}, 0, map[], [], map[], true;
    }

    function Slice(peer: nat): Links
      reads this
    {
      SliceIn(slices, peer)
    }

    method Send(r: Request) returns (id: nat)
      requires OwedHold(owedIds, outstanding) && r !in owedIds && forall id :: id in outstanding ==> id <= lastId
      modifies this`lastId, this`outstanding, this`owedIds
      ensures id == lastId == old(lastId) + 1 && outstanding == old(outstanding)[id := r]
      ensures OwedHold(owedIds, outstanding) && forall id :: id in outstanding ==> id <= lastId
      ensures owedIds == if r.Process? then old(owedIds) else old(owedIds)[r := id]
    {
      OwedGrow(owedIds, outstanding, r, lastId + 1);
      if !r.Process? { owedIds := owedIds[r := lastId + 1]; }
      lastId := lastId + 1;
      id := lastId;
      outstanding := outstanding[id := r];
    }

    // The request is answered.
    method Take(id: nat) returns (r: Request)
      requires OwedHold(owedIds, outstanding) && id in outstanding
      modifies this`outstanding, this`owedIds
      ensures r == old(outstanding)[id] && outstanding == old(outstanding) - {id}
      ensures OwedHold(owedIds, outstanding)
      ensures owedIds == if r.Process? then old(owedIds) else old(owedIds) - {r}
    {
      OwedShrink(owedIds, outstanding, id);
      r := outstanding[id];
      if !r.Process? { owedIds := owedIds - {r}; }
      outstanding := outstanding - {id};
    }

    // `prependMyToFirstSlice`.
    method PrependMyToFirstSlice(peer: nat, link: Link)
      requires Valid()
      modifies this`slices, this`stored
      ensures Valid() && (old(CacheHolds()) ==> CacheHolds())
      ensures slices == old(slices)[peer := Prepended(old(Slice(peer)), link)]
      ensures stored == if link.permanent then old(stored)[peer := TheLink(link.url)] else old(stored)
    {
      if CacheHolds() { PrependKeeps(Slice(peer), StoredFor(stored, peer), link); }
      var links := Slice(peer);
      var hadPermanent := HasPermanent(links);
      if link.permanent && hadPermanent {
        links := links[1..];
      }
      if hadPermanent && !link.permanent {
        links := links[..1] + [link] + links[1..];
      } else {
        links := [link] + links;
      }
      assert links == Prepended(Slice(peer), link);
      slices := slices[peer := links];
      if link.permanent {
        stored := stored[peer := TheLink(link.url)];
      }
    }

    // `create` and `revokePermanent` without a link.
    method PerformCreate(peer: nat, done: seq<nat>)
      requires Valid()
      modifies this`createCallbacks, this`lastId, this`outstanding, this`owedIds
      ensures Valid()
      ensures createCallbacks == WithMore(old(createCallbacks), peer, done)
      ensures outstanding == if peer in old(createCallbacks) then old(outstanding)
                             else old(outstanding)[old(lastId) + 1 := Create(peer)]
    {
      hide SlicesHold, OwedHold;
      assert !IsWaited(Create(peer)) ==> Create(peer) !in owedIds;
      if peer in createCallbacks {
        createCallbacks := createCallbacks[peer := createCallbacks[peer] + done];
        return;
      }
      createCallbacks := createCallbacks[peer := [] + done];
      var id := Send(Create(peer));
    }

    // The answer to a creation; an invite that is no link leaves the cache alone.
    method Created(id: nat, invite: seq<Link>)
      requires Valid() && id in outstanding && outstanding[id].Create?
      modifies this`slices, this`stored, this`createCallbacks, this`outstanding, this`called, this`owedIds
      ensures Valid() && outstanding == old(outstanding) - {id} && (old(CacheHolds()) ==> CacheHolds())
      ensures var peer := old(outstanding)[id].peer;
              && createCallbacks == old(createCallbacks) - {peer}
              && called == old(called) + (if |invite| > 0 then Of(old(createCallbacks), peer) else [])
              && (slices == if |invite| > 0 then old(slices)[peer := Prepended(old(Slice(peer)), invite[0])]
                            else old(slices))
              && (stored == if |invite| > 0 && invite[0].permanent then old(stored)[peer := TheLink(invite[0].url)]
                            else old(stored))
    {
      hide OwedHold;
      var peer := outstanding[id].peer;
      var r := Take(id);
      var callbacks := Of(createCallbacks, peer);
      createCallbacks := createCallbacks - {peer};
      if |invite| > 0 {
        PrependMyToFirstSlice(peer, invite[0]);
        called := called + callbacks;
      }
    }

    // `performEdit`.
    method PerformEdit(key: Key, done: seq<nat>)
      requires Valid()
      modifies this`editCallbacks, this`lastId, this`outstanding, this`owedIds
      ensures Valid()
      ensures if key in deleteCallbacks then editCallbacks == old(editCallbacks) && outstanding == old(outstanding)
              else editCallbacks == WithMore(old(editCallbacks), key, done)
                   && outstanding == if key in old(editCallbacks) then old(outstanding)
                                     else old(outstanding)[old(lastId) + 1 := Edit(key)]
    {
      hide SlicesHold, OwedHold;
      if key in deleteCallbacks {
        return;
      } else if key in editCallbacks {
        editCallbacks := editCallbacks[key := editCallbacks[key] + done];
        assert editCallbacks.Keys == old(editCallbacks.Keys);
        return;
      }
      assert !IsWaited(Edit(key)) && Edit(key) !in owedIds;
      editCallbacks := editCallbacks[key := [] + done];
      assert editCallbacks.Keys == old(editCallbacks.Keys) + {key};
      var id := Send(Edit(key));
    }

    ghost predicate IsFaithfulEdit(key: Key, invite: seq<Link>)
      reads this
    {
      |invite| > 0 ==> FaithfulEdit(invite[0], Slice(key.peer), key.url, StoredFor(stored, key.peer))
    }

    // The answer to an edit: its callbacks are there to be dereferenced, whatever the server says.
    method EditAnswered(id: nat, invite: seq<Link>, newInvite: seq<Link>, mine: bool)
      requires Valid() && id in outstanding && outstanding[id].Edit?
      modifies this`slices, this`stored, this`editCallbacks, this`outstanding, this`called, this`owedIds
      ensures Valid() && outstanding == old(outstanding) - {id}
      ensures var key := old(outstanding)[id].key;
              && key in old(editCallbacks) && editCallbacks == old(editCallbacks) - {key}
              && called == old(called) + (if |invite| > 0 then old(editCallbacks)[key] else [])
      ensures old(CacheHolds()) && old(IsFaithfulEdit(outstanding[id].key, invite)) ==> CacheHolds()
      ensures |invite| == 0 ==> slices == old(slices) && stored == old(stored)
      ensures |invite| > 0 ==>
                var key := old(outstanding)[id].key;
                var edited := EditedIn(old(slices), key, invite[0]);
                if |newInvite| > 0 && mine then
                  && slices == edited[key.peer := Prepended(SliceIn(edited, key.peer), newInvite[0])]
                  && stored == if newInvite[0].permanent then old(stored)[key.peer := TheLink(newInvite[0].url)]
                               else old(stored)
                else slices == edited && stored == old(stored)
    {
      hide SlicesHold, FaithfulEdit;
      var key := outstanding[id].key;
      assert IsWaited(outstanding[id]) by { WaitedIsOwedOnce(outstanding[id]); }
      var callbacks := editCallbacks[key];
      var r := Take(id);
      editCallbacks := editCallbacks - {key};
      if |invite| == 0 {
        return;
      }
      ApplyEdit(key, invite[0]);
      called := called + callbacks;
      if |newInvite| > 0 && mine {
        PrependMyToFirstSlice(key.peer, newInvite[0]);
      }
    }

    method ApplyEdit(key: Key, link: Link)
      requires Valid()
      modifies this`slices
      ensures Valid()
      ensures old(CacheHolds()) && old(IsFaithfulEdit(key, [link])) ==> CacheHolds()
      ensures slices == EditedIn(old(slices), key, link)
    {
      hide OwedHold, SlicesHold, SliceHolds, FaithfulEdit;
      if key.peer in slices {
        ghost var was := slices[key.peer];
        var links := slices[key.peer];
        var j := 0;
        while j < |links| && links[j].url != key.url
          invariant j <= IndexOf(links, key.url)
        {
          j := j + 1;
        }
        if j < |links| {
          if link.revoked && !links[j].revoked {
            links := links[..j] + links[j + 1..];
          } else {
            links := links[j := link];
          }
        }
        assert links == Edited(was, key.url, link);
        if CacheHolds() && IsFaithfulEdit(key, [link]) {
          SliceOfPeer(slices, stored, key.peer);
          EditKeeps(was, StoredFor(stored, key.peer), key.url, link);
          OneSliceAtATime(slices, stored, key.peer, links, stored);
        }
        slices := slices[key.peer := links];
      }
    }

    method EditFailed(id: nat)
      requires Valid() && id in outstanding && outstanding[id].Edit?
      modifies this`editCallbacks, this`outstanding, this`owedIds
      ensures Valid() && outstanding == old(outstanding) - {id}
      ensures editCallbacks == old(editCallbacks) - {old(outstanding)[id].key}
    {
      hide OwedHold;
      var key := outstanding[id].key;
      var r := Take(id);
      editCallbacks := editCallbacks - {key};
    }

    // `destroy`.
    method Destroy(key: Key, done: seq<nat>)
      requires Valid()
      modifies this`deleteCallbacks, this`lastId, this`outstanding, this`owedIds
      ensures Valid() && deleteCallbacks == WithMore(old(deleteCallbacks), key, done)
      ensures outstanding == if key in old(deleteCallbacks) then old(outstanding)
                             else old(outstanding)[old(lastId) + 1 := Delete(key)]
    {
      hide SlicesHold, OwedHold;
      assert !IsWaited(Delete(key)) ==> Delete(key) !in owedIds;
      if key in deleteCallbacks {
        deleteCallbacks := deleteCallbacks[key := deleteCallbacks[key] + done];
        return;
      }
      deleteCallbacks := deleteCallbacks[key := [] + done];
      var id := Send(Delete(key));
    }

    method Destroyed(id: nat, ok: bool)
      requires Valid() && id in outstanding && outstanding[id].Delete?
      modifies this`deleteCallbacks, this`outstanding, this`called, this`owedIds
      ensures Valid() && outstanding == old(outstanding) - {id}
      ensures var key := old(outstanding)[id].key;
              && deleteCallbacks == old(deleteCallbacks) - {key}
              && called == old(called) + (if ok then Of(old(deleteCallbacks), key) else [])
    {
      hide OwedHold;
      var key := outstanding[id].key;
      var r := Take(id);
      if ok && key in deleteCallbacks {
        called := called + deleteCallbacks[key];
      }
      deleteCallbacks := deleteCallbacks - {key};
    }

    // `requestMyLinks`.
    method RequestMyLinks(peer: nat)
      requires Valid()
      modifies this`sliceRequests, this`lastId, this`outstanding, this`owedIds
      ensures Valid() && sliceRequests == old(sliceRequests) + {peer}
      ensures outstanding == if peer in old(sliceRequests) then old(outstanding)
                             else old(outstanding)[old(lastId) + 1 := FirstSlice(peer)]
    {
      hide SlicesHold, OwedHold;
      assert !IsWaited(FirstSlice(peer)) ==> FirstSlice(peer) !in owedIds;
      if peer in sliceRequests {
        return;
      }
      var id := Send(FirstSlice(peer));
      sliceRequests := sliceRequests + {peer};
    }

    // The answer with the first links. (A failure only forgets the request.)
    method MyLinksReceived(id: nat, invites: Links)
      requires Valid() && id in outstanding && outstanding[id].FirstSlice?
      modifies this`slices, this`stored, this`sliceRequests, this`outstanding, this`owedIds
      ensures Valid() && outstanding == old(outstanding) - {id}
      ensures sliceRequests == old(sliceRequests) - {old(outstanding)[id].peer}
      ensures old(CacheHolds()) && (HasPermanent(old(Slice(outstanding[id].peer))) || AtMostOneLive(invites)) ==>
                CacheHolds()
      ensures var peer := old(outstanding)[id].peer;
              && slices == old(slices)[peer := Reloaded(old(Slice(peer)), invites)]
              && stored == if !HasPermanent(old(Slice(peer))) && HasPermanent(slices[peer])
                           then old(stored)[peer := TheLink(slices[peer][0].url)] else old(stored)
    {
      hide OwedHold, SlicesHold, AtMostOneLive, HasPermanent, Reloaded;
      var peer := outstanding[id].peer;
      var r := Take(id);
      sliceRequests := sliceRequests - {peer};
      StoreMyLinks(peer, invites);
    }

    method StoreMyLinks(peer: nat, invites: Links)
      requires Valid()
      modifies this`slices, this`stored
      ensures Valid()
      ensures old(CacheHolds()) && (HasPermanent(old(Slice(peer))) || AtMostOneLive(invites)) ==> CacheHolds()
      ensures slices == old(slices)[peer := Reloaded(old(Slice(peer)), invites)]
      ensures stored == if !HasPermanent(old(Slice(peer))) && HasPermanent(slices[peer])
                        then old(stored)[peer := TheLink(slices[peer][0].url)] else old(stored)
    {
      var existing := Slice(peer);
      hide OwedHold, SliceHolds, SlicesHold, AtMostOneLive, HasPermanent, Reloaded;
      var slice := Reload(existing, invites);
      if !HasPermanent(existing) && HasPermanent(slice) {
        FirstIsLive(slice);
        stored := stored[peer := TheLink(slice[0].url)];
      }
      if old(CacheHolds()) && (HasPermanent(existing) || AtMostOneLive(invites)) {
        SliceOfPeer(slices, old(stored), peer);
        ReloadKeeps(existing, StoredFor(old(stored), peer), invites);
        OneSliceAtATime(slices, old(stored), peer, slice, stored);
      }
      slices := slices[peer := slice];
    }

    lemma FirstIsLive(links: Links)
      requires HasPermanent(links)
      ensures |links| > 0
    {
    }

    method MyLinksFailed(id: nat)
      requires Valid() && id in outstanding && outstanding[id].FirstSlice?
      modifies this`sliceRequests, this`outstanding, this`owedIds
      ensures Valid() && outstanding == old(outstanding) - {id}
      ensures sliceRequests == old(sliceRequests) - {old(outstanding)[id].peer}
    {
      hide OwedHold;
      sliceRequests := sliceRequests - {outstanding[id].peer};
      var r := Take(id);
    }

    // A join request approved without a known link prunes the cache.
    method Processed(id: nat)
      requires Valid() && id in outstanding && outstanding[id].Process?
      modifies this`slices, this`outstanding, this`owedIds
      ensures Valid() && outstanding == old(outstanding) - {id} && (old(CacheHolds()) ==> CacheHolds())
      ensures var r := old(outstanding)[id];
              slices == if r.approved && !r.urlKnown then old(slices) - {r.peer} else old(slices)
    {
      hide OwedHold;
      var r := Take(id);
      if !r.urlKnown && r.approved {
        slices := slices - {r.peer};
      }
    }

    method ProcessRequest(peer: nat, urlKnown: bool, approved: bool)
      requires Valid()
      modifies this`lastId, this`outstanding, this`owedIds
      ensures Valid() && outstanding == old(outstanding)[lastId := Process(peer, urlKnown, approved)]
    {
      hide SlicesHold, OwedHold;
      assert !IsWaited(Process(peer, urlKnown, approved));
      var id := Send(Process(peer, urlKnown, approved));
    }

    method ApplyExternalUpdate(peer: nat, updated: Link)
      requires Valid()
      modifies this`slices
      ensures Valid()
      ensures old(CacheHolds()) && FaithfulUpdate(updated, old(Slice(peer)), StoredFor(stored, peer)) ==> CacheHolds()
      ensures slices == if peer in old(slices) then old(slices)[peer := Replaced(old(slices)[peer], updated)]
                        else old(slices)
    {
      hide OwedHold, SlicesHold, SliceHolds, FaithfulUpdate;
      if peer in slices {
        ghost var was := slices[peer];
        var links := slices[peer];
        for i := 0 to |links|
          invariant |links| == |was|
          invariant forall j :: 0 <= j < |links| ==> links[j] == if j < i then Replaced(was, updated)[j] else was[j]
        {
          if links[i].url == updated.url {
            links := links[i := updated];
          }
        }
        assert links == Replaced(was, updated);
        if CacheHolds() && FaithfulUpdate(updated, was, StoredFor(stored, peer)) {
          SliceOfPeer(slices, stored, peer);
          ExternalUpdateKeeps(was, StoredFor(stored, peer), updated);
          OneSliceAtATime(slices, stored, peer, links, stored);
        }
        slices := slices[peer := links];
      }
    }

    method SetMyPermanent(peer: nat, link: Link)
      requires Valid()
      modifies this`slices, this`stored
      ensures Valid() && (old(CacheHolds()) ==> CacheHolds())
      ensures !link.permanent ==> slices == old(slices) && stored == old(stored)
      ensures link.permanent ==> slices == old(slices)[peer := WithPermanent(old(Slice(peer)), link)]
      ensures link.permanent ==>
                stored == if HasPermanent(old(Slice(peer))) && old(Slice(peer))[0].url == link.url then old(stored)
                          else old(stored)[peer := TheLink(link.url)]
    {
      if !link.permanent {
        return;
      }
      if CacheHolds() { SetPermanentKeeps(Slice(peer), StoredFor(stored, peer), link); }
      var links := Slice(peer);
      if HasPermanent(links) {
        if links[0].url == link.url {
          if links[0].usage != link.usage {
            links := links[0 := links[0].(usage := link.usage)];
          }
          assert links == WithPermanent(Slice(peer), link);
          slices := slices[peer := links];
          return;
        }
        links := links[1..];
      }
      slices := slices[peer := [link] + links];
      stored := stored[peer := TheLink(link.url)];
    }

    method ClearMyPermanent(peer: nat)
      requires Valid()
      modifies this`slices, this`stored
      ensures Valid() && (old(CacheHolds()) ==> CacheHolds())
      ensures if HasPermanent(old(Slice(peer))) then
                slices == old(slices)[peer := old(Slice(peer))[1..]] && stored == old(stored)[peer := NoLink]
              else slices == old(slices) && stored == old(stored)
    {
      if peer !in slices || !HasPermanent(slices[peer]) {
        return;
      }
      if CacheHolds() { ClearPermanentKeeps(slices[peer], StoredFor(stored, peer)); }
      slices := slices[peer := slices[peer][1..]];
      stored := stored[peer := NoLink];
    }

    // What the lemmas above ask of an answer or an update.
    ghost predicate IsFaithful(e: Event)
      reads this
    {
      match e
      case External(peer, link) => FaithfulUpdate(link, Slice(peer), StoredFor(stored, peer))
      case Answer(id, true, links, _) =>
        id in outstanding ==>
          && (outstanding[id].Edit? ==> IsFaithfulEdit(outstanding[id].key, links))
          && (outstanding[id].FirstSlice? ==> HasPermanent(Slice(outstanding[id].peer)) || AtMostOneLive(links))
      case _ => true
    }

    method Happen(e: Event)
      requires Valid() && (faithful ==> CacheHolds())
      modifies this
      ensures Valid() && (faithful ==> CacheHolds())
      ensures faithful == (old(faithful) && old(IsFaithful(e)))
    {
      hide SlicesHold, OwedHold, FaithfulUpdate, FaithfulEdit, IsFaithfulEdit, AtMostOneLive;
      faithful := faithful && IsFaithful(e);
      match e {
        case UserCreate(peer, done) => PerformCreate(peer, done);
        case UserEdit(key, done) => PerformEdit(key, done);
        case UserDestroy(key, done) => Destroy(key, done);
        case UserRequestLinks(peer) => RequestMyLinks(peer);
        case UserProcess(peer, urlKnown, approved) => ProcessRequest(peer, urlKnown, approved);
        case SetPermanent(peer, link) => SetMyPermanent(peer, link);
        case ClearPermanent(peer) => ClearMyPermanent(peer);
        case External(peer, link) => ApplyExternalUpdate(peer, link);
        case Answer(id, ok, links, mine) =>
          if id in outstanding { Answered(id, ok, links, mine); }
      }
    }

    // Any answer at all.
    method Answered(id: nat, ok: bool, links: Links, mine: bool)
      requires Valid() && id in outstanding
      modifies this`slices, this`stored, this`createCallbacks, this`editCallbacks, this`deleteCallbacks,
               this`sliceRequests, this`outstanding, this`called, this`owedIds
      ensures Valid() && outstanding == old(outstanding) - {id}
      ensures old(CacheHolds()) && old(IsFaithful(Answer(id, ok, links, mine))) ==> CacheHolds()
    {
      hide SlicesHold, OwedHold, FaithfulEdit, AtMostOneLive;
      match outstanding[id] {
        case Create(_) => Created(id, if ok then links else []);
        case Edit(key) =>
          if ok {
            EditAnswered(id, links, if |links| > 1 then links[1..] else [], mine);
          } else {
            EditFailed(id);
          }
        case Delete(_) => Destroyed(id, ok);
        case FirstSlice(_) =>
          if ok {
            MyLinksReceived(id, links);
          } else {
            MyLinksFailed(id);
          }
        case Process(_, _, _) => Processed(id);
      }
    }
  }

  datatype Event =
    | UserCreate(peer: nat, done: seq<nat>)
    | UserEdit(key: Key, done: seq<nat>)
    | UserDestroy(key: Key, done: seq<nat>)
    | UserRequestLinks(peer: nat)
    | UserProcess(peer: nat, urlKnown: bool, approved: bool)
    | SetPermanent(peer: nat, link: Link)
    | ClearPermanent(peer: nat)
    | External(peer: nat, link: Link)
    | Answer(id: nat, ok: bool, links: Links, mine: bool)

  /** After every sequence of operations and answers each entry that waits, for a creation, an edit, a deletion or
      a list, waits for exactly one owed request, and each of these is waited for; if all answers and updates were
      faithful, the list of every peer holds too. */
  method AnyRun(events: seq<Event>) returns (x: InviteLinks)
    ensures x.Valid()
    ensures forall r: Request :: !r.Process? ==> (x.IsWaited(r) <==> OwedOnce(x.outstanding, r))
    ensures x.faithful ==> forall p :: p in x.slices ==> SliceHolds(x.slices[p], StoredFor(x.stored, p))
  {
    x := new InviteLinks();
    for i := 0 to |events|
      invariant x.Valid() && (x.faithful ==> x.CacheHolds()) && fresh(x)
    {
      x.Happen(events[i]);
    }
    forall r: Request | !r.Process? ensures x.IsWaited(r) <==> OwedOnce(x.outstanding, r) { x.WaitedIsOwedOnce(r); }
  }
}
