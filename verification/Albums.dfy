/**
 Albums being sent: items are uploaded or cancelled in any order, and the album goes out when every
 item that remains has its media.
 */
module Albums {

  datatype Media = NoMedia | Media(id: nat)

  datatype Item = Item(message: nat, media: Media)

  datatype Album = Album(items: seq<Item>, sent: bool, paid: bool)

  // One request that sent an album: the items in it, and what had been cancelled by then.
  datatype Sending = Sending(group: nat, items: seq<Item>, cancelled: set<nat>, paid: bool)

  // An album dropped unsent: what had been cancelled, and which messages were loaded.
  datatype Dropping = Dropping(cancelled: set<nat>, loaded: set<nat>)

  // What was put into the album when it was created, and what was cancelled and uploaded since.
  datatype Origin = Origin(messages: seq<nat>, cancelled: set<nat>, uploaded: set<nat>)

  type AlbumMap = map<nat, Album>
  type Origins = map<nat, Origin>

  // ----- albums as lists of items -----

  predicate Ready(items: seq<Item>) {
    forall i :: 0 <= i < |items| ==> items[i].media.Media?
  }

  function Without(messages: seq<nat>, cancelled: set<nat>): seq<nat> {
    if |messages| == 0 then []
    else
      var front, last := Without(messages[..|messages| - 1], cancelled), messages[|messages| - 1];
      if last in cancelled then front else front + [last]
  }

  function MessagesOf(items: seq<Item>): (s: seq<nat>)
    ensures |s| == |items|
  {
    seq(|items|, i requires 0 <= i < |items| => items[i].message)
  }

  predicate Distinct(s: seq<nat>) {
    forall i, j :: 0 <= i < j < |s| ==> s[i] != s[j]
  }

  // The remaining items are the original ones without the cancelled, in their order.
  ghost predicate Remain(items: seq<Item>, origin: Origin) {
    MessagesOf(items) == Without(origin.messages, origin.cancelled)
  }

  lemma {:induction false} WithoutMembers(messages: seq<nat>, cancelled: set<nat>)
    ensures forall m :: m in Without(messages, cancelled) <==> m in messages && m !in cancelled
    decreases |messages|
  {
    if |messages| > 0 {
      var front, last := messages[..|messages| - 1], messages[|messages| - 1];
      WithoutMembers(front, cancelled);
      assert messages == front + [last];
    }
  }

  lemma {:induction false} WithoutNothing(messages: seq<nat>)
    ensures Without(messages, {}) == messages
    decreases |messages|
  {
    if |messages| > 0 { WithoutNothing(messages[..|messages| - 1]); }
  }

  function Erase(s: seq<nat>, k: nat): seq<nat>
    requires k < |s|
  {
    s[..k] + s[k + 1..]
  }

  // Erasing one of the remaining messages is cancelling it.
  lemma {:induction false} EraseCancels(messages: seq<nat>, cancelled: set<nat>, k: nat)
    requires Distinct(messages) && k < |Without(messages, cancelled)|
    ensures var left := Without(messages, cancelled);
            Erase(left, k) == Without(messages, cancelled + {left[k]})
    decreases |messages|
  {
    var front, last := messages[..|messages| - 1], messages[|messages| - 1];
    var before := Without(front, cancelled);
    if k < |before| {
      EraseCancels(front, cancelled, k);
      WithoutMembers(front, cancelled);
      assert before[k] in front;
      EraseBefore(front, last, cancelled, k);
    } else {
      EraseLast(front, last, cancelled);
    }
    assert messages == front + [last];
  }

  // One of the front, where that has been shown.
  lemma {:induction false} EraseBefore(front: seq<nat>, last: nat, cancelled: set<nat>, k: nat)
    requires Distinct(front + [last]) && k < |Without(front, cancelled)| && Without(front, cancelled)[k] in front
    requires Erase(Without(front, cancelled), k) == Without(front, cancelled + {Without(front, cancelled)[k]})
    ensures var left := Without(front + [last], cancelled);
            k < |left| && Erase(left, k) == Without(front + [last], cancelled + {left[k]})
  {
    var before, left := Without(front, cancelled), Without(front + [last], cancelled);
    LastIsNew(front, last);
    assert (front + [last])[..|front|] == front;
    assert left[k] == before[k] != last;
    if last !in cancelled {
      assert Erase(left, k) == Erase(before, k) + [last];
    }
  }

  lemma {:induction false} EraseLast(front: seq<nat>, last: nat, cancelled: set<nat>)
    requires Distinct(front + [last]) && last !in cancelled
    ensures var before, left := Without(front, cancelled), Without(front + [last], cancelled);
            left == before + [last] && Erase(left, |before|) == Without(front + [last], cancelled + {last})
  {
    LastIsNew(front, last);
    assert (front + [last])[..|front|] == front;
    SameWithout(front, cancelled, last);
  }

  lemma LastIsNew(front: seq<nat>, last: nat)
    requires Distinct(front + [last])
    ensures last !in front
  {
    forall i | 0 <= i < |front| ensures front[i] != last {
      assert (front + [last])[i] == front[i] && (front + [last])[|front|] == last;
    }
  }

  lemma {:induction false} SameWithout(messages: seq<nat>, cancelled: set<nat>, x: nat)
    requires x !in messages
    ensures Without(messages, cancelled + {x}) == Without(messages, cancelled)
    decreases |messages|
  {
    if |messages| > 0 {
      assert messages[|messages| - 1] in messages;
      SameWithout(messages[..|messages| - 1], cancelled, x);
    }
  }

  // `ranges::find` by message.
  method FindItem(items: seq<Item>, message: nat) returns (k: nat)
    ensures k <= |items| && (k < |items| ==> items[k].message == message)
    ensures forall j :: 0 <= j < k ==> items[j].message != message
  {
    k := 0;
    while k < |items| && items[k].message != message
      invariant k <= |items| && forall j :: 0 <= j < k ==> items[j].message != message
    {
      k := k + 1;
    }
  }

  // The loop of `sendAlbumIfReady`: whether all media are there, and an item whose message is loaded.
  method CheckReady(items: seq<Item>, loaded: set<nat>) returns (ready: bool, sample: bool)
    ensures ready <==> Ready(items)
    ensures ready ==> (sample <==> exists i :: 0 <= i < |items| && items[i].message in loaded)
  {
    ready, sample := true, false;
    for i := 0 to |items|
      invariant ready && Ready(items[..i])
      invariant sample <==> exists j :: 0 <= j < i && items[j].message in loaded
    {
      if items[i].media.NoMedia? {
        return false, false;
      }
      if !sample {
        sample := items[i].message in loaded;
      }
    }
  }

  // ----- the protocol -----

  // Exactly the uploaded messages have their media.
  ghost predicate MediaOf(items: seq<Item>, o: Origin) {
    forall i :: 0 <= i < |items| ==> (items[i].media.Media? <==> items[i].message in o.uploaded)
  }

  // Nothing of the album is still being uploaded.
  ghost predicate AllDone(o: Origin) {
    forall m :: m in o.messages ==> m in o.cancelled || m in o.uploaded
  }

  // An album has what remains of it. One that is not sent has an item without media, and goes out when there is
  // none; one that is sent or gone has nothing left to upload, and never goes out again.
  ghost predicate AlbumHolds(g: nat, albums: AlbumMap, origins: Origins, log: seq<Sending>) {
    && (g in albums ==>
          && g in origins && Distinct(origins[g].messages) && Remain(albums[g].items, origins[g])
          && (!albums[g].sent ==>
                !Ready(albums[g].items) && MediaOf(albums[g].items, origins[g]) && NotLogged(g, log)))
    && (g in origins && (g in albums ==> albums[g].sent) ==> AllDone(origins[g]))
  }

  lemma ReadyIsDone(items: seq<Item>, o: Origin)
    requires Remain(items, o) && MediaOf(items, o) && Ready(items)
    ensures AllDone(o)
  {
    forall m | m in o.messages && m !in o.cancelled ensures m in o.uploaded {
      WithoutMembers(o.messages, o.cancelled);
      assert m in MessagesOf(items);
    }
  }

  lemma {:induction false} WithoutDistinct(messages: seq<nat>, cancelled: set<nat>)
    requires Distinct(messages)
    ensures Distinct(Without(messages, cancelled))
    decreases |messages|
  {
    if |messages| > 0 {
      var front := messages[..|messages| - 1];
      WithoutDistinct(front, cancelled);
      WithoutMembers(front, cancelled);
      assert forall i :: 0 <= i < |front| ==> front[i] == messages[i];
    }
  }

  lemma FillKeeps(items: seq<Item>, o: Origin, k: nat, media: nat)
    requires Distinct(o.messages) && Remain(items, o) && MediaOf(items, o) && k < |items|
    ensures var m := items[k].message;
            var o' := o.(uploaded := o.uploaded + {m});
            Remain(items[k := Item(m, Media(media))], o') && MediaOf(items[k := Item(m, Media(media))], o')
  {
    var after := items[k := Item(items[k].message, Media(media))];
    WithoutDistinct(o.messages, o.cancelled);
    assert MessagesOf(after) == MessagesOf(items);
    forall i | 0 <= i < |items| && i != k ensures items[i].message != items[k].message {
      assert MessagesOf(items)[i] != MessagesOf(items)[k];
    }
  }

  lemma RemoveKeeps(items: seq<Item>, o: Origin, k: nat)
    requires Distinct(o.messages) && Remain(items, o) && k < |items|
    ensures var after, o' := items[..k] + items[k + 1..], o.(cancelled := o.cancelled + {items[k].message});
            Remain(after, o') && (MediaOf(items, o) ==> MediaOf(after, o'))
  {
    assert MessagesOf(items[..k] + items[k + 1..]) == Erase(MessagesOf(items), k);
    EraseCancels(o.messages, o.cancelled, k);
  }

  // An item neither cancelled nor uploaded has its album, with a place for its media.
  lemma WaitingIsThere(g: nat, albums: AlbumMap, origins: Origins, log: seq<Sending>, message: nat)
    requires AlbumHolds(g, albums, origins, log) && g in origins && IsWaiting(origins[g], message)
    ensures g in albums && !albums[g].sent
    ensures message in MessagesOf(albums[g].items)
    ensures forall i :: 0 <= i < |albums[g].items| && albums[g].items[i].message == message ==>
              albums[g].items[i].media.NoMedia?
  {
    WithoutMembers(origins[g].messages, origins[g].cancelled);
  }

  // The same for one not cancelled, while its album is there.
  lemma UncancelledIsThere(g: nat, albums: AlbumMap, origins: Origins, log: seq<Sending>, message: nat)
    requires AlbumHolds(g, albums, origins, log) && g in albums && g in origins
    requires message in origins[g].messages && message !in origins[g].cancelled
    ensures message in MessagesOf(albums[g].items)
  {
    WithoutMembers(origins[g].messages, origins[g].cancelled);
  }

  predicate IsWaiting(o: Origin, message: nat) {
    message in o.messages && message !in o.cancelled && message !in o.uploaded
  }

  ghost predicate NotLogged(g: nat, log: seq<Sending>) {
    forall i :: 0 <= i < |log| ==> log[i].group != g
  }

  function SendingOf(g: nat, a: Album, o: Origin): Sending {
    Sending(g, a.items, o.cancelled, a.paid)
  }

  // Every album is still waiting, or was sent, or was dropped, and that only when no message that remained was
  // loaded. One that was sent is kept until it is answered, but for a single item without a price.
  ghost predicate Settled(g: nat, albums: AlbumMap, origins: Origins, log: seq<Sending>, dropped: map<nat, Dropping>,
                          answered: set<nat>) {
    && (g in dropped ==>
          && g in origins && g !in albums && NotLogged(g, log)
          && forall m :: m in origins[g].messages && m in dropped[g].loaded ==> m in dropped[g].cancelled)
    && (g in origins && g !in dropped && NotLogged(g, log) ==> g in albums && !albums[g].sent)
    && (g in answered || g in albums ==> g in origins) && (g in answered ==> !NotLogged(g, log))
    && (forall k :: 0 <= k < |log| && log[k].group == g ==>
          if |log[k].items| == 1 && !log[k].paid then g !in albums
          else if g in answered then g !in albums
          else g in albums && albums[g].sent)
  }

  lemma OneSettles(g: nat, albums: AlbumMap, albums': AlbumMap, origins: Origins, log: seq<Sending>,
                   log': seq<Sending>, dropped: map<nat, Dropping>, dropped': map<nat, Dropping>, answered: set<nat>)
    requires forall h :: h != g ==> Settled(h, albums, origins, log, dropped, answered)
    requires forall h :: h != g ==> (h in albums <==> h in albums') && (h in albums ==> albums[h] == albums'[h])
    requires forall h :: h != g ==> (h in dropped <==> h in dropped') && (h in dropped ==> dropped[h] == dropped'[h])
    requires log' == log || (|log'| == |log| + 1 && log'[..|log|] == log && log'[|log|].group == g)
    requires Settled(g, albums', origins, log', dropped', answered)
    ensures forall h :: Settled(h, albums', origins, log', dropped', answered)
  {
    forall h ensures Settled(h, albums', origins, log', dropped', answered) {
      if h != g {
        assert Settled(h, albums, origins, log, dropped, answered);
        assert forall k :: 0 <= k < |log| ==> log'[k] == log[k];
      }
    }
  }

  // Sending or dropping an album settles it.
  lemma SendingSettles(g: nat, albums: AlbumMap, origins: Origins, log: seq<Sending>, dropped: map<nat, Dropping>,
                       answered: set<nat>, loaded: set<nat>)
    requires AlmostHolds(g, albums, origins, log) && !albums[g].sent && g !in dropped && g !in answered
    ensures var a := albums[g];
            var after, log' := Checked(albums, g, a, loaded), log + [SendingOf(g, a, origins[g])];
            if Sends(a, loaded) then Settled(g, after, origins, log', dropped, answered)
            else if Ready(a.items) then
              Settled(g, after, origins, log, dropped[g := Dropping(origins[g].cancelled, loaded)], answered)
            else Settled(g, after, origins, log, dropped, answered)
  {
    var a := albums[g];
    WithoutMembers(origins[g].messages, origins[g].cancelled);
    assert forall m :: m in origins[g].messages && m !in origins[g].cancelled ==> m in MessagesOf(a.items);
    var more := log + [SendingOf(g, a, origins[g])];
    assert more[|log|].group == g && forall k :: 0 <= k < |log| ==> more[k] == log[k];
  }

  // So far the album is neither dropped nor answered.
  ghost predicate NotSettled(g: nat, albums: AlbumMap, origins: Origins, log: seq<Sending>,
                             dropped: map<nat, Dropping>, answered: set<nat>) {
    && g in albums && g !in dropped && g !in answered
    && (albums[g].sent ==> Settled(g, albums, origins, log, dropped, answered))
    && forall h :: h != g ==> Settled(h, albums, origins, log, dropped, answered)
  }

  // A change of its items or its history keeps it so.
  lemma ChangeUnsettles(g: nat, albums: AlbumMap, origins: Origins, log: seq<Sending>, dropped: map<nat, Dropping>,
                        answered: set<nat>, a: Album, o: Origin)
    requires forall h :: Settled(h, albums, origins, log, dropped, answered)
    requires g in albums && g in origins && a.sent == albums[g].sent && o.messages == origins[g].messages
    ensures NotSettled(g, albums[g := a], origins[g := o], log, dropped, answered)
  {
    assert Settled(g, albums, origins, log, dropped, answered);
    var albums', origins' := albums[g := a], origins[g := o];
    forall h | h != g ensures Settled(h, albums', origins', log, dropped, answered) {
      assert Settled(h, albums, origins, log, dropped, answered);
    }
  }

  // Each album was sent at most once, with media everywhere, as the items that remained, in order.
  ghost predicate LogHolds(log: seq<Sending>, origins: Origins) {
    && (forall i :: 0 <= i < |log| ==>
          && log[i].group in origins
          && log[i].items != [] && Ready(log[i].items)
          && MessagesOf(log[i].items) == Without(origins[log[i].group].messages, log[i].cancelled)
          && log[i].cancelled <= origins[log[i].group].cancelled)
    && (forall i, j :: 0 <= i < j < |log| ==> log[i].group != log[j].group)
  }

  class Sender {
    var albums: AlbumMap       // `_sendingAlbums`
    var log: seq<Sending>
    var origins: Origins       // the history of each album
    ghost var dropped: map<nat, Dropping>
    ghost var answered: set<nat>

    ghost predicate Valid()
      reads this
    {
      && LogHolds(log, origins)
      && (forall g :: AlbumHolds(g, albums, origins, log))
      && AllSettled()
    }

    ghost predicate AllSettled()
      reads this
    {
      forall g :: Settled(g, albums, origins, log, dropped, answered)
    }

    constructor ()
      ensures Valid() && albums == map[] && log == []
    {
      albums, log, origins, dropped, answered := map[], [], map[], map[], {};
    }

    // `sendFiles`: a new album of messages to upload, under a fresh random group id.
    method Start(g: nat, messages: seq<nat>, paid: bool)
      requires Valid() && g !in origins && Distinct(messages) && |messages| > 0
      modifies this
      ensures Valid() && log == old(log)
      ensures albums == old(albums)[g := Album(NotUploaded(messages), false, paid)]
      ensures origins == old(origins)[g := Origin(messages, {}, {})]
    {
      WithoutNothing(messages);
      assert MessagesOf(NotUploaded(messages)) == messages;
      albums := albums[g := Album(NotUploaded(messages), false, paid)];
      assert !Ready(albums[g].items) by { assert albums[g].items[0].media.NoMedia?; }
      origins := origins[g := Origin(messages, {}, {})];
      NewOriginKeepsLog(log, old(origins), g, Origin(messages, {}, {}));
      forall h ensures AlbumHolds(h, albums, origins, log) {
        assert AlbumHolds(h, old(albums), old(origins), log);
      }
      forall h ensures Settled(h, albums, origins, log, dropped, answered) {
        assert Settled(h, old(albums), old(origins), log, dropped, answered);
      }
    }

    // `sendAlbumIfReady`, after the items of g changed.
    method SendAlbumIfReady(g: nat, loaded: set<nat>)
      requires g in albums && AlmostHolds(g, albums, origins, log) && LogHolds(log, origins)
      requires forall h :: h != g ==> AlbumHolds(h, albums, origins, log)
      requires NotSettled(g, albums, origins, log, dropped, answered)
      modifies this`albums, this`log, this`dropped
      ensures Valid()
      ensures var a := old(albums)[g];
              && log == old(log) + (if Sends(a, loaded) then [SendingOf(g, a, origins[g])] else [])
              && albums == Checked(old(albums), g, a, loaded)
    {
      hide Settled;
      var album := albums[g];
      if album.sent {
        OneAlbumAtATime(g, albums, albums, origins, log);
        return;
      }
      SendingSettles(g, albums, origins, log, dropped, answered, loaded);
      if |album.items| == 0 {
        ReadyIsDone(album.items, origins[g]);
        albums := albums - {g};
        dropped := dropped[g := Dropping(origins[g].cancelled, loaded)];
        OneAlbumAtATime(g, old(albums), albums, origins, log);
        OneSettles(g, old(albums), albums, origins, old(log), log, old(dropped), dropped, answered);
        return;
      }
      var ready, sample := CheckReady(album.items, loaded);
      if !ready {
        OneAlbumAtATime(g, albums, albums, origins, log);
        assert Checked(albums, g, album, loaded) == albums;
        OneSettles(g, albums, albums, origins, log, log, dropped, dropped, answered);
        return;
      }
      ReadyIsDone(album.items, origins[g]);
      if !sample {
        albums := albums - {g};
        dropped := dropped[g := Dropping(origins[g].cancelled, loaded)];
        OneAlbumAtATime(g, old(albums), albums, origins, log);
        OneSettles(g, old(albums), albums, origins, old(log), log, old(dropped), dropped, answered);
        return;
      }
      LogGrows(log, origins, SendingOf(g, album, origins[g]));
      if album.paid {
        albums := albums[g := album.(sent := true)];
      } else if |album.items| < 2 {
        albums := albums - {g};
      } else {
        albums := albums[g := album.(sent := true)];
      }
      log := log + [SendingOf(g, album, origins[g])];
      forall h | h != g ensures AlbumHolds(h, old(albums), origins, log) {
        assert AlbumHolds(h, old(albums), origins, old(log));
        NotLoggedMore(h, old(log), SendingOf(g, album, origins[g]));
      }
      OneAlbumAtATime(g, old(albums), albums, origins, log);
      OneSettles(g, old(albums), albums, origins, old(log), log, dropped, dropped, answered);
    }

    // `sendAlbumWithUploaded`. The album and the item, without media, are there as the source asserts.
    method Uploaded(g: nat, message: nat, media: nat, loaded: set<nat>)
      requires Valid() && g in origins && IsWaiting(origins[g], message)
      modifies this
      ensures Valid() && g in old(albums)
      ensures origins == old(origins)[g := old(origins)[g].(uploaded := old(origins)[g].uploaded + {message})]
      ensures var a := old(albums)[g].(items := Filled(old(albums)[g].items, message, media));
              && log == old(log) + (if Sends(a, loaded) then [SendingOf(g, a, origins[g])] else [])
              && albums == Checked(old(albums), g, a, loaded)
    {
      hide AlbumHolds, AlmostHolds, LogHolds, Filled, IsWaiting, Sends, Checked, Ready, NotSettled, Settled;
      WaitingIsThere(g, albums, origins, log, message);
      var items, o := albums[g].items, origins[g];
      var k := FindItem(items, message);
      assert k < |items| && items[k].media.NoMedia?;
      FilledIs(items, message, k, media);
      FillAlbum(g, albums, origins, log, k, media);
      albums := albums[g := albums[g].(items := items[k := Item(message, Media(media))])];
      CheckedAgain(old(albums), g, albums[g], albums[g], loaded);
      origins := origins[g := o.(uploaded := o.uploaded + {message})];
      ChangeUnsettles(g, old(albums), old(origins), log, dropped, answered, albums[g], origins[g]);
      SendAlbumIfReady(g, loaded);
    }

    // `sendAlbumWithCancelled`, which also runs for albums that are gone; the item is there as the source asserts.
    method Cancelled(g: nat, message: nat, loaded: set<nat>)
      requires Valid() && g in origins && message in origins[g].messages && message !in origins[g].cancelled
      modifies this
      ensures Valid()
      ensures g !in old(albums) ==> albums == old(albums) && log == old(log) && origins == old(origins)
      ensures g in old(albums) ==>
                var a := old(albums)[g].(items := Removed(old(albums)[g].items, message));
                && origins == old(origins)[g := old(origins)[g].(cancelled := old(origins)[g].cancelled + {message})]
                && log == old(log) + (if Sends(a, loaded) then [SendingOf(g, a, origins[g])] else [])
                && albums == Checked(old(albums), g, a, loaded)
    {
      if g !in albums {
        return;
      }
      hide AlbumHolds, AlmostHolds, LogHolds, Removed, Sends, Checked, Ready, NotSettled, Settled;
      var items, o := albums[g].items, origins[g];
      UncancelledIsThere(g, albums, origins, log, message);
      var k := FindItem(items, message);
      assert k < |items|;
      RemovedIs(items, message, k);
      RemoveFromAlbum(g, albums, origins, log, k);
      albums := albums[g := albums[g].(items := items[..k] + items[k + 1..])];
      CheckedAgain(old(albums), g, albums[g], albums[g], loaded);
      origins := origins[g := o.(cancelled := o.cancelled + {message})];
      ChangeUnsettles(g, old(albums), old(origins), log, dropped, answered, albums[g], origins[g]);
      SendAlbumIfReady(g, loaded);
    }

    // The answer to a sent album. A failed paid album stays, marked as sent.
    method Answered(g: nat, ok: bool)
      requires Valid() && g in albums && albums[g].sent
      modifies this`albums, this`answered
      ensures Valid() && albums == if ok || !old(albums)[g].paid then old(albums) - {g} else old(albums)
    {
      if ok || !albums[g].paid {
        albums := albums - {g};
        answered := answered + {g};
        forall h
          ensures AlbumHolds(h, albums, origins, log) && Settled(h, albums, origins, log, dropped, answered)
        {
          assert AlbumHolds(h, old(albums), origins, log);
          assert Settled(h, old(albums), origins, log, dropped, old(answered));
        }
      }
    }
  }

  function NotUploaded(messages: seq<nat>): (s: seq<Item>)
    ensures |s| == |messages|
  {
    seq(|messages|, i requires 0 <= i < |messages| => Item(messages[i], NoMedia))
  }

  // Whether a check sends the album: every remaining item has media, and one of their messages is loaded.
  predicate Sends(a: Album, loaded: set<nat>) {
    !a.sent && Ready(a.items) && exists i :: 0 <= i < |a.items| && a.items[i].message in loaded
  }

  // The albums after the check of g, now `a`. One that is ready stays while its answer is waited for, or is
  // gone: a single item is sent on its own, and nothing is sent when no item or no message is left.
  function Checked(albums: AlbumMap, g: nat, a: Album, loaded: set<nat>): AlbumMap {
    if Sends(a, loaded) && (a.paid || |a.items| >= 2) then albums[g := a.(sent := true)]
    else if !a.sent && Ready(a.items) then albums - {g}
    else albums[g := a]
  }

  lemma CheckedAgain(albums: AlbumMap, g: nat, b: Album, a: Album, loaded: set<nat>)
    ensures Checked(albums[g := b], g, a, loaded) == Checked(albums, g, a, loaded)
  {
  }

  // The items without the first one of this message.
  function Removed(items: seq<Item>, message: nat): seq<Item> {
    if |items| == 0 then []
    else if items[0].message == message then items[1..]
    else [items[0]] + Removed(items[1..], message)
  }

  lemma {:induction false} RemovedIs(items: seq<Item>, message: nat, k: nat)
    requires k < |items| && items[k].message == message && forall j :: 0 <= j < k ==> items[j].message != message
    ensures Removed(items, message) == items[..k] + items[k + 1..]
    decreases |items|
  {
    if k > 0 { RemovedIs(items[1..], message, k - 1); }
  }

  function Filled(items: seq<Item>, message: nat, media: nat): seq<Item> {
    if |items| == 0 then []
    else if items[0].message == message then [Item(message, Media(media))] + items[1..]
    else [items[0]] + Filled(items[1..], message, media)
  }

  lemma {:induction false} FilledIs(items: seq<Item>, message: nat, k: nat, media: nat)
    requires k < |items| && items[k].message == message && forall j :: 0 <= j < k ==> items[j].message != message
    ensures Filled(items, message, media) == items[k := Item(message, Media(media))]
    decreases |items|
  {
    if k > 0 { FilledIs(items[1..], message, k - 1, media); }
  }

  // What holds of an album between a change of its items and the check.
  ghost predicate AlmostHolds(g: nat, albums: AlbumMap, origins: Origins, log: seq<Sending>) {
    && g in albums && g in origins && Distinct(origins[g].messages) && Remain(albums[g].items, origins[g])
    && (if albums[g].sent then AllDone(origins[g]) else MediaOf(albums[g].items, origins[g]) && NotLogged(g, log))
  }

  lemma OneAlbumAtATime(g: nat, albums: AlbumMap, albums': AlbumMap, origins: Origins, log: seq<Sending>)
    requires forall h :: h != g ==> AlbumHolds(h, albums, origins, log)
    requires forall h :: h != g ==> (h in albums <==> h in albums') && (h in albums ==> albums[h] == albums'[h])
    requires AlbumHolds(g, albums', origins, log)
    ensures forall h :: AlbumHolds(h, albums', origins, log)
  {
    forall h ensures AlbumHolds(h, albums', origins, log) {
      if h != g { assert AlbumHolds(h, albums, origins, log); }
    }
  }

  lemma NotLoggedMore(h: nat, log: seq<Sending>, s: Sending)
    requires s.group != h
    ensures NotLogged(h, log + [s]) <==> NotLogged(h, log)
  {
    assert forall i :: 0 <= i < |log| ==> (log + [s])[i] == log[i];
  }

  lemma LogGrows(log: seq<Sending>, origins: Origins, s: Sending)
    requires LogHolds(log, origins) && NotLogged(s.group, log)
    requires s.group in origins && s.items != [] && Ready(s.items) && s.cancelled <= origins[s.group].cancelled
    requires MessagesOf(s.items) == Without(origins[s.group].messages, s.cancelled)
    ensures LogHolds(log + [s], origins)
  {
  }

  lemma NewOriginKeepsLog(log: seq<Sending>, origins: Origins, g: nat, o: Origin)
    requires LogHolds(log, origins) && g !in origins
    ensures LogHolds(log, origins[g := o]) && NotLogged(g, log)
  {
  }

  lemma OneOriginChanges(g: nat, albums: AlbumMap, origins: Origins, log: seq<Sending>,
                         albums': AlbumMap, origins': Origins)
    requires LogHolds(log, origins) && g in origins && forall h :: AlbumHolds(h, albums, origins, log)
    requires albums'.Keys == albums.Keys && forall h :: h != g && h in albums ==> albums'[h] == albums[h]
    requires origins'.Keys == origins.Keys && forall h :: h != g && h in origins ==> origins'[h] == origins[h]
    requires origins'[g].messages == origins[g].messages && origins[g].cancelled <= origins'[g].cancelled
    ensures LogHolds(log, origins')
    ensures forall h :: h != g ==> AlbumHolds(h, albums', origins', log)
  {
    hide Remain, MediaOf, AllDone, Ready, NotLogged, Distinct;
    forall h | h != g ensures AlbumHolds(h, albums', origins', log) {
      assert AlbumHolds(h, albums, origins, log);
    }
  }

  // An upload, before the check.
  lemma FillAlbum(g: nat, albums: AlbumMap, origins: Origins, log: seq<Sending>, k: nat, media: nat)
    requires LogHolds(log, origins) && forall h :: AlbumHolds(h, albums, origins, log)
    requires g in albums && !albums[g].sent && k < |albums[g].items|
    ensures g in origins
    ensures var items, o := albums[g].items, origins[g];
            var albums' := albums[g := albums[g].(items := items[k := Item(items[k].message, Media(media))])];
            var origins' := origins[g := o.(uploaded := o.uploaded + {items[k].message})];
            && AlmostHolds(g, albums', origins', log) && LogHolds(log, origins')
            && forall h :: h != g ==> AlbumHolds(h, albums', origins', log)
  {
    assert AlbumHolds(g, albums, origins, log);
    var items, o := albums[g].items, origins[g];
    FillKeeps(items, o, k, media);
    OneOriginChanges(g, albums, origins, log,
                     albums[g := albums[g].(items := items[k := Item(items[k].message, Media(media))])],
                     origins[g := o.(uploaded := o.uploaded + {items[k].message})]);
    hide Remain, MediaOf, Ready, NotLogged, Distinct, LogHolds;
  }

  // A cancellation, before the check.
  lemma RemoveFromAlbum(g: nat, albums: AlbumMap, origins: Origins, log: seq<Sending>, k: nat)
    requires LogHolds(log, origins) && forall h :: AlbumHolds(h, albums, origins, log)
    requires g in albums && k < |albums[g].items|
    ensures g in origins
    ensures var items, o := albums[g].items, origins[g];
            var albums' := albums[g := albums[g].(items := items[..k] + items[k + 1..])];
            var origins' := origins[g := o.(cancelled := o.cancelled + {items[k].message})];
            && AlmostHolds(g, albums', origins', log) && LogHolds(log, origins')
            && forall h :: h != g ==> AlbumHolds(h, albums', origins', log)
  {
    assert AlbumHolds(g, albums, origins, log);
    var items, o := albums[g].items, origins[g];
    RemoveKeeps(items, o, k);
    OneOriginChanges(g, albums, origins, log, albums[g := albums[g].(items := items[..k] + items[k + 1..])],
                     origins[g := o.(cancelled := o.cancelled + {items[k].message})]);
    hide Remain, MediaOf, Ready, NotLogged, Distinct, LogHolds;
  }

  datatype Event =
    | StartAlbum(g: nat, messages: seq<nat>, paid: bool)
    | UploadDone(g: nat, message: nat, media: nat, loaded: set<nat>)
    | Cancel(g: nat, message: nat, loaded: set<nat>)
    | Answer(g: nat, ok: bool)

  /** In every interleaving of uploads, cancellations and answers. */
  method AnyRun(events: seq<Event>) returns (s: Sender)
    ensures s.Valid() && LogHolds(s.log, s.origins)
  {
    s := new Sender();
    for i := 0 to |events|
      invariant s.Valid() && fresh(s)
    {
      match events[i] {
        case StartAlbum(g, messages, paid) =>
          if g !in s.origins && Distinct(messages) && |messages| > 0 { s.Start(g, messages, paid); }
        case UploadDone(g, message, media, loaded) =>
          if g in s.origins && IsWaiting(s.origins[g], message) { s.Uploaded(g, message, media, loaded); }
        case Cancel(g, message, loaded) =>
          if g in s.origins && message in s.origins[g].messages && message !in s.origins[g].cancelled {
            s.Cancelled(g, message, loaded);
          }
        case Answer(g, ok) =>
          if g in s.albums && s.albums[g].sent { s.Answered(g, ok); }
      }
    }
  }

  /** No album is lost: each still waits for an upload, or was sent, or was dropped when no message of it that
      remained was loaded. */
  lemma NoneIsLost(s: Sender, g: nat)
    requires s.Valid() && g in s.origins
    ensures || (g in s.albums && !s.albums[g].sent
                && exists i :: 0 <= i < |s.albums[g].items| && s.albums[g].items[i].media.NoMedia?)
            || (exists k :: 0 <= k < |s.log| && s.log[k].group == g)
            || (g in s.dropped
                && forall m :: m in s.origins[g].messages && m in s.dropped[g].loaded ==> m in s.dropped[g].cancelled)
  {
    assert AlbumHolds(g, s.albums, s.origins, s.log);
    assert Settled(g, s.albums, s.origins, s.log, s.dropped, s.answered);
  }

  /** One that was sent stays until its answer, but for a single item without a price. */
  lemma SentIsKept(s: Sender, k: nat)
    requires s.Valid() && k < |s.log| && s.log[k].group !in s.answered
    ensures var x := s.log[k];
            x.group in s.albums <==> |x.items| >= 2 || x.paid
  {
    assert Settled(s.log[k].group, s.albums, s.origins, s.log, s.dropped, s.answered);
  }

  /** No album hangs ready: one that is kept and not sent waits for the media of an item of its own. */
  lemma UnsentAlbumsWait(s: Sender, g: nat)
    requires s.Valid() && g in s.albums && !s.albums[g].sent
    ensures exists i :: 0 <= i < |s.albums[g].items| && s.albums[g].items[i].media.NoMedia?
    ensures forall k :: 0 <= k < |s.log| ==> s.log[k].group != g
  {
    assert AlbumHolds(g, s.albums, s.origins, s.log);
  }

  /** What is sent of an album is exactly its messages that were not cancelled by then, in their order. */
  lemma SentIsWhatRemained(s: Sender, k: nat, m: nat)
    requires s.Valid() && k < |s.log|
    ensures var x := s.log[k];
            m in MessagesOf(x.items) <==> m in s.origins[x.group].messages && m !in x.cancelled
  {
    var x := s.log[k];
    WithoutMembers(s.origins[x.group].messages, x.cancelled);
  }
}
