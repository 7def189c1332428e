/**
 Loading of the chats list: one list request and one pinned request a folder, answered in any order.

 Answers arrive one at a time, never inside a call that sends, and each request is answered at most
 once: `outstanding` is what the transport still owes.
 */
module DialogsLoading {

  datatype Folder = Main | Sub(id: nat)

  datatype Kind = List | Pinned

  // A list request names where its page starts and how many dialogs it asks for.
  datatype Request = Request(kind: Kind, folder: Folder, from: Offset, count: nat)

  const START := Offset(0, 0, 0)
  const FIRST_LOAD: nat := 20
  const PER_PAGE: nat := 500

  datatype LoadState = LoadState(offsetDate: int, offsetId: int, offsetPeer: int, requestId: nat,
                                 listReceived: bool, pinnedRequestId: nat, pinnedReceived: bool)

  const NOTHING_LOADED := LoadState(0, 0, 0, 0, false, 0, false)

  datatype Dialog = Dialog(peer: int, topMessage: int)

  datatype Message = Message(id: int, peer: int, date: int)

  // `messages.dialogsNotModified`, `messages.dialogs` and `messages.dialogsSlice`.
  datatype ListAnswer =
    | NotModified
    | Everything
    | Slice(dialogs: seq<Dialog>, messages: seq<Message>)

  // What `requestMoreDialogsIfNeeded` asks of the rest of the program.
  datatype Surroundings = Surroundings(exceptionsRequested: bool, archive: seq<nat>, archiveNeeded: bool)

  // ----- the offset of the next page -----

  predicate HasTop(d: Dialog) { d.peer != 0 && d.topMessage != 0 }

  predicate IsTopOf(m: Message, d: Dialog) { m.id == d.topMessage && m.peer == d.peer }

  // The date of the last message in the list that is the dialog's top message, 0 without one.
  function TopDate(d: Dialog, messages: seq<Message>): int {
    if |messages| == 0 then 0
    else
      var last := messages[|messages| - 1];
      if IsTopOf(last, d) then last.date else TopDate(d, messages[..|messages| - 1])
  }

  predicate IsDated(d: Dialog, messages: seq<Message>) { HasTop(d) && TopDate(d, messages) != 0 }

  // The date of the last dialog that has one, 0 when none has.
  function LastDate(dialogs: seq<Dialog>, messages: seq<Message>): int {
    if |dialogs| == 0 then 0
    else
      var last := dialogs[|dialogs| - 1];
      if IsDated(last, messages) then TopDate(last, messages) else LastDate(dialogs[..|dialogs| - 1], messages)
  }

  // The last dialog with a peer and a top message.
  function LastTop(dialogs: seq<Dialog>): Dialog {
    if |dialogs| == 0 then Dialog(0, 0)
    else
      var last := dialogs[|dialogs| - 1];
      if HasTop(last) then last else LastTop(dialogs[..|dialogs| - 1])
  }

  datatype Offset = Offset(date: int, id: int, peer: int)

  function NextOffset(dialogs: seq<Dialog>, messages: seq<Message>): Offset {
    var top := LastTop(dialogs);
    Offset(LastDate(dialogs, messages), top.topMessage, top.peer)
  }

  /** There is no next offset exactly when no dialog of the slice has a dated top message. */
  lemma {:induction false} NoOffsetWithoutDate(dialogs: seq<Dialog>, messages: seq<Message>)
    ensures LastDate(dialogs, messages) == 0 <==> forall d :: d in dialogs ==> !IsDated(d, messages)
    decreases |dialogs|
  {
    if |dialogs| > 0 {
      var front, last := dialogs[..|dialogs| - 1], dialogs[|dialogs| - 1];
      NoOffsetWithoutDate(front, messages);
      assert dialogs == front + [last];
    }
  }

  /**
   The three parts of the next offset describe one dialog when the last dialog with a top message is
   dated; otherwise the date is an earlier dialog's.
   */
  lemma {:induction false} OffsetIsOfOneDialog(dialogs: seq<Dialog>, messages: seq<Message>)
    requires IsDated(LastTop(dialogs), messages)
    ensures LastDate(dialogs, messages) == TopDate(LastTop(dialogs), messages)
    decreases |dialogs|
  {
    if |dialogs| > 0 && !HasTop(dialogs[|dialogs| - 1]) {
      OffsetIsOfOneDialog(dialogs[..|dialogs| - 1], messages);
    }
  }

  lemma {:induction false} OffsetIsMixed(dialogs: seq<Dialog>, messages: seq<Message>) returns (i: nat, j: nat)
    requires LastDate(dialogs, messages) != 0 && !IsDated(LastTop(dialogs), messages)
    ensures i < j < |dialogs| && dialogs[j] == LastTop(dialogs) && forall k :: j < k < |dialogs| ==> !HasTop(dialogs[k])
    ensures HasTop(dialogs[j]) && TopDate(dialogs[j], messages) == 0
    ensures IsDated(dialogs[i], messages) && LastDate(dialogs, messages) == TopDate(dialogs[i], messages)
    decreases |dialogs|
  {
    var front, last := dialogs[..|dialogs| - 1], dialogs[|dialogs| - 1];
    if HasTop(last) {
      i := DatedDialog(front, messages);
      j := |dialogs| - 1;
    } else {
      i, j := OffsetIsMixed(front, messages);
      forall k | j < k < |dialogs| ensures !HasTop(dialogs[k]) {
        assert k < |front| ==> dialogs[k] == front[k];
      }
    }
  }

  lemma {:induction false} DatedDialog(dialogs: seq<Dialog>, messages: seq<Message>) returns (i: nat)
    requires LastDate(dialogs, messages) != 0
    ensures i < |dialogs| && IsDated(dialogs[i], messages)
    ensures LastDate(dialogs, messages) == TopDate(dialogs[i], messages)
    decreases |dialogs|
  {
    var front, last := dialogs[..|dialogs| - 1], dialogs[|dialogs| - 1];
    if IsDated(last, messages) {
      i := |dialogs| - 1;
    } else {
      i := DatedDialog(front, messages);
    }
  }

  // The loops of `updateDialogsOffset`.
  method FindOffset(dialogs: seq<Dialog>, messages: seq<Message>) returns (date: int, id: int, peer: int)
    ensures date == LastDate(dialogs, messages)
    ensures date != 0 ==> Offset(date, id, peer) == NextOffset(dialogs, messages)
  {
    date, id, peer := 0, 0, 0;
    var i := |dialogs|;
    assert dialogs[..|dialogs|] == dialogs;
    while i > 0 && date == 0
      invariant 0 <= i <= |dialogs|
      invariant date == 0 ==> LastDate(dialogs, messages) == LastDate(dialogs[..i], messages)
      invariant date != 0 ==> date == LastDate(dialogs, messages) && peer != 0
      invariant (peer == 0 <==> id == 0) && (peer == 0 ==> date == 0 && LastTop(dialogs) == LastTop(dialogs[..i]))
      invariant peer != 0 ==> Dialog(peer, id) == LastTop(dialogs)
    {
      i := i - 1;
      var d := dialogs[i];
      assert dialogs[..i + 1][..i] == dialogs[..i];
      if d.peer != 0 && d.topMessage != 0 {
        if peer == 0 { peer := d.peer; }
        if id == 0 { id := d.topMessage; }
        date := FindTopDate(d, messages);
      }
    }
  }

  method FindTopDate(d: Dialog, messages: seq<Message>) returns (date: int)
    ensures date == TopDate(d, messages)
  {
    var j := |messages|;
    assert messages[..|messages|] == messages;
    while j > 0
      invariant 0 <= j <= |messages|
      invariant TopDate(d, messages) == TopDate(d, messages[..j])
    {
      j := j - 1;
      assert messages[..j + 1][..j] == messages[..j];
      if IsTopOf(messages[j], d) {
        return messages[j].date;
      }
    }
    date := 0;
  }

  // ----- the protocol -----

  type States = map<Folder, LoadState>
  type Owed = map<nat, Request>

  predicate IsFor(r: Request, kind: Kind, f: Folder) { r.kind == kind && r.folder == f }

  function OffsetOf(s: LoadState): Offset { Offset(s.offsetDate, s.offsetId, s.offsetPeer) }

  // The next page of a folder, and its pinned dialogs.
  function NextPage(f: Folder, s: LoadState): Request {
    Request(List, f, OffsetOf(s), if s.offsetDate == 0 then FIRST_LOAD else PER_PAGE)
  }

  function PinnedOf(f: Folder): Request { Request(Pinned, f, START, 0) }

  ghost predicate StateHolds(f: Folder, s: LoadState, outstanding: Owed, stuck: bool) {
    // Everything awaited is owed, but for a list answered with not-modified.
    && (s.requestId != 0 && !s.listReceived && !stuck ==>
          s.requestId in outstanding && IsFor(outstanding[s.requestId], List, f))
    && (s.pinnedRequestId != 0 ==>
          s.pinnedRequestId in outstanding && IsFor(outstanding[s.pinnedRequestId], Pinned, f))
    && (s.pinnedReceived ==> s.pinnedRequestId == 0)
    // A list was never asked for without its pinned part.
    && (s.requestId != 0 || s.listReceived ==> s.pinnedReceived || s.pinnedRequestId != 0)
    && (s.listReceived ==> s.requestId != 0)
    // A finished state is gone.
    && !(s.listReceived && s.pinnedReceived)
    && (stuck ==> s.requestId != 0 && !s.listReceived)
  }

  // Every owed answer is the one its folder's load state waits for.
  ghost predicate Awaited(id: nat, r: Request, states: States) {
    && id != 0 && r.folder in states
    && if r.kind == List then states[r.folder].requestId == id && !states[r.folder].listReceived
       else states[r.folder].pinnedRequestId == id && !states[r.folder].pinnedReceived
  }

  ghost predicate FolderHolds(f: Folder, states: States, outstanding: Owed, notModified: set<Folder>) {
    && (forall id :: id in outstanding && outstanding[id].folder == f ==>
          Awaited(id, outstanding[id], states) && (outstanding[id].kind == List ==> f !in notModified))
    && (f in states ==> StateHolds(f, states[f], outstanding, f in notModified))
    && (f in notModified ==> f in states)
  }

  ghost predicate AllHold(states: States, outstanding: Owed, notModified: set<Folder>) {
    forall f :: FolderHolds(f, states, outstanding, notModified)
  }

  ghost predicate SameElsewhere(f: Folder, states: States, outstanding: Owed, notModified: set<Folder>,
                                states': States, outstanding': Owed, notModified': set<Folder>) {
    && (forall g :: g != f ==> (g in states <==> g in states') && (g in states ==> states[g] == states'[g])
                               && (g in notModified <==> g in notModified'))
    && (forall id :: id in outstanding && outstanding[id].folder != f ==>
          id in outstanding' && outstanding'[id] == outstanding[id])
    && (forall id :: id in outstanding' && outstanding'[id].folder != f ==>
          id in outstanding && outstanding'[id] == outstanding[id])
  }

  lemma OneFolderAtATime(f: Folder, states: States, outstanding: Owed, notModified: set<Folder>,
                         states': States, outstanding': Owed, notModified': set<Folder>)
    requires AllHold(states, outstanding, notModified)
    requires SameElsewhere(f, states, outstanding, notModified, states', outstanding', notModified')
    requires FolderHolds(f, states', outstanding', notModified')
    ensures AllHold(states', outstanding', notModified')
  {
    forall g ensures FolderHolds(g, states', outstanding', notModified') {
      if g != f {
        assert FolderHolds(g, states, outstanding, notModified);
      }
    }
  }

  // What sending a list request, with its pinned part if needed, makes of a folder's load state.
  function Requested(s: LoadState, id: nat): LoadState {
    if s.pinnedReceived || s.pinnedRequestId != 0 then s.(requestId := id)
    else s.(requestId := id, pinnedRequestId := id + 1)
  }

  function Owing(outstanding: Owed, s: LoadState, folder: Folder, id: nat): Owed {
    var owed := outstanding[id := NextPage(folder, s)];
    if s.pinnedReceived || s.pinnedRequestId != 0 then owed else owed[id + 1 := PinnedOf(folder)]
  }

  lemma RequestKeeps(states: States, outstanding: Owed, notModified: set<Folder>, f: Folder, id: nat)
    requires AllHold(states, outstanding, notModified)
    requires f in states && states[f].requestId == 0 && forall k :: k in outstanding ==> k < id
    requires id > 0
    ensures AllHold(states[f := Requested(states[f], id)], Owing(outstanding, states[f], f, id), notModified)
  {
    assert FolderHolds(f, states, outstanding, notModified);
    OneFolderAtATime(f, states, outstanding, notModified,
                     states[f := Requested(states[f], id)], Owing(outstanding, states[f], f, id), notModified);
  }

  lemma OwedHasState(states: States, outstanding: Owed, notModified: set<Folder>, id: nat)
    requires AllHold(states, outstanding, notModified) && id in outstanding
    ensures Awaited(id, outstanding[id], states)
    ensures var r := outstanding[id]; StateHolds(r.folder, states[r.folder], outstanding, r.folder in notModified)
    ensures outstanding[id].kind == List ==> outstanding[id].folder !in notModified
  {
    assert FolderHolds(outstanding[id].folder, states, outstanding, notModified);
  }

  // The load state after an answer, None when the load is over.
  datatype Left = None | Some(state: LoadState)

  function AfterList(s: LoadState, answer: ListAnswer): Left {
    var date := if answer.Slice? then LastDate(answer.dialogs, answer.messages) else 0;
    if answer.NotModified? then Some(s)
    else if date != 0 then
      var next := NextOffset(answer.dialogs, answer.messages);
      Some(s.(offsetDate := next.date, offsetId := next.id, offsetPeer := next.peer, requestId := 0))
    else if s.pinnedReceived then None
    else Some(s.(listReceived := true))
  }

  function AfterPinned(s: LoadState): Left {
    if s.listReceived then None else Some(s.(pinnedRequestId := 0, pinnedReceived := true))
  }

  function Updated(states: States, f: Folder, left: Left): States {
    if left.None? then states - {f} else states[f := left.state]
  }

  lemma AnswerKeeps(states: States, outstanding: Owed, notModified: set<Folder>, id: nat, left: Left,
                    notModified': set<Folder>)
    requires AllHold(states, outstanding, notModified) && id in outstanding
    requires Awaited(id, outstanding[id], states)
    requires var r := outstanding[id]; var s := states[r.folder];
             || (r.kind == Pinned && left == AfterPinned(s) && notModified' == notModified)
             || (r.kind == List && left == Some(s.(requestId := 0)) && notModified' == notModified)
             || (r.kind == List
                 && (exists answer ::
                       left == AfterList(s, answer)
                       && notModified' == notModified + if answer.NotModified? then {r.folder} else {}))
    ensures AllHold(Updated(states, outstanding[id].folder, left), outstanding - {id}, notModified')
  {
    hide LastDate, NextOffset;
    OwedHasState(states, outstanding, notModified, id);
    var f := outstanding[id].folder;
    assert FolderHolds(f, states, outstanding, notModified);
    OneFolderAtATime(f, states, outstanding, notModified,
                     Updated(states, f, left), outstanding - {id}, notModified');
  }

  function BlockedNow(states: States, till: int): bool {
    && Main in states
    && !states[Main].listReceived
    && states[Main].requestId == 0
    && till > 0
    && 0 < states[Main].offsetDate <= till
  }

  // Each load was posted as done exactly once, or is still going on; the main list is loaded once.
  ghost predicate PostedOnce(started: multiset<Folder>, posted: seq<Folder>, loading: set<Folder>) {
    && (forall f :: started[f] == multiset(posted)[f] + if f in loading then 1 else 0)
    && started[Main] == 1
  }

  // ----- what is asked for -----

  // The beginning of a load, the pages answered in it that end at a dated dialog, and the lists asked for.
  datatype Entry =
    | Began(folder: Folder)
    | Paged(folder: Folder, dialogs: seq<Dialog>, messages: seq<Message>)
    | Asked(folder: Folder, from: Offset, count: nat)

  // The date of the last message with the dialog's top id and peer.
  ghost predicate DatedBy(d: Dialog, messages: seq<Message>, m: nat, date: int) {
    && m < |messages| && messages[m].id == d.topMessage && messages[m].peer == d.peer && messages[m].date == date
    && forall n :: m < n < |messages| ==> messages[n].id != d.topMessage || messages[n].peer != d.peer
  }

  // The dialog has a peer and a top message, and that message is in the slice and dated.
  ghost predicate Dated(d: Dialog, messages: seq<Message>, date: int) {
    d.peer != 0 && d.topMessage != 0 && date != 0 && exists m: nat :: DatedBy(d, messages, m, date)
  }

  ghost predicate SomeDated(dialogs: seq<Dialog>, messages: seq<Message>) {
    exists i, date :: 0 <= i < |dialogs| && Dated(dialogs[i], messages, date)
  }

  // The date of the last dated dialog, and the peer and top message of the last dialog that has both.
  ghost predicate EndsAt(dialogs: seq<Dialog>, messages: seq<Message>, o: Offset) {
    && (exists i :: 0 <= i < |dialogs| && Dated(dialogs[i], messages, o.date)
                    && forall k, date :: i < k < |dialogs| ==> !Dated(dialogs[k], messages, date))
    && (exists j :: 0 <= j < |dialogs| && dialogs[j] == Dialog(o.peer, o.id) && o.peer != 0 && o.id != 0
                    && forall k :: j < k < |dialogs| ==> dialogs[k].peer == 0 || dialogs[k].topMessage == 0)
  }

  lemma {:induction false} TopDateIs(d: Dialog, messages: seq<Message>, date: int)
    ensures date != 0 ==> (TopDate(d, messages) == date <==> exists m: nat :: DatedBy(d, messages, m, date))
    decreases |messages|
  {
    if |messages| > 0 {
      var k := |messages| - 1;
      var front := messages[..k];
      TopDateIs(d, front, date);
      if IsTopOf(messages[k], d) {
        assert messages[k].date == date ==> DatedBy(d, messages, k, date);
      } else {
        forall m: nat ensures DatedBy(d, messages, m, date) <==> DatedBy(d, front, m, date) {
          assert m < k ==> messages[m] == front[m];
          assert forall n :: 0 <= n < k ==> messages[n] == front[n];
        }
      }
    }
  }

  lemma DatedIs(d: Dialog, messages: seq<Message>)
    ensures forall date :: Dated(d, messages, date) <==> IsDated(d, messages) && TopDate(d, messages) == date
  {
    forall date ensures Dated(d, messages, date) <==> IsDated(d, messages) && TopDate(d, messages) == date {
      TopDateIs(d, messages, date);
    }
  }

  lemma {:induction false} LastTopIs(dialogs: seq<Dialog>) returns (j: nat)
    requires exists d :: d in dialogs && HasTop(d)
    ensures j < |dialogs| && dialogs[j] == LastTop(dialogs) && HasTop(dialogs[j])
    ensures forall k :: j < k < |dialogs| ==> !HasTop(dialogs[k])
    decreases |dialogs|
  {
    j := |dialogs| - 1;
    var front := dialogs[..j];
    if !HasTop(dialogs[j]) {
      var d :| d in dialogs && HasTop(d);
      assert dialogs == front + [dialogs[j]];
      j := LastTopIs(front);
    }
  }

  lemma {:induction false} LastDateIs(dialogs: seq<Dialog>, messages: seq<Message>) returns (i: nat)
    requires LastDate(dialogs, messages) != 0
    ensures i < |dialogs| && Dated(dialogs[i], messages, LastDate(dialogs, messages))
    ensures forall k, date :: i < k < |dialogs| ==> !Dated(dialogs[k], messages, date)
    decreases |dialogs|
  {
    hide TopDate, Dated;
    i := |dialogs| - 1;
    DatedIs(dialogs[i], messages);
    if !IsDated(dialogs[i], messages) {
      var last := i;
      i := LastDateIs(dialogs[..last], messages);
      assert forall k :: 0 <= k < last ==> dialogs[k] == dialogs[..last][k];
    }
  }

  /** The offset that is found is where the slice ends; none is found exactly when no dialog of it is dated. */
  lemma NextOffsetIs(dialogs: seq<Dialog>, messages: seq<Message>)
    ensures LastDate(dialogs, messages) != 0 <==> SomeDated(dialogs, messages)
    ensures LastDate(dialogs, messages) != 0 ==> EndsAt(dialogs, messages, NextOffset(dialogs, messages))
  {
    hide LastDate, TopDate, LastTop, Dated;
    if LastDate(dialogs, messages) != 0 {
      var i := LastDateIs(dialogs, messages);
      DatedIs(dialogs[i], messages);
      var j := LastTopIs(dialogs);
    }
    if SomeDated(dialogs, messages) {
      var i, date :| 0 <= i < |dialogs| && Dated(dialogs[i], messages, date);
      DatedIs(dialogs[i], messages);
      NoOffsetWithoutDate(dialogs, messages);
    }
  }

  /** What a list answer makes of a load: nothing, the end of its list, or the next page to ask for. */
  lemma AfterListIs(s: LoadState, answer: ListAnswer)
    ensures answer.NotModified? ==> AfterList(s, answer) == Some(s)
    ensures answer.Everything? || (answer.Slice? && !SomeDated(answer.dialogs, answer.messages)) ==>
              AfterList(s, answer) == if s.pinnedReceived then None else Some(s.(listReceived := true))
    ensures answer.Slice? && SomeDated(answer.dialogs, answer.messages) ==>
              exists o :: EndsAt(answer.dialogs, answer.messages, o)
                          && AfterList(s, answer) == Some(s.(offsetDate := o.date, offsetId := o.id,
                                                             offsetPeer := o.peer, requestId := 0))
  {
    hide LastDate, LastTop, EndsAt, SomeDated;
    if answer.Slice? { NextOffsetIs(answer.dialogs, answer.messages); }
  }

  // A page of the folder starts where the load began, or where the last page answered before it ended.
  ghost predicate StartsAt(log: seq<Entry>, f: Folder, o: Offset) {
    && |log| > 0
    && var last := log[|log| - 1];
       if last == Began(f) then o == Offset(0, 0, 0)
       else if last.Paged? && last.folder == f then EndsAt(last.dialogs, last.messages, o)
       else StartsAt(log[..|log| - 1], f, o)
  }

  lemma {:induction false} OneStart(log: seq<Entry>, f: Folder, o: Offset)
    requires StartsAt(log, f, o)
    ensures forall p :: StartsAt(log, f, p) ==> p.date == o.date
    decreases |log|
  {
    var last := log[|log| - 1];
    if last != Began(f) && last.Paged? && last.folder == f {
      forall p | EndsAt(last.dialogs, last.messages, p) ensures p.date == o.date {
        OneEnd(last.dialogs, last.messages, o, p);
      }
    } else if last != Began(f) {
      OneStart(log[..|log| - 1], f, o);
    }
  }

  lemma OneEnd(dialogs: seq<Dialog>, messages: seq<Message>, o: Offset, p: Offset)
    requires EndsAt(dialogs, messages, o) && EndsAt(dialogs, messages, p)
    ensures p == o
  {
    var i :| 0 <= i < |dialogs| && Dated(dialogs[i], messages, o.date)
             && forall k, date :: i < k < |dialogs| ==> !Dated(dialogs[k], messages, date);
    var j :| 0 <= j < |dialogs| && Dated(dialogs[j], messages, p.date)
             && forall k, date :: j < k < |dialogs| ==> !Dated(dialogs[k], messages, date);
    assert i == j;
    DatedIs(dialogs[i], messages);
  }

  // Each list asked for: twenty dialogs from the beginning, five hundred from the end of the page before.
  ghost predicate AskedRightly(log: seq<Entry>, k: nat) {
    k < |log| && log[k].Asked? ==>
      StartsAt(log[..k], log[k].folder, log[k].from) && log[k].count == if log[k].from.date == 0 then 20 else 500
  }

  ghost predicate HistoryHolds(states: States, log: seq<Entry>) {
    && (forall f :: f in states ==> StartsAt(log, f, OffsetOf(states[f])))
    && (forall k: nat :: AskedRightly(log, k))
  }

  lemma SameOffsets(states: States, log: seq<Entry>, states': States)
    requires HistoryHolds(states, log)
    requires forall f :: f in states' ==> f in states && OffsetOf(states'[f]) == OffsetOf(states[f])
    ensures HistoryHolds(states', log)
  {
    hide StartsAt, AskedRightly;
  }

  lemma OneEntryMore(log: seq<Entry>, e: Entry)
    requires forall k: nat :: AskedRightly(log, k)
    requires e.Asked? ==> AskedRightly(log + [e], |log|)
    ensures forall k: nat :: AskedRightly(log + [e], k)
  {
    hide StartsAt;
    var more := log + [e];
    forall k: nat ensures AskedRightly(more, k) {
      assert AskedRightly(log, k);
      if k < |log| { assert more[..k] == log[..k] && more[k] == log[k]; }
    }
  }

  lemma AskedNow(log: seq<Entry>, e: Entry)
    requires e.Asked? && StartsAt(log, e.folder, e.from) && e.count == if e.from.date == 0 then 20 else 500
    ensures AskedRightly(log + [e], |log|)
  {
    hide StartsAt;
    assert (log + [e])[..|log|] == log;
  }

  lemma HistoryGrows(states: States, log: seq<Entry>, e: Entry, states': States)
    requires HistoryHolds(states, log)
    requires match e
             case Began(f) => f !in states && states' == states[f := NOTHING_LOADED]
             case Paged(f, dialogs, messages) =>
               && (forall g :: g in states' && g != f ==> g in states && OffsetOf(states'[g]) == OffsetOf(states[g]))
               && (f in states' ==> EndsAt(dialogs, messages, OffsetOf(states'[f])))
             case Asked(f, from, count) =>
               states' == states && f in states && NextPage(f, states[f]) == Request(List, f, from, count)
    ensures HistoryHolds(states', log + [e])
  {
    hide EndsAt, AskedRightly;
    var more := log + [e];
    assert more[..|log|] == log && more[|log|] == e;
    if e.Asked? { AskedNow(log, e); }
    OneEntryMore(log, e);
  }

  lemma NewLoadKeeps(folder: Folder, states: States, outstanding: Owed, notModified: set<Folder>,
                     started: multiset<Folder>, posted: seq<Folder>, loadTill: int)
    requires AllHold(states, outstanding, notModified) && PostedOnce(started, posted, states.Keys)
    requires folder != Main && folder !in states
    ensures var states' := states[folder := NOTHING_LOADED];
            && AllHold(states', outstanding, notModified)
            && PostedOnce(started + multiset{folder}, posted, states'.Keys)
            && (BlockedNow(states', loadTill) <==> BlockedNow(states, loadTill))
  {
    assert FolderHolds(folder, states, outstanding, notModified);
    OneFolderAtATime(folder, states, outstanding, notModified, states[folder := NOTHING_LOADED], outstanding,
                     notModified);
  }

  lemma AnswerHistory(states: States, log: seq<Entry>, f: Folder, answer: ListAnswer)
    requires HistoryHolds(states, log) && f in states
    ensures HistoryHolds(Updated(states, f, AfterList(states[f], answer)), log + Pages(f, answer))
  {
    hide HistoryHolds, AfterList, SomeDated, EndsAt;
    var states' := Updated(states, f, AfterList(states[f], answer));
    AfterListIs(states[f], answer);
    if Pages(f, answer) != [] {
      HistoryGrows(states, log, Paged(f, answer.dialogs, answer.messages), states');
    } else {
      assert log + Pages(f, answer) == log;
      SameOffsets(states, log, states');
    }
  }

  // A call of `requestMoreDialogs` sends what the state of the folder needs, or does nothing.
  ghost predicate MoreAsked(folder: Folder, blocked: bool, states: States, outstanding: Owed, lastId: nat,
                            states': States, outstanding': Owed) {
    if folder in states && states[folder].requestId == 0 && !blocked then
      && states' == states[folder := Requested(states[folder], lastId + 1)]
      && outstanding' == Owing(outstanding, states[folder], folder, lastId + 1)
    else states' == states && outstanding' == outstanding
  }

  // The next page is known when some dialog of the slice is dated.
  ghost function Pages(folder: Folder, answer: ListAnswer): seq<Entry> {
    if answer.Slice? && SomeDated(answer.dialogs, answer.messages) then
      [Paged(folder, answer.dialogs, answer.messages)]
    else []
  }

  function Asks(folder: Folder, blocked: bool, states: States): seq<Entry> {
    if folder in states && states[folder].requestId == 0 && !blocked then
      var r := NextPage(folder, states[folder]);
      [Asked(folder, r.from, r.count)]
    else []
  }

  lemma AskHistory(states: States, log: seq<Entry>, f: Folder, id: nat)
    requires HistoryHolds(states, log) && f in states
    ensures var r := NextPage(f, states[f]);
            HistoryHolds(states[f := Requested(states[f], id)], log + [Asked(f, r.from, r.count)])
  {
    hide HistoryHolds;
    var r := NextPage(f, states[f]);
    HistoryGrows(states, log, Asked(f, r.from, r.count), states);
    SameOffsets(states, log + [Asked(f, r.from, r.count)], states[f := Requested(states[f], id)]);
  }

  // A call of `requestPinnedDialogs`.
  ghost predicate PinnedAsked(folder: Folder, states: States, outstanding: Owed, lastId: nat,
                              states': States, outstanding': Owed, lastId': nat) {
    if folder in states && !states[folder].pinnedReceived && states[folder].pinnedRequestId == 0 then
      && lastId' == lastId + 1
      && states' == states[folder := states[folder].(pinnedRequestId := lastId')]
      && outstanding' == outstanding[lastId' := PinnedOf(folder)]
    else states' == states && outstanding' == outstanding && lastId' == lastId
  }

  class Dialogs {
    var states: States                // `_dialogsLoadState` under Main, `_foldersLoadState` under the others
    var loadTill: int
    var mayBlockByDate: bool
    var blockedByDate: bool
    var lastId: nat
    var outstanding: Owed
    var posted: seq<Folder>           // the postponed `chatsListDone` calls
    ghost var started: multiset<Folder>
    ghost var log: seq<Entry>
    ghost var notModified: set<Folder>

    ghost predicate Valid()
      reads this
    {
      && (forall id :: id in outstanding ==> 0 < id <= lastId)
      && AllHold(states, outstanding, notModified)
      && (blockedByDate ==> BlockedNow(states, loadTill))
      && PostedOnce(started, posted, states.Keys)
      && HistoryHolds(states, log)
    }

    constructor ()
      ensures Valid() && states == map[Main := NOTHING_LOADED] && outstanding == map[] && posted == []
      ensures log == [Began(Main)]
    {
      states := map[Main := NOTHING_LOADED];
      loadTill, mayBlockByDate, blockedByDate, lastId := 0, false, false, 0;
      outstanding, posted := map[], [];
      started, notModified, log := multiset{Main}, {}, [Began(Main)];
    }

    method RefreshBlocked()
      modifies this`mayBlockByDate, this`blockedByDate
      ensures blockedByDate == BlockedNow(states, loadTill)
    {
      mayBlockByDate := Main in states && !states[Main].listReceived && loadTill > 0;
      blockedByDate := Main in states && !states[Main].listReceived && states[Main].requestId == 0
        && loadTill > 0 && states[Main].offsetDate > 0 && states[Main].offsetDate <= loadTill;
    }

    // `request(...).send()`: a fresh id, answered later.
    method Send(r: Request) returns (id: nat)
      modifies this`lastId, this`outstanding, this`log
      ensures id == lastId == old(lastId) + 1 && outstanding == old(outstanding)[id := r]
      ensures log == old(log) + if r.kind == List then [Asked(r.folder, r.from, r.count)] else []
    {
      if r.kind == List { log := log + [Asked(r.folder, r.from, r.count)]; }
      lastId := lastId + 1;
      id := lastId;
      outstanding := outstanding[id := r];
    }

    // The body of `requestPinnedDialogs` up to `send()`.
    method SendPinned(folder: Folder)
      modifies this`lastId, this`outstanding, this`states, this`log
      ensures PinnedAsked(folder, old(states), old(outstanding), old(lastId), states, outstanding, lastId)
      ensures log == old(log)
    {
      if folder !in states || states[folder].pinnedReceived || states[folder].pinnedRequestId != 0 {
        return;
      }
      var id := Send(PinnedOf(folder));
      states := states[folder := states[folder].(pinnedRequestId := id)];
    }

    method RequestPinnedDialogs(folder: Folder)
      requires Valid()
      modifies this`lastId, this`outstanding, this`states, this`log
      ensures Valid() && log == old(log)
      ensures PinnedAsked(folder, old(states), old(outstanding), old(lastId), states, outstanding, lastId)
    {
      hide PostedOnce, HistoryHolds;
      SendPinned(folder);
      SameOffsets(old(states), log, states);
      assert states.Keys == old(states.Keys);
      assert FolderHolds(folder, old(states), old(outstanding), notModified);
      OneFolderAtATime(folder, old(states), old(outstanding), notModified, states, outstanding, notModified);
    }

    method RequestMoreDialogs(folder: Folder)
      requires Valid()
      modifies this`lastId, this`outstanding, this`states, this`mayBlockByDate, this`blockedByDate, this`log
      ensures Valid() && states.Keys == old(states.Keys)
      ensures log == old(log) + Asks(folder, old(blockedByDate), old(states))
      ensures MoreAsked(folder, old(blockedByDate), old(states), old(outstanding), old(lastId), states, outstanding)
      ensures folder !in old(states) || old(states)[folder].requestId != 0 || old(blockedByDate) ==>
                blockedByDate == old(blockedByDate)
      ensures folder in states && !blockedByDate ==> states[folder].requestId != 0
    {
      hide PostedOnce, AllHold, HistoryHolds;
      if folder !in states || states[folder].requestId != 0 || blockedByDate {
        return;
      }
      RequestKeeps(states, outstanding, notModified, folder, lastId + 1);
      AskHistory(states, log, folder, lastId + 1);
      SendList(folder);
      hide NextPage, Requested, Owing;
      assert states.Keys == old(states.Keys);
      if folder == Main {
        RefreshBlocked();
      }
    }

    // The body of `requestMoreDialogs`, with the pinned part where that is needed.
    method SendList(folder: Folder)
      requires folder in states && states[folder].requestId == 0 && forall id :: id in outstanding ==> 0 < id <= lastId
      modifies this`lastId, this`outstanding, this`states, this`log
      ensures states == old(states)[folder := Requested(old(states)[folder], old(lastId) + 1)]
      ensures outstanding == Owing(old(outstanding), old(states)[folder], folder, old(lastId) + 1)
      ensures var r := NextPage(folder, old(states)[folder]); log == old(log) + [Asked(folder, r.from, r.count)]
      ensures forall id :: id in outstanding ==> 0 < id <= lastId
    {
      var state := states[folder];
      var count := if state.offsetDate == 0 then FIRST_LOAD else PER_PAGE;
      var from := Offset(state.offsetDate, state.offsetId, state.offsetPeer);
      var id := Send(Request(List, folder, from, count));
      states := states[folder := state.(requestId := id)];
      if !states[folder].pinnedReceived {
        SendPinned(folder);
      }
    }

    method RequestDialogs(folder: Folder)
      requires Valid()
      modifies this`lastId, this`outstanding, this`states, this`mayBlockByDate, this`blockedByDate, this`started,
               this`log
      ensures Valid()
      ensures var begins := folder != Main && folder !in old(states);
              var known := if begins then old(states)[folder := NOTHING_LOADED] else old(states);
              log == old(log) + (if begins then [Began(folder)] else []) + Asks(folder, old(blockedByDate), known)
      ensures var known := if folder != Main && folder !in old(states) then old(states)[folder := NOTHING_LOADED]
                           else old(states);
              MoreAsked(folder, old(blockedByDate), known, old(outstanding), old(lastId), states, outstanding)
      ensures folder in states && !blockedByDate ==> states[folder].requestId != 0
    {
      hide MoreAsked, AllHold, PostedOnce, BlockedNow, HistoryHolds;
      if folder != Main && folder !in states {
        NewLoadKeeps(folder, states, outstanding, notModified, started, posted, loadTill);
        HistoryGrows(states, log, Began(folder), states[folder := NOTHING_LOADED]);
        states := states[folder := NOTHING_LOADED];
        log := log + [Began(folder)];
        started := started + multiset{folder};
      }
      RequestMoreDialogs(folder);
    }

    // `dialogsLoadFinish`.
    method LoadFinish(folder: Folder)
      modifies this`states, this`posted
      ensures var done := folder in old(states)
                          && old(states)[folder].listReceived && old(states)[folder].pinnedReceived;
              if done then states == old(states) - {folder} && posted == old(posted) + [folder]
              else states == old(states) && posted == old(posted)
    {
      if folder !in states || !states[folder].listReceived || !states[folder].pinnedReceived {
        return;
      }
      states := states - {folder};
      posted := posted + [folder];
    }

    // The three kinds of list answers.
    method ApplyList(folder: Folder, answer: ListAnswer)
      requires folder in states
      requires !states[folder].listReceived
      modifies this`states, this`posted
      ensures var left := AfterList(old(states)[folder], answer);
              && states == Updated(old(states), folder, left)
              && posted == old(posted) + (if left.None? then [folder] else [])
    {
      hide LastDate, NextOffset;
      match answer {
        case NotModified =>
          assert states[folder := states[folder]] == states;
        case Everything =>
          states := states[folder := states[folder].(listReceived := true)];
          LoadFinish(folder);
        case Slice(dialogs, messages) =>
          var date, msg, peer := FindOffset(dialogs, messages);
          if date != 0 {
            states := states[folder := states[folder].(offsetDate := date, offsetId := msg, offsetPeer := peer,
                                                       requestId := 0)];
          } else {
            states := states[folder := states[folder].(listReceived := true)];
            LoadFinish(folder);
          }
      }
    }

    // The `done` handler of the list request, up to `requestMoreDialogsIfNeeded`.
    method ListAnswered(id: nat, answer: ListAnswer)
      requires Valid() && id in outstanding && outstanding[id].kind == List
      modifies this
      ensures Valid() && outstanding == old(outstanding) - {id} && loadTill == old(loadTill)
      ensures log == old(log) + Pages(old(outstanding)[id].folder, answer)
      ensures Awaited(id, old(outstanding)[id], old(states)) && old(outstanding)[id].folder !in old(notModified)
      ensures var folder := old(outstanding)[id].folder;
              var left := AfterList(old(states)[folder], answer);
              && states == Updated(old(states), folder, left)
              && posted == old(posted) + (if left.None? then [folder] else [])
              && notModified == old(notModified) + (if answer.NotModified? then {folder} else {})
    {
      hide PostedOnce, AllHold, AfterList, HistoryHolds, SomeDated;
      OwedHasState(states, outstanding, notModified, id);
      var folder := outstanding[id].folder;
      ghost var left := AfterList(states[folder], answer);
      AnswerHistory(states, log, folder, answer);
      outstanding := outstanding - {id};
      ApplyList(folder, answer);
      log := log + Pages(folder, answer);
      if answer.NotModified? {
        notModified := notModified + {folder};
      }
      AnswerKeeps(old(states), old(outstanding), old(notModified), id, left, notModified);
      PostedOnceAfter(folder, old(posted), old(states), left);
      if folder == Main && (Main !in states || !states[Main].listReceived) {
        RefreshBlocked();
      }
    }

    lemma PostedOnceAfter(folder: Folder, was: seq<Folder>, states: States, left: Left)
      requires PostedOnce(started, was, states.Keys) && folder in states
      ensures PostedOnce(started, was + (if left.None? then [folder] else []), Updated(states, folder, left).Keys)
    {
    }

    // The `fail` handler, which reads the load state unchecked.
    method ListFailed(id: nat)
      requires Valid() && id in outstanding && outstanding[id].kind == List
      modifies this`states, this`outstanding
      ensures Valid() && outstanding == old(outstanding) - {id}
      ensures Awaited(id, old(outstanding)[id], old(states))
      ensures var folder := old(outstanding)[id].folder;
              states == old(states)[folder := old(states)[folder].(requestId := 0)]
    {
      hide PostedOnce, AllHold, HistoryHolds;
      OwedHasState(states, outstanding, notModified, id);
      var folder := outstanding[id].folder;
      SameOffsets(states, log, states[folder := states[folder].(requestId := 0)]);
      AnswerKeeps(states, outstanding, notModified, id, Some(states[folder].(requestId := 0)), notModified);
      outstanding := outstanding - {id};
      states := states[folder := states[folder].(requestId := 0)];
      assert states.Keys == old(states.Keys);
    }

    // Both handlers of the pinned request.
    method PinnedAnswered(id: nat)
      requires Valid() && id in outstanding && outstanding[id].kind == Pinned
      modifies this`states, this`outstanding, this`posted
      ensures Valid() && outstanding == old(outstanding) - {id}
      ensures Awaited(id, old(outstanding)[id], old(states))
      ensures var folder := old(outstanding)[id].folder;
              var left := AfterPinned(old(states)[folder]);
              && states == Updated(old(states), folder, left)
              && posted == old(posted) + (if left.None? then [folder] else [])
              && (left.None? ==> folder !in notModified)
    {
      hide PostedOnce, AllHold, HistoryHolds;
      OwedHasState(states, outstanding, notModified, id);
      var folder := outstanding[id].folder;
      ghost var left := AfterPinned(states[folder]);
      SameOffsets(states, log, Updated(states, folder, left));
      outstanding := outstanding - {id};
      if folder in states {
        states := states[folder := states[folder].(pinnedRequestId := 0, pinnedReceived := true)];
        LoadFinish(folder);
      }
      assert states == Updated(old(states), folder, left);
      AnswerKeeps(old(states), old(outstanding), notModified, id, left, notModified);
      assert posted == old(posted) + (if left.None? then [folder] else []);
      PostedOnceAfter(folder, old(posted), old(states), left);
    }

    method RequestMoreDialogsIfNeeded(around: Surroundings)
      requires Valid()
      modifies this`lastId, this`outstanding, this`states, this`mayBlockByDate, this`blockedByDate, this`started,
               this`log
      ensures Valid() && old(log) <= log
      ensures if !around.exceptionsRequested && Main in old(states) && !old(states)[Main].listReceived then
                MoreAsked(Main, old(blockedByDate), old(states), old(outstanding), old(lastId), states, outstanding)
              else if !around.exceptionsRequested && |around.archive| > 0 && around.archiveNeeded then
                MoreAsked(Sub(around.archive[0]), old(blockedByDate), old(states), old(outstanding), old(lastId),
                          states, outstanding)
              else states == old(states) && outstanding == old(outstanding)
    {
      if around.exceptionsRequested {
        return;
      } else if Main in states && !states[Main].listReceived {
        if states[Main].requestId != 0 {
          return;
        }
        RequestDialogs(Main);
      } else if |around.archive| > 0 && around.archiveNeeded {
        RequestMoreDialogs(Sub(around.archive[0]));
      }
    }

    // `_dialogsLoadTill` is set by support mode, or by the user asking for older chats.
    method SetLoadTill(till: int, more: bool)
      requires Valid()
      modifies this`lastId, this`outstanding, this`states, this`mayBlockByDate, this`blockedByDate, this`started,
               this`loadTill, this`log
      ensures Valid() && old(log) <= log
      ensures more && Main in states && !blockedByDate ==> states[Main].requestId != 0
      ensures !more ==> loadTill == till && states == old(states)
      ensures !more ==>
                (blockedByDate <==> Main in states && !states[Main].listReceived && states[Main].requestId == 0
                                    && exists o :: StartsAt(log, Main, o) && 0 < o.date <= till)
    {
      if more && Main !in states {
        return;
      }
      loadTill := till;
      RefreshBlocked();
      if Main in states { OneStart(log, Main, OffsetOf(states[Main])); }
      if more {
        RequestDialogs(Main);
      }
    }

    // `requestDialogs` and the `done` handler as the transport runs it.
    method ListDone(id: nat, answer: ListAnswer, around: Surroundings)
      requires Valid() && id in outstanding && outstanding[id].kind == List
      modifies this
      ensures Valid() && old(log) + Pages(old(outstanding)[id].folder, answer) <= log
      ensures Awaited(id, old(outstanding)[id], old(states)) && old(outstanding)[id].folder !in old(notModified)
      ensures var folder := old(outstanding)[id].folder;
              var left := AfterList(old(states)[folder], answer);
              && posted == old(posted) + (if left.None? then [folder] else [])
              && notModified == old(notModified) + (if answer.NotModified? then {folder} else {})
    {
      ListAnswered(id, answer);
      RequestMoreDialogsIfNeeded(around);
    }

    // One event of a run. Answers to requests that are not owed do not happen.
    method Happen(e: Event)
      requires Valid()
      modifies this
      ensures Valid() && old(notModified) <= notModified && old(log) <= log
      ensures posted == old(posted) || exists f :: f !in old(notModified) && posted == old(posted) + [f]
    {
      hide PostedOnce, AllHold, AfterList, AfterPinned, Awaited, MoreAsked, PinnedAsked, HistoryHolds;
      match e {
        case UserRequest(folder) => RequestDialogs(folder);
        case UserPinned(folder) => RequestPinnedDialogs(folder);
        case UserMore(around) => RequestMoreDialogsIfNeeded(around);
        case LoadTill(till, more) => SetLoadTill(till, more);
        case ListOk(id, answer, around) =>
          if id in outstanding && outstanding[id].kind == List {
            ListDone(id, answer, around);
          }
        case ListFail(id) =>
          if id in outstanding && outstanding[id].kind == List {
            ListFailed(id);
          }
        case PinnedOkOrFail(id) =>
          if id in outstanding && outstanding[id].kind == Pinned {
            PinnedAnswered(id);
          }
      }
    }
  }

  datatype Event =
    | UserRequest(folder: Folder)
    | UserPinned(folder: Folder)
    | UserMore(around: Surroundings)
    | LoadTill(till: int, more: bool)
    | ListOk(id: nat, answer: ListAnswer, around: Surroundings)
    | ListFail(id: nat)
    | PinnedOkOrFail(id: nat)

  /** Every run keeps the invariant; the main list is posted as loaded at most once in it. */
  method AnyRun(events: seq<Event>) returns (d: Dialogs)
    ensures d.Valid()
    ensures multiset(d.posted)[Main] == if Main in d.states then 0 else 1
    ensures forall k: nat :: AskedRightly(d.log, k)
  {
    d := new Dialogs();
    for i := 0 to |events|
      invariant d.Valid() && fresh(d)
    {
      d.Happen(events[i]);
    }
  }

  /** A block by date is by the end of the last page of the main list, and none of it is owed then. */
  lemma BlockedByItsPage(d: Dialogs)
    requires d.Valid() && d.blockedByDate
    ensures exists o :: StartsAt(d.log, Main, o) && 0 < o.date <= d.loadTill
    ensures forall id :: id in d.outstanding && IsFor(d.outstanding[id], List, Main) ==> false
  {
    assert StartsAt(d.log, Main, OffsetOf(d.states[Main]));
    forall id | id in d.outstanding && IsFor(d.outstanding[id], List, Main) ensures false {
      OwedHasState(d.states, d.outstanding, d.notModified, id);
    }
  }

  /** At most one list and one pinned request are owed a folder, and its load state exists meanwhile. */
  lemma OneRequestOfAKind(d: Dialogs, a: nat, b: nat)
    requires d.Valid() && a in d.outstanding && b in d.outstanding
    requires IsFor(d.outstanding[a], d.outstanding[b].kind, d.outstanding[b].folder)
    ensures a == b && d.outstanding[a].folder in d.states
  {
    OwedHasState(d.states, d.outstanding, d.notModified, a);
    OwedHasState(d.states, d.outstanding, d.notModified, b);
  }

  /**
   No load hangs: unless its list was answered with not-modified, a load state has its list owed, or
   its list received and its pinned part owed, or the next call asks for the next page, but for a block by date.
   */
  lemma NoLoadHangs(d: Dialogs, f: Folder)
    requires d.Valid() && f in d.states && f !in d.notModified
    ensures var s := d.states[f];
            || (s.requestId in d.outstanding && IsFor(d.outstanding[s.requestId], List, f))
            || (s.listReceived && s.pinnedRequestId in d.outstanding
                && IsFor(d.outstanding[s.pinnedRequestId], Pinned, f))
            || (s.requestId == 0 && !s.listReceived && (d.blockedByDate ==> BlockedNow(d.states, d.loadTill)))
  {
    assert FolderHolds(f, d.states, d.outstanding, d.notModified);
  }

  /**
   After not-modified a load is stuck: its state waits for a list that is not owed, and `Happen` keeps it so and
   never posts it.
   */
  lemma NotModifiedHangs(d: Dialogs, f: Folder)
    requires d.Valid() && f in d.notModified
    ensures f in d.states && d.states[f].requestId != 0 && !d.states[f].listReceived
    ensures forall id :: id in d.outstanding && d.outstanding[id].folder == f ==> d.outstanding[id].kind == Pinned
  {
    assert FolderHolds(f, d.states, d.outstanding, d.notModified);
  }
}
