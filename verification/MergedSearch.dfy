/**
 A search in a chat and in the chat it was migrated from: two streams of pages, in any interleaving,
 concatenated into one list with one total.
 */
module MergedSearch {

  type Message = int

  type Pages = seq<seq<Message>>

  datatype Found = Found(total: int, messages: seq<Message>, nextToken: string)

  const NOTHING := Found(-1, [], "")

  // One of the two searches: the pages of its answer, how many have come, whether one is asked for.
  datatype Stream = Stream(pages: Pages, next: nat, inFlight: bool)

  // The fields of the merged search. `newFounds` and `nextFounds` count the events fired.
  datatype View = View(
    concated: Found, migratedFirst: Found, waitingForTotal: bool, isFull: bool, newFounds: nat, nextFounds: nat)

  datatype Session = Session(view: View, hasMigrated: bool, token: string, main: Stream, migrated: Stream)

  // The error that a query is empty is no failure here: it is answered as a search of one empty page is.
  datatype Event = More | MainAnswers | MainFails | MigratedAnswers | MigratedFails

  function Flat(pages: Pages): seq<Message> {
    if |pages| == 0 then [] else Flat(pages[..|pages| - 1]) + pages[|pages| - 1]
  }

  // How a server splits an answer: only the one page of an empty answer is empty.
  predicate Proper(pages: Pages) {
    |pages| > 0 && (|pages| > 1 ==> forall k :: 0 <= k < |pages| ==> pages[k] != [])
  }

  // ----- what the handlers do to the fields -----

  function Added(v: View, messages: seq<Message>): View {
    v.(concated := v.concated.(messages := v.concated.messages + messages))
  }

  function CheckedFull(v: View, total: int): View {
    if total == |v.concated.messages| then Added(v.(isFull := true), v.migratedFirst.messages) else v
  }

  function CheckedTotal(v: View): View {
    if !v.waitingForTotal then v.(newFounds := v.newFounds + 1)
    else if v.concated.total >= 0 && v.migratedFirst.total >= 0 then
      v.(waitingForTotal := false, newFounds := v.newFounds + 1,
      concated := v.concated.(total := v.concated.total + v.migratedFirst.total))
    else v
  }

  function OnMain(v: View, data: Found): View {
    if data.nextToken == v.concated.nextToken then
      var w := CheckedFull(Added(v, data.messages), data.total);
      w.(nextFounds := w.nextFounds + 1)
    else CheckedTotal(CheckedFull(v.(concated := data), data.total))
  }

  function OnMigrated(v: View, data: Found): View {
    var w := if v.isFull then Added(v, data.messages) else v;
    if data.nextToken == w.migratedFirst.nextToken then w.(nextFounds := w.nextFounds + 1)
    else CheckedTotal(w.(migratedFirst := data))
  }

  // ----- a whole session: user, server and failures -----

  function Asked(s: Stream): Stream {
    s.(inFlight := true)
  }

  function Failed(s: Stream): Stream {
    s.(inFlight := false)
  }

  function Page(s: Stream): seq<Message> {
    if s.next < |s.pages| then s.pages[s.next] else []
  }

  function Data(s: Stream, token: string): Found {
    Found(|Flat(s.pages)|, Page(s), token)
  }

  function Turned(s: Stream): Stream {
    s.(inFlight := false, next := if s.next < |s.pages| then s.next + 1 else s.next)
  }

  function Step(s: Session, e: Event): Session {
    match e
    case More =>
      if |s.view.concated.messages| == s.view.concated.total then s
      else if s.hasMigrated && s.view.isFull then s.(migrated := Asked(s.migrated))
      else s.(main := Asked(s.main))
    case MainAnswers =>
      if s.main.inFlight then s.(view := OnMain(s.view, Data(s.main, s.token)), main := Turned(s.main)) else s
    case MainFails => s.(main := Failed(s.main))
    case MigratedAnswers =>
      if s.hasMigrated && s.migrated.inFlight then
        s.(view := OnMigrated(s.view, Data(s.migrated, s.token)), migrated := Turned(s.migrated))
      else s
    case MigratedFails => s.(migrated := Failed(s.migrated))
  }

  function Run(s: Session, events: seq<Event>): Session {
    if |events| == 0 then s else Step(Run(s, events[..|events| - 1]), events[|events| - 1])
  }

  function Cleared(v: View): View {
    v.(concated := NOTHING, migratedFirst := NOTHING)
  }

  // A search started on cleared fields, whatever an earlier one left in the others.
  function Started(v: View, hasMigrated: bool, token: string, main: Pages, migrated: Pages): Session {
    Session(Cleared(v).(waitingForTotal := hasMigrated || v.waitingForTotal), hasMigrated, token,
            Stream(main, 0, true), Stream(migrated, 0, hasMigrated))
  }

  // ----- what is promised -----

  predicate BothBegan(s: Session) {
    s.main.next > 0 && (s.hasMigrated ==> s.migrated.next > 0)
  }

  function Expected(s: Session): seq<Message>
    requires s.main.next <= |s.main.pages| && s.migrated.next <= |s.migrated.pages|
  {
    Flat(s.main.pages[..s.main.next])
    + if s.hasMigrated && s.main.next == |s.main.pages| then Flat(s.migrated.pages[..s.migrated.next]) else []
  }

  function ExpectedTotal(s: Session): int {
    if s.main.next == 0 then -1
    else if s.hasMigrated && s.migrated.next > 0 then |Flat(s.main.pages)| + |Flat(s.migrated.pages)|
    else |Flat(s.main.pages)|
  }

  // The list has the answers that came, the chat's own first, and the total is that of both searches.
  // `base` is what the counters were when the search began.
  ghost predicate Right(s: Session, base: View) {
    var v, i, j := s.view, s.main.next, s.migrated.next;
    && i <= |s.main.pages| && j <= |s.migrated.pages|
    && v.concated.messages == Expected(s)
    && v.concated.total == ExpectedTotal(s)
    && v.newFounds == base.newFounds + (if BothBegan(s) then 1 else 0)
    && v.nextFounds == base.nextFounds + (if i > 0 then i - 1 else 0) + (if j > 0 then j - 1 else 0)
  }

  ghost predicate Invariant(s: Session, base: View) {
    var v, i, j := s.view, s.main.next, s.migrated.next;
    && Right(s, base)
    && s.token != "" && Proper(s.main.pages) && Proper(s.migrated.pages)
    && (v.concated.nextToken == if i == 0 then "" else s.token)
    && (v.migratedFirst == if j == 0 then NOTHING
                           else Found(|Flat(s.migrated.pages)|, s.migrated.pages[0], s.token))
    && (s.hasMigrated ==> (v.isFull <==> i == |s.main.pages|))
    && (v.waitingForTotal <==> s.hasMigrated && !BothBegan(s))
    && (!s.hasMigrated ==> j == 0)
    && (i < |s.main.pages| ==> j <= 1)
    && (s.main.inFlight ==> i < |s.main.pages|)
    && (s.migrated.inFlight ==> j < |s.migrated.pages| && (i < |s.main.pages| ==> j == 0))
  }

  ghost predicate AlwaysRight(v: View, hasMigrated: bool, token: string) {
    forall main, migrated, events ::
      Proper(main) && Proper(migrated) ==> Right(Run(Started(v, hasMigrated, token, main, migrated), events), v)
  }

  // ----- lists of pages -----

  lemma {:induction false} FlatOfPrefix(pages: Pages, i: nat)
    requires i <= |pages|
    ensures |Flat(pages[..i])| <= |Flat(pages)|
    decreases |pages|
  {
    if i < |pages| {
      FlatOfPrefix(pages[..|pages| - 1], i);
      assert pages[..|pages| - 1][..i] == pages[..i];
    } else {
      assert pages[..i] == pages;
    }
  }

  // The list is as long as the total exactly when every page has come.
  lemma FullExactlyAtTheEnd(pages: Pages, i: nat)
    requires Proper(pages) && 0 < i <= |pages|
    ensures |Flat(pages[..i])| == |Flat(pages)| <==> i == |pages|
  {
    if i < |pages| {
      FlatOfPrefix(pages, i + 1);
      FlatTurns(pages, i);
    } else {
      assert pages[..i] == pages;
    }
  }

  lemma FlatTurns(pages: Pages, i: nat)
    requires i < |pages|
    ensures Flat(pages[..i + 1]) == Flat(pages[..i]) + pages[i]
  {
    assert pages[..i + 1][..i] == pages[..i];
  }

  lemma FlatOfNone(pages: Pages)
    ensures Flat(pages[..0]) == []
  {
  }

  // ----- every step keeps the invariant -----

  lemma FirstMainKeeps(s: Session, base: View)
    requires Invariant(s, base) && s.main.inFlight && s.main.next == 0
    ensures Invariant(Step(s, MainAnswers), base)
  {
    FullExactlyAtTheEnd(s.main.pages, 1);
    FlatTurns(s.main.pages, 0);
    if s.migrated.next > 0 { FlatTurns(s.migrated.pages, 0); }
    FlatOfNone(s.main.pages);
    FlatOfNone(s.migrated.pages);
    hide Flat;
  }

  lemma NextMainKeeps(s: Session, base: View)
    requires Invariant(s, base) && s.main.inFlight && s.main.next > 0
    ensures Invariant(Step(s, MainAnswers), base)
  {
    FullExactlyAtTheEnd(s.main.pages, s.main.next + 1);
    FlatTurns(s.main.pages, s.main.next);
    if s.migrated.next > 0 { FlatTurns(s.migrated.pages, 0); }
    FlatOfNone(s.migrated.pages);
    hide Flat;
    var t, v := Step(s, MainAnswers), Added(s.view, Page(s.main));
    assert v.concated.messages == Flat(s.main.pages[..t.main.next]);
    if t.main.next < |s.main.pages| {
      assert t.view == v.(nextFounds := v.nextFounds + 1);
    } else {
      assert t.view.concated.messages == v.concated.messages + v.migratedFirst.messages;
    }
  }

  lemma FirstMigratedKeeps(s: Session, base: View)
    requires Invariant(s, base) && s.hasMigrated && s.migrated.inFlight && s.migrated.next == 0
    ensures Invariant(Step(s, MigratedAnswers), base)
  {
    FlatTurns(s.migrated.pages, 0);
    FlatOfNone(s.migrated.pages);
    hide Flat;
  }

  lemma NextMigratedKeeps(s: Session, base: View)
    requires Invariant(s, base) && s.hasMigrated && s.migrated.inFlight && s.migrated.next > 0
    ensures Invariant(Step(s, MigratedAnswers), base)
  {
    FlatTurns(s.migrated.pages, s.migrated.next);
    hide Flat;
  }

  lemma MoreKeeps(s: Session, base: View)
    requires Invariant(s, base)
    ensures Invariant(Step(s, More), base)
  {
    var i, j := s.main.next, s.migrated.next;
    if i > 0 { FullExactlyAtTheEnd(s.main.pages, i); }
    if j > 0 { FullExactlyAtTheEnd(s.migrated.pages, j); }
  }

  lemma StepKeeps(s: Session, base: View, e: Event)
    requires Invariant(s, base)
    ensures Invariant(Step(s, e), base)
  {
    match e
    case More => MoreKeeps(s, base);
    case MainAnswers =>
      if s.main.inFlight {
        if s.main.next == 0 { FirstMainKeeps(s, base); } else { NextMainKeeps(s, base); }
      } else {
        assert Step(s, e) == s;
      }
    case MigratedAnswers =>
      if s.hasMigrated && s.migrated.inFlight {
        if s.migrated.next == 0 { FirstMigratedKeeps(s, base); } else { NextMigratedKeeps(s, base); }
      } else {
        assert Step(s, e) == s;
      }
    case MainFails => FailureKeeps(s, base);
    case MigratedFails => FailureKeeps(s, base);
  }

  lemma FailureKeeps(s: Session, base: View)
    requires Invariant(s, base)
    ensures Invariant(Step(s, MainFails), base) && Invariant(Step(s, MigratedFails), base)
  {
  }

  lemma {:induction false} RunKeeps(s: Session, base: View, events: seq<Event>)
    requires Invariant(s, base)
    ensures Invariant(Run(s, events), base)
    decreases |events|
  {
    hide Invariant, Step;
    if |events| > 0 {
      RunKeeps(s, base, events[..|events| - 1]);
      StepKeeps(Run(s, events[..|events| - 1]), base, events[|events| - 1]);
    }
  }

  lemma {:induction false} RunIsOf(s: Session, events: seq<Event>)
    ensures var t := Run(s, events);
            t.hasMigrated == s.hasMigrated && t.main.pages == s.main.pages && t.migrated.pages == s.migrated.pages
    decreases |events|
  {
    if |events| > 0 { RunIsOf(s, events[..|events| - 1]); }
  }

  // ----- the main results -----

  predicate CleanStart(v: View, hasMigrated: bool) {
    if hasMigrated then !v.isFull else !v.waitingForTotal
  }

  lemma StartKeeps(v: View, hasMigrated: bool, token: string, main: Pages, migrated: Pages)
    requires CleanStart(v, hasMigrated) && token != "" && Proper(main) && Proper(migrated)
    ensures Invariant(Started(v, hasMigrated, token, main, migrated), v)
  {
  }

  // No interleaving of a search goes wrong exactly when an earlier search left no flag behind.
  lemma SearchIsRightIff(v: View, hasMigrated: bool, token: string)
    requires token != ""
    ensures AlwaysRight(v, hasMigrated, token) <==> CleanStart(v, hasMigrated)
  {
    if CleanStart(v, hasMigrated) {
      forall main, migrated, events | Proper(main) && Proper(migrated)
        ensures Right(Run(Started(v, hasMigrated, token, main, migrated), events), v)
      {
        StartKeeps(v, hasMigrated, token, main, migrated);
        RunKeeps(Started(v, hasMigrated, token, main, migrated), v, events);
      }
    } else if hasMigrated {
      StaleFullMixesPages(v, token);
    } else {
      StaleWaitHidesResults(v, token);
    }
  }

  // With the flag of an earlier full list kept, the second page of the chat is preceded by messages of
  // the other one.
  lemma StaleFullMixesPages(v: View, token: string)
    requires v.isFull && token != ""
    ensures var s := Run(Started(v, true, token, [[1], [2]], [[3]]), [MainAnswers, MigratedAnswers]);
            s.view.concated.messages == [1, 3] && !Right(s, v)
    ensures !AlwaysRight(v, true, token)
  {
    var main, migrated: Pages := [[1], [2]], [[3]];
    var start, events := Started(v, true, token, main, migrated), [MainAnswers, MigratedAnswers];
    assert events[..1] == [MainAnswers] && [MainAnswers][..0] == [];
    assert Flat(main) == [1, 2] && Flat(migrated) == [3] by {
      assert main[..1] == [[1]] && [[1]][..0] == [] && migrated[..0] == [];
    }
    var one := Step(start, MainAnswers);
    assert Run(start, [MainAnswers]) == one by { assert Run(start, []) == start; }
    assert one.view.concated.messages == [1] && one.view.isFull;
    var two := Step(one, MigratedAnswers);
    assert Run(start, events) == two;
    assert two.view.concated.messages == [1, 3];
    assert Expected(two) == [1] by { assert main[..1] == [[1]] && [[1]][..0] == []; }
    assert Proper(main) && Proper(migrated);
  }

  // A search left waiting for a stream that is gone keeps every later one from being shown.
  lemma StaleWaitHidesResults(v: View, token: string)
    requires v.waitingForTotal && token != ""
    ensures var s := Run(Started(v, false, token, [[1]], [[3]]), [MainAnswers]);
            s.view.newFounds == v.newFounds && !Right(s, v)
    ensures !AlwaysRight(v, false, token)
  {
  }

  predicate Complete(s: Session) {
    BothBegan(s) && |s.view.concated.messages| == s.view.concated.total
  }

  // When the list is as long as the total, nothing is lost, doubled or out of order.
  lemma CompleteIsWhole(s: Session, base: View)
    requires Invariant(s, base) && Complete(s)
    ensures s.view.concated.messages
            == Flat(s.main.pages) + if s.hasMigrated then Flat(s.migrated.pages) else []
  {
    var i, j := s.main.next, s.migrated.next;
    FullExactlyAtTheEnd(s.main.pages, i);
    if j > 0 { FullExactlyAtTheEnd(s.migrated.pages, j); }
    FlatOfPrefix(s.main.pages, i);
    assert s.main.pages[..|s.main.pages|] == s.main.pages;
    assert s.migrated.pages[..|s.migrated.pages|] == s.migrated.pages;
  }

  // Nothing is asked for, scrolling asks for nothing, and yet the answer is not all there.
  predicate Hangs(s: Session) {
    !s.main.inFlight && !s.migrated.inFlight && Step(s, More) == s && !Complete(s)
  }

  // A search is stuck exactly when the first page of the other chat failed and the chat itself is done.
  lemma HangsExactlyWhen(s: Session, base: View)
    requires Invariant(s, base)
    ensures Hangs(s) <==>
            (s.hasMigrated && s.migrated.next == 0 && !s.migrated.inFlight && s.main.next == |s.main.pages|)
  {
    var i, j := s.main.next, s.migrated.next;
    if i > 0 { FullExactlyAtTheEnd(s.main.pages, i); }
    if j > 0 { FullExactlyAtTheEnd(s.migrated.pages, j); }
    assert s.main.pages[..0] == [];
    assert s.migrated.pages[..0] == [];
  }

  // A request made by scrolling brings a page that is not there yet.
  lemma MoreBringsMore(s: Session, base: View)
    requires Invariant(s, base) && BothBegan(s) && !Complete(s) && !s.main.inFlight && !s.migrated.inFlight
    ensures var t := Step(s, More);
            || (t.main.inFlight && |Step(t, MainAnswers).view.concated.messages| > |s.view.concated.messages|)
            || (t.migrated.inFlight && t.hasMigrated
                && |Step(t, MigratedAnswers).view.concated.messages| > |s.view.concated.messages|)
  {
    var i, j := s.main.next, s.migrated.next;
    FullExactlyAtTheEnd(s.main.pages, i);
    if j > 0 { FullExactlyAtTheEnd(s.migrated.pages, j); }
    HangsExactlyWhen(s, base);
  }

  // ----- the object -----

  class MessagesSearchMerged {
    var concatedFound: Found
    var migratedFirstFound: Found
    var waitingForTotal: bool
    var isFull: bool
    var newFounds: nat
    var nextFounds: nat
    var token: string
    var apiSearch: Stream
    var migratedSearch: Stream
    var hasMigrated: bool

    ghost function Now(): View
      reads this
    {
      View(concatedFound, migratedFirstFound, waitingForTotal, isFull, newFounds, nextFounds)
    }

    ghost function All(): Session
      reads this
    {
      Session(Now(), hasMigrated, token, apiSearch, migratedSearch)
    }

    constructor (migrated: bool)
      ensures hasMigrated == migrated
      ensures Now() == View(NOTHING, NOTHING, false, false, 0, 0) && CleanStart(Now(), hasMigrated)
    {
      concatedFound, migratedFirstFound := NOTHING, NOTHING;
      waitingForTotal, isFull, newFounds, nextFounds := false, false, 0, 0;
      token, hasMigrated := "", migrated;
      apiSearch, migratedSearch := Stream([[]], 0, false), Stream([[]], 0, false);
    }

    method AddFound(data: Found)
      modifies this`concatedFound
      ensures Now() == Added(old(Now()), data.messages)
    {
      for i := 0 to |data.messages|
        invariant Now() == Added(old(Now()), data.messages[..i])
      {
        concatedFound := concatedFound.(messages := concatedFound.messages + [data.messages[i]]);
        assert data.messages[..i + 1] == data.messages[..i] + [data.messages[i]];
      }
      assert data.messages[..|data.messages|] == data.messages;
    }

    method CheckFull(data: Found)
      modifies this`concatedFound, this`isFull
      ensures Now() == CheckedFull(old(Now()), data.total)
    {
      if data.total == |concatedFound.messages| {
        isFull := true;
        AddFound(migratedFirstFound);
      }
    }

    method CheckWaitingForTotal()
      modifies this`concatedFound, this`waitingForTotal, this`newFounds
      ensures Now() == CheckedTotal(old(Now()))
    {
      if waitingForTotal {
        if concatedFound.total >= 0 && migratedFirstFound.total >= 0 {
          waitingForTotal := false;
          concatedFound := concatedFound.(total := concatedFound.total + migratedFirstFound.total);
          newFounds := newFounds + 1;
        }
      } else {
        newFounds := newFounds + 1;
      }
    }

    // The handlers of the two streams.
    method MainFound(data: Found)
      modifies this`concatedFound, this`isFull, this`waitingForTotal, this`newFounds, this`nextFounds
      ensures Now() == OnMain(old(Now()), data)
    {
      if data.nextToken == concatedFound.nextToken {
        AddFound(data);
        CheckFull(data);
        nextFounds := nextFounds + 1;
      } else {
        concatedFound := data;
        CheckFull(data);
        CheckWaitingForTotal();
      }
    }

    method MigratedFound(data: Found)
      modifies this`concatedFound, this`migratedFirstFound, this`waitingForTotal, this`newFounds, this`nextFounds
      ensures Now() == OnMigrated(old(Now()), data)
    {
      if isFull {
        AddFound(data);
      }
      if data.nextToken == migratedFirstFound.nextToken {
        nextFounds := nextFounds + 1;
      } else {
        migratedFirstFound := data;
        CheckWaitingForTotal();
      }
    }

    // The pages are what the two chats will answer to this search.
    method Search(query: string, main: Pages, migrated: Pages)
      modifies this
      ensures hasMigrated == old(hasMigrated)
      ensures var v := old(Now());
              All() == Session(v.(waitingForTotal := hasMigrated || v.waitingForTotal), hasMigrated, query,
                               Stream(main, 0, true), Stream(migrated, 0, hasMigrated))
    {
      token := query;
      migratedSearch := Stream(migrated, 0, hasMigrated);
      if hasMigrated {
        waitingForTotal := true;
      }
      apiSearch := Stream(main, 0, true);
    }

    method Clear()
      modifies this`concatedFound, this`migratedFirstFound
      ensures Now() == Cleared(old(Now()))
    {
      concatedFound, migratedFirstFound := NOTHING, NOTHING;
    }

    method DisableMigrated()
      modifies this`hasMigrated
      ensures All() == old(All()).(hasMigrated := false)
    {
      hasMigrated := false;
    }

    method SearchMore()
      modifies this`apiSearch, this`migratedSearch
      ensures apiSearch == if hasMigrated && isFull then old(apiSearch) else Asked(old(apiSearch))
      ensures migratedSearch == if hasMigrated && isFull then Asked(old(migratedSearch)) else old(migratedSearch)
    {
      if hasMigrated && isFull {
        migratedSearch := Asked(migratedSearch);
      } else {
        apiSearch := Asked(apiSearch);
      }
    }

    // One thing that happens: the user scrolls, a stream answers or its request fails.
    method Happen(e: Event)
      modifies this
      ensures All() == Step(old(All()), e)
    {
      match e
      case More =>
        if |concatedFound.messages| != concatedFound.total {
          SearchMore();
        }
      case MainAnswers =>
        if apiSearch.inFlight {
          MainFound(Data(apiSearch, token));
          apiSearch := Turned(apiSearch);
        }
      case MainFails => apiSearch := Failed(apiSearch);
      case MigratedAnswers =>
        if hasMigrated && migratedSearch.inFlight {
          MigratedFound(Data(migratedSearch, token));
          migratedSearch := Turned(migratedSearch);
        }
      case MigratedFails => migratedSearch := Failed(migratedSearch);
    }

    // A new search as the search panel starts it, and everything that happens to it.
    method AnyRun(query: string, main: Pages, migrated: Pages, events: seq<Event>)
      requires query != "" && Proper(main) && Proper(migrated)
      modifies this
      ensures All() == Run(Started(old(Now()), old(hasMigrated), query, main, migrated), events)
      ensures old(CleanStart(Now(), hasMigrated)) ==> Invariant(All(), old(Now()))
      ensures old(CleanStart(Now(), hasMigrated)) && Complete(All()) ==>
                concatedFound.messages == Flat(main) + if hasMigrated then Flat(migrated) else []
    {
      Clear();
      Search(query, main, migrated);
      ghost var start := All();
      for i := 0 to |events|
        invariant hasMigrated == old(hasMigrated)
        invariant All() == Run(start, events[..i])
      {
        Happen(events[i]);
        assert events[..i + 1][..i] == events[..i];
      }
      assert events[..|events|] == events;
      if old(CleanStart(Now(), hasMigrated)) {
        StartKeeps(old(Now()), hasMigrated, query, main, migrated);
        RunKeeps(start, old(Now()), events);
        RunIsOf(start, events);
        if Complete(All()) { CompleteIsWhole(All(), old(Now())); }
      }
    }
  }
}
