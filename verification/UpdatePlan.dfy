/**
 The updaters' walk over an unpacked update: which files are to be copied where, which directories are
 needed, and whether the updater itself is among the files.
 */
module UpdatePlan {

  type Content = int

  // What a directory listing shows; of an `Unknown` entry not even the kind could be found out.
  datatype Node = File(content: Content) | Dir(entries: seq<Entry>) | Unknown

  datatype Entry = Entry(name: string, node: Node)

  datatype Copy = Copy(from: string, to: string, content: Content)

  // `hasReady` says whether the ready file of the new layout could be opened.
  datatype Setup = Setup(
    windows: bool, workDir: string, hasReady: bool, updateTo: string, updaterName: string, exeName: string)
  {
    function Sep(): char {
      if windows then '\\' else '/'
    }

    function Binary(): string {
      if windows then "Telegram.exe" else "Telegram"
    }

    function Updates(): string {
      workDir + "tupdates" + [Sep()]
    }

    function UpdDir(): string {
      Updates() + if hasReady then "temp" else "ready"
    }

    function ReadyPath(): string {
      Updates() + "temp" + [Sep()] + "ready"
    }

    function TdataDir(): string {
      UpdDir() + [Sep()] + "tdata"
    }
  }

  // A directory still to be read.
  datatype Item = Item(path: string, entries: seq<Entry>)

  // ----- names and paths -----

  function LowerChar(c: char): char {
    if 'A' <= c <= 'Z' then c + 32 as char else c
  }

  function Lower(s: string): (r: string)
    ensures |r| == |s|
  {
    seq(|s|, i requires 0 <= i < |s| => LowerChar(s[i]))
  }

  predicate Equal(a: string, b: string) {
    Lower(a) == Lower(b)
  }

  // Letter by letter the same, but for the case of ASCII letters.
  lemma EqualIs(a: string, b: string)
    ensures Equal(a, b) <==> |a| == |b| && forall i :: 0 <= i < |a| ==> SameLetter(a[i], b[i])
  {
    if Equal(a, b) {
      forall i | 0 <= i < |a| ensures SameLetter(a[i], b[i]) {
        assert Lower(a)[i] == Lower(b)[i];
      }
    }
  }

  predicate SameLetter(c: char, d: char) {
    || c == d
    || ('A' <= c <= 'Z' && d as int == c as int + 32)
    || ('A' <= d <= 'Z' && c as int == d as int + 32)
  }

  lemma WhereUpdatesAre(s: Setup)
    ensures s.windows ==> s.UpdDir() == s.workDir + if s.hasReady then "tupdates\\temp" else "tupdates\\ready"
    ensures !s.windows ==> s.UpdDir() == s.workDir + if s.hasReady then "tupdates/temp" else "tupdates/ready"
    ensures s.ReadyPath() == s.workDir + if s.windows then "tupdates\\temp\\ready" else "tupdates/temp/ready"
    ensures s.Binary() == if s.windows then "Telegram.exe" else "Telegram"
  {
  }

  // Names as the file system tells them apart: Windows does not by letter case.
  function Fold(s: Setup, x: string): (r: string)
    ensures |r| == |x|
  {
    if s.windows then Lower(x) else x
  }

  predicate ProperName(s: Setup, name: string) {
    name != "" && s.Sep() !in name && '/' !in name
  }

  predicate ProperTree(s: Setup, entries: seq<Entry>) {
    && (forall i :: 0 <= i < |entries| ==>
          ProperName(s, entries[i].name)
          && (entries[i].node.Dir? ==> ProperTree(s, entries[i].node.entries)))
    && forall i, j :: 0 <= i < j < |entries| ==> Fold(s, entries[i].name) != Fold(s, entries[j].name)
  }

  function Child(s: Setup, dir: string, name: string): string {
    dir + [s.Sep()] + name
  }

  predicate Inside(s: Setup, dir: string) {
    |dir| >= |s.UpdDir()|
  }

  function Relative(s: Setup, path: string): string
    requires |path| > |s.UpdDir()|
  {
    path[|s.UpdDir()| + 1..]
  }

  predicate IsTdata(s: Setup, path: string) {
    var t := s.TdataDir();
    |path| >= |t| && path[..|t|] == t && (|path| == |t| || path[|t|] == '/')
  }

  predicate IsReady(s: Setup, path: string) {
    if s.windows then Equal(path, s.ReadyPath()) else path == s.ReadyPath()
  }

  predicate IsUpdater(s: Setup, path: string)
    requires |path| > |s.UpdDir()|
  {
    Equal(s.updateTo + Relative(s, path), s.updaterName)
  }

  function TargetOf(s: Setup, path: string): string
    requires |path| > |s.UpdDir()|
  {
    var to := s.updateTo + Relative(s, path);
    if Equal(to, s.updateTo + s.Binary()) && s.exeName != s.Binary() then s.updateTo + s.exeName else to
  }

  function ForcedOf(s: Setup, path: string): multiset<string> {
    if |path| > |s.UpdDir()| + 1 then multiset{s.updateTo + Relative(s, path) + [s.Sep()]} else multiset{}
  }

  // ----- the whole tree, by recursion -----

  ghost function FilesIn(s: Setup, dir: string, entries: seq<Entry>): multiset<Copy>
    requires Inside(s, dir)
    decreases entries, 1
  {
    if |entries| == 0 then multiset{}
    else FilesIn(s, dir, entries[..|entries| - 1]) + FilesOf(s, dir, entries[|entries| - 1])
  }

  ghost function FilesOf(s: Setup, dir: string, e: Entry): multiset<Copy>
    requires Inside(s, dir)
    decreases e, 0
  {
    var path := Child(s, dir, e.name);
    if IsTdata(s, path) then multiset{}
    else match e.node
      case File(content) =>
        if IsReady(s, path) then multiset{} else multiset{Copy(path, TargetOf(s, path), content)}
      case Dir(entries) => FilesIn(s, path, entries)
      case Unknown => multiset{}
  }

  ghost function DirsIn(s: Setup, dir: string, entries: seq<Entry>): multiset<string>
    requires Inside(s, dir)
    decreases entries, 1
  {
    if |entries| == 0 then multiset{}
    else DirsIn(s, dir, entries[..|entries| - 1]) + DirsOf(s, dir, entries[|entries| - 1])
  }

  ghost function DirsOf(s: Setup, dir: string, e: Entry): multiset<string>
    requires Inside(s, dir)
    decreases e, 0
  {
    var path := Child(s, dir, e.name);
    if IsTdata(s, path) || !e.node.Dir? then multiset{}
    else ForcedOf(s, path) + DirsIn(s, path, e.node.entries)
  }

  ghost predicate UpdaterIn(s: Setup, dir: string, entries: seq<Entry>)
    requires Inside(s, dir)
    decreases entries, 1
  {
    |entries| > 0
    && (UpdaterIn(s, dir, entries[..|entries| - 1]) || UpdaterAt(s, dir, entries[|entries| - 1]))
  }

  ghost predicate UpdaterAt(s: Setup, dir: string, e: Entry)
    requires Inside(s, dir)
    decreases e, 0
  {
    var path := Child(s, dir, e.name);
    && !IsTdata(s, path)
    && match e.node
       case File(_) => IsUpdater(s, path)
       case Dir(entries) => UpdaterIn(s, path, entries)
       case Unknown => false
  }

  ghost function Weight(entries: seq<Entry>): nat {
    if |entries| == 0 then 1
    else
      var last := entries[|entries| - 1].node;
      Weight(entries[..|entries| - 1]) + if last.Dir? then Weight(last.entries) else 0
  }

  // ----- the directories that wait -----

  predicate AllInside(s: Setup, dirs: seq<Item>) {
    forall i :: 0 <= i < |dirs| ==> Inside(s, dirs[i].path)
  }

  ghost function FilesWaiting(s: Setup, dirs: seq<Item>): multiset<Copy>
    requires AllInside(s, dirs)
  {
    if |dirs| == 0 then multiset{}
    else FilesWaiting(s, dirs[..|dirs| - 1]) + FilesIn(s, dirs[|dirs| - 1].path, dirs[|dirs| - 1].entries)
  }

  ghost function DirsWaiting(s: Setup, dirs: seq<Item>): multiset<string>
    requires AllInside(s, dirs)
  {
    if |dirs| == 0 then multiset{}
    else
      var last := dirs[|dirs| - 1];
      DirsWaiting(s, dirs[..|dirs| - 1]) + ForcedOf(s, last.path) + DirsIn(s, last.path, last.entries)
  }

  ghost predicate UpdaterWaiting(s: Setup, dirs: seq<Item>)
    requires AllInside(s, dirs)
  {
    |dirs| > 0
    && (UpdaterWaiting(s, dirs[..|dirs| - 1]) || UpdaterIn(s, dirs[|dirs| - 1].path, dirs[|dirs| - 1].entries))
  }

  ghost function WeightWaiting(dirs: seq<Item>): nat {
    if |dirs| == 0 then 0 else WeightWaiting(dirs[..|dirs| - 1]) + Weight(dirs[|dirs| - 1].entries)
  }

  lemma {:induction false} WaitingAppend(s: Setup, a: seq<Item>, b: seq<Item>)
    requires AllInside(s, a) && AllInside(s, b)
    ensures FilesWaiting(s, a + b) == FilesWaiting(s, a) + FilesWaiting(s, b)
    ensures DirsWaiting(s, a + b) == DirsWaiting(s, a) + DirsWaiting(s, b)
    ensures UpdaterWaiting(s, a + b) <==> UpdaterWaiting(s, a) || UpdaterWaiting(s, b)
    ensures WeightWaiting(a + b) == WeightWaiting(a) + WeightWaiting(b)
    decreases |b|
  {
    hide FilesIn, DirsIn, UpdaterIn, Weight, ForcedOf, Inside;
    if |b| == 0 {
      assert a + b == a;
    } else {
      var front := b[..|b| - 1];
      WaitingAppend(s, a, front);
      assert (a + b)[..|a + b| - 1] == a + front && (a + b)[|a + b| - 1] == b[|b| - 1];
    }
  }

  lemma {:induction false} WaitingOne(s: Setup, item: Item)
    requires Inside(s, item.path)
    ensures FilesWaiting(s, [item]) == FilesIn(s, item.path, item.entries)
    ensures DirsWaiting(s, [item]) == ForcedOf(s, item.path) + DirsIn(s, item.path, item.entries)
    ensures UpdaterWaiting(s, [item]) <==> UpdaterIn(s, item.path, item.entries)
    ensures WeightWaiting([item]) == Weight(item.entries)
  {
  }

  predicate AllProper(s: Setup, dirs: seq<Item>) {
    forall i :: 0 <= i < |dirs| ==> ProperTree(s, dirs[i].entries)
  }

  // What one directory adds to what waits.
  ghost predicate Scanned(s: Setup, dir: string, entries: seq<Entry>, files: seq<Copy>, subdirs: seq<Item>)
    requires Inside(s, dir)
  {
    && AllInside(s, subdirs)
    && multiset(files) + FilesWaiting(s, subdirs) == FilesIn(s, dir, entries)
    && DirsWaiting(s, subdirs) == DirsIn(s, dir, entries)
    && (UpdaterWaiting(s, subdirs) <==> UpdaterIn(s, dir, entries))
    && WeightWaiting(subdirs) < Weight(entries)
    && AllChildren(s, dir, subdirs)
  }

  ghost predicate AllChildren(s: Setup, dir: string, subdirs: seq<Item>) {
    forall i :: 0 <= i < |subdirs| ==> IsChild(s, dir, subdirs[i].path)
  }

  ghost predicate IsChild(s: Setup, dir: string, path: string) {
    exists name :: ProperName(s, name) && path == Child(s, dir, name)
  }

  lemma {:induction false} ScanNothing(s: Setup, dir: string)
    requires Inside(s, dir)
    ensures Scanned(s, dir, [], [], [])
  {
  }

  lemma {:induction false} InAppend(s: Setup, dir: string, entries: seq<Entry>, e: Entry)
    requires Inside(s, dir)
    ensures FilesIn(s, dir, entries + [e]) == FilesIn(s, dir, entries) + FilesOf(s, dir, e)
    ensures DirsIn(s, dir, entries + [e]) == DirsIn(s, dir, entries) + DirsOf(s, dir, e)
    ensures UpdaterIn(s, dir, entries + [e]) <==> UpdaterIn(s, dir, entries) || UpdaterAt(s, dir, e)
    ensures Weight(entries + [e]) == Weight(entries) + if e.node.Dir? then Weight(e.node.entries) else 0
  {
  }

  lemma {:induction false} ScanFile(s: Setup, dir: string, entries: seq<Entry>, files: seq<Copy>, subdirs: seq<Item>,
                                    e: Entry, added: seq<Copy>)
    requires Inside(s, dir) && Scanned(s, dir, entries, files, subdirs)
    requires !UpdaterAt(s, dir, e) && DirsOf(s, dir, e) == multiset{} && multiset(added) == FilesOf(s, dir, e)
    ensures Scanned(s, dir, entries + [e], files + added, subdirs)
  {
  }

  lemma {:induction false} DirOf(s: Setup, dir: string, e: Entry)
    requires Inside(s, dir) && e.node.Dir? && !IsTdata(s, Child(s, dir, e.name))
    ensures var item := Item(Child(s, dir, e.name), e.node.entries);
            && FilesOf(s, dir, e) == FilesWaiting(s, [item])
            && DirsOf(s, dir, e) == DirsWaiting(s, [item])
            && (UpdaterAt(s, dir, e) <==> UpdaterWaiting(s, [item]))
            && WeightWaiting([item]) == Weight(e.node.entries)
  {
  }

  lemma MoreChildren(s: Setup, dir: string, subdirs: seq<Item>, name: string, entries: seq<Entry>)
    requires AllInside(s, subdirs) && AllChildren(s, dir, subdirs) && Inside(s, dir) && ProperName(s, name)
    ensures AllInside(s, subdirs + [Item(Child(s, dir, name), entries)])
    ensures AllChildren(s, dir, subdirs + [Item(Child(s, dir, name), entries)])
  {
    assert IsChild(s, dir, Child(s, dir, name));
  }

  lemma {:induction false} ScanDir(s: Setup, dir: string, entries: seq<Entry>, files: seq<Copy>, subdirs: seq<Item>,
                                   e: Entry)
    requires Inside(s, dir) && Scanned(s, dir, entries, files, subdirs)
    requires ProperName(s, e.name) && e.node.Dir? && !IsTdata(s, Child(s, dir, e.name))
    ensures Scanned(s, dir, entries + [e], files, subdirs + [Item(Child(s, dir, e.name), e.node.entries)])
  {
    var item := Item(Child(s, dir, e.name), e.node.entries);
    WaitingAppend(s, subdirs, [item]);
    DirOf(s, dir, e);
    InAppend(s, dir, entries, e);
    MoreChildren(s, dir, subdirs, e.name, e.node.entries);
    hide FilesWaiting, DirsWaiting, UpdaterWaiting, WeightWaiting, FilesOf, DirsOf, UpdaterAt;
    hide FilesIn, DirsIn, UpdaterIn, Weight, IsChild, AllInside, Inside, AllChildren, Child, IsTdata;
    assert multiset(files) + FilesWaiting(s, subdirs + [item])
        == (multiset(files) + FilesWaiting(s, subdirs)) + FilesWaiting(s, [item]);
  }

  // An entry that adds nothing.
  lemma {:induction false} ScanSkip(s: Setup, dir: string, entries: seq<Entry>, files: seq<Copy>, subdirs: seq<Item>,
                                    e: Entry)
    requires Inside(s, dir) && Scanned(s, dir, entries, files, subdirs)
    requires var path := Child(s, dir, e.name);
             IsTdata(s, path) || e.node.Unknown? || (e.node.File? && !IsUpdater(s, path) && IsReady(s, path))
    ensures Scanned(s, dir, entries + [e], files, subdirs)
  {
  }

  // A file to be copied.
  lemma {:induction false} ScanCopy(s: Setup, dir: string, entries: seq<Entry>, files: seq<Copy>, subdirs: seq<Item>,
                                    e: Entry)
    requires Inside(s, dir) && Scanned(s, dir, entries, files, subdirs) && e.node.File?
    requires var path := Child(s, dir, e.name); !IsTdata(s, path) && !IsUpdater(s, path) && !IsReady(s, path)
    ensures var path := Child(s, dir, e.name);
            Scanned(s, dir, entries + [e], files + [Copy(path, TargetOf(s, path), e.node.content)], subdirs)
  {
    hide IsTdata, IsUpdater, IsReady, Scanned, TargetOf;
    var path := Child(s, dir, e.name);
    ScanFile(s, dir, entries, files, subdirs, e, [Copy(path, TargetOf(s, path), e.node.content)]);
  }

  lemma {:induction false} MoreProper(s: Setup, dirs: seq<Item>, entries: seq<Entry>, i: nat)
    requires AllProper(s, dirs) && ProperTree(s, entries) && i < |entries|
    ensures ProperName(s, entries[i].name)
    ensures entries[i].node.Dir? ==>
              forall path :: AllProper(s, dirs + [Item(path, entries[i].node.entries)])
  {
    hide ProperName;
  }

  // ----- the walk -----

  // The inner loop of the walk, over one directory's listing.
  method Scan(s: Setup, dir: string, entries: seq<Entry>)
    returns (found: bool, files: seq<Copy>, subdirs: seq<Item>)
    requires Inside(s, dir) && ProperTree(s, entries)
    ensures found ==> UpdaterIn(s, dir, entries)
    ensures !found ==> Scanned(s, dir, entries, files, subdirs) && AllProper(s, subdirs)
  {
    hide Scanned, AllProper, ProperTree, ProperName, IsTdata, IsReady, Child, Equal;
    found, files, subdirs := false, [], [];
    ScanNothing(s, dir);
    assert AllProper(s, subdirs) by { NoneProper(s); }
    for i := 0 to |entries|
      invariant Scanned(s, dir, entries[..i], files, subdirs) && AllProper(s, subdirs)
    {
      var e := entries[i];
      var fname := Child(s, dir, e.name);
      assert |fname| > |s.UpdDir()| by { ChildIsLonger(s, dir, e.name); }
      assert entries[..i + 1] == entries[..i] + [e];
      MoreProper(s, subdirs, entries, i);
      if IsTdata(s, fname) {
        ScanSkip(s, dir, entries[..i], files, subdirs, e);
      } else if e.node.Dir? {
        ScanDir(s, dir, entries[..i], files, subdirs, e);
        subdirs := subdirs + [Item(fname, e.node.entries)];
      } else if e.node.File? {
        var tofname := s.updateTo + Relative(s, fname);
        if Equal(tofname, s.updaterName) {
          found := true;
          UpdaterFound(s, dir, entries, i);
          return;
        } else if Equal(tofname, s.updateTo + s.Binary()) && s.exeName != s.Binary() {
          tofname := s.updateTo + s.exeName;
        }
        if IsReady(s, fname) {
          ScanSkip(s, dir, entries[..i], files, subdirs, e);
        } else {
          ScanCopy(s, dir, entries[..i], files, subdirs, e);
          files := files + [Copy(fname, tofname, e.node.content)];
        }
      } else {
        ScanSkip(s, dir, entries[..i], files, subdirs, e);
      }
    }
    assert entries[..|entries|] == entries;
  }

  lemma NoneProper(s: Setup)
    ensures AllProper(s, [])
  {
  }

  lemma ChildIsLonger(s: Setup, dir: string, name: string)
    requires Inside(s, dir)
    ensures |Child(s, dir, name)| > |s.UpdDir()| && Inside(s, Child(s, dir, name))
  {
  }

  lemma {:induction false} UpdaterFound(s: Setup, dir: string, entries: seq<Entry>, i: nat)
    requires Inside(s, dir) && i < |entries| && UpdaterAt(s, dir, entries[i])
    ensures UpdaterIn(s, dir, entries)
    decreases |entries|
  {
    if i < |entries| - 1 { UpdaterFound(s, dir, entries[..|entries| - 1], i); }
  }

  // ----- directories after their parents -----

  function ToDir(s: Setup, path: string): string
    requires |path| > |s.UpdDir()|
  {
    s.updateTo + Relative(s, path) + [s.Sep()]
  }

  // The directory is one level below the target or below one that comes before.
  ghost predicate Under(s: Setup, toDir: string, before: seq<string>) {
    exists parent, name ::
      (parent == s.updateTo || parent in before) && ProperName(s, name) && toDir == parent + name + [s.Sep()]
  }

  ghost predicate ParentsFirst(s: Setup, forcedirs: seq<string>) {
    forall k :: 0 <= k < |forcedirs| ==> Under(s, forcedirs[k], forcedirs[..k])
  }

  ghost predicate ParentKnown(s: Setup, path: string, forcedirs: seq<string>) {
    path == s.UpdDir() || (|path| > |s.UpdDir()| + 1 && Under(s, ToDir(s, path), forcedirs))
  }

  ghost predicate ParentsKnown(s: Setup, dirs: seq<Item>, forcedirs: seq<string>) {
    forall i :: 0 <= i < |dirs| ==> ParentKnown(s, dirs[i].path, forcedirs)
  }

  lemma ChildIsUnder(s: Setup, dir: string, path: string, forcedirs: seq<string>)
    requires IsChild(s, dir, path)
    requires dir == s.UpdDir() || (|dir| > |s.UpdDir()| + 1 && ToDir(s, dir) in forcedirs)
    ensures ParentKnown(s, path, forcedirs)
  {
    var name :| ProperName(s, name) && path == Child(s, dir, name);
    if dir == s.UpdDir() {
      assert Relative(s, path) == name;
      assert ToDir(s, path) == s.updateTo + name + [s.Sep()];
    } else {
      assert Relative(s, path) == Relative(s, dir) + [s.Sep()] + name;
      assert ToDir(s, path) == ToDir(s, dir) + name + [s.Sep()];
    }
  }

  lemma KnownGrows(s: Setup, dirs: seq<Item>, forcedirs: seq<string>, more: seq<string>)
    requires ParentsKnown(s, dirs, forcedirs)
    ensures ParentsKnown(s, dirs, forcedirs + more)
  {
    hide ToDir;
    forall i | 0 <= i < |dirs| ensures ParentKnown(s, dirs[i].path, forcedirs + more) {
      if dirs[i].path != s.UpdDir() {
        UnderGrows(s, ToDir(s, dirs[i].path), forcedirs, more);
      }
    }
  }

  lemma UnderGrows(s: Setup, toDir: string, before: seq<string>, more: seq<string>)
    requires Under(s, toDir, before)
    ensures Under(s, toDir, before + more)
  {
    var parent, name :|
      (parent == s.updateTo || parent in before) && ProperName(s, name) && toDir == parent + name + [s.Sep()];
    assert parent == s.updateTo || parent in before + more;
  }

  lemma ParentsFirstMore(s: Setup, forcedirs: seq<string>, toDir: string)
    requires ParentsFirst(s, forcedirs) && Under(s, toDir, forcedirs)
    ensures ParentsFirst(s, forcedirs + [toDir])
  {
    hide Under;
    var more := forcedirs + [toDir];
    forall k | 0 <= k < |more| ensures Under(s, more[k], more[..k]) {
      if k < |forcedirs| { assert more[..k] == forcedirs[..k]; } else { assert more[..k] == forcedirs; }
    }
  }

  datatype Stage = NoUpdate | Unreadable | FoundUpdater | Walked

  datatype Reading = Read | PathNotFound | ReadFailed

  // How the directories of the update read, by their paths in it; those not named read.
  type Readings = map<string, Reading>

  function ReadingOf(readings: Readings, place: string): Reading {
    if place in readings then readings[place] else Read
  }

  // A directory of the tree does not read in this way.
  ghost predicate SomeReads(s: Setup, root: seq<Entry>, readings: Readings, how: Reading) {
    || ReadingOf(readings, "") == how
    || exists names, sub ::
         Reaches(root, names, Dir(sub)) && names[0] != "tdata" && ReadingOf(readings, Joined(s, names)) == how
  }

  ghost predicate AllRead(s: Setup, root: seq<Entry>, readings: Readings) {
    !SomeReads(s, root, readings, PathNotFound) && !SomeReads(s, root, readings, ReadFailed)
  }

  // Where a directory is in the update.
  function PlaceOf(s: Setup, dir: string): string {
    if |dir| > |s.UpdDir()| + 1 then Relative(s, dir) else ""
  }

  // A directory that waits is one of the tree.
  lemma WaitingIsThere(s: Setup, root: seq<Entry>, dirs: seq<Item>, plan: seq<Copy>, forcedirs: seq<string>,
                       readings: Readings)
    requires |dirs| > 0 && Underway(s, root, dirs, plan, forcedirs) && ProperTree(s, root)
    ensures SomeReads(s, root, readings, ReadingOf(readings, PlaceOf(s, dirs[0].path)))
  {
    var dir := dirs[0].path;
    if |dir| > |s.UpdDir()| + 1 {
      FirstWaiting(s, dirs);
      assert ToDir(s, dir) in ForcedOf(s, dir);
      assert ToDir(s, dir) in DirsIn(s, s.UpdDir(), root);
      DirsAreExactly(s, root, ToDir(s, dir));
      var names, sub :| Neededly(s, root, names, sub, ToDir(s, dir));
      SameMiddle(s.updateTo, Relative(s, dir), Joined(s, names), s.Sep());
    }
  }

  lemma SameMiddle(a: string, b: string, c: string, end: char)
    requires a + b + [end] == a + c + [end]
    ensures b == c
  {
    var x, y := a + b + [end], a + c + [end];
    assert b == x[|a|..|x| - 1] == y[|a|..|y| - 1] == c;
  }

  // The directories walked so far have all been read.
  ghost predicate ReadSoFar(s: Setup, forcedirs: seq<string>, readings: Readings) {
    forall f :: f in forcedirs ==> WasRead(s, f, readings)
  }

  ghost predicate WasRead(s: Setup, f: string, readings: Readings) {
    exists place :: f == s.updateTo + place + [s.Sep()] && ReadingOf(readings, place) == Read
  }

  lemma AllWereRead(s: Setup, root: seq<Entry>, forcedirs: seq<string>, readings: Readings)
    requires ProperTree(s, root) && multiset(forcedirs) == DirsIn(s, s.UpdDir(), root)
    requires ReadSoFar(s, forcedirs, readings) && ReadingOf(readings, "") == Read
    ensures AllRead(s, root, readings)
  {
    hide ProperTree, DirsIn, Joined, WasRead;
    forall names, sub | Reaches(root, names, Dir(sub)) && names[0] != "tdata"
      ensures ReadingOf(readings, Joined(s, names)) == Read
    {
      var f := s.updateTo + Joined(s, names) + [s.Sep()];
      assert Neededly(s, root, names, sub, f);
      DirsAreExactly(s, root, f);
      assert f in multiset(forcedirs);
      assert WasRead(s, f, readings);
      WasReadAt(s, Joined(s, names), readings);
    }
  }

  lemma WasReadAt(s: Setup, at: string, readings: Readings)
    requires WasRead(s, s.updateTo + at + [s.Sep()], readings)
    ensures ReadingOf(readings, at) == Read
  {
    var place :| s.updateTo + at + [s.Sep()] == s.updateTo + place + [s.Sep()] && ReadingOf(readings, place) == Read;
    SameMiddle(s.updateTo, at, place, s.Sep());
  }

  // What the walk has made of the tree when some directories still wait.
  ghost predicate Underway(s: Setup, root: seq<Entry>, dirs: seq<Item>, plan: seq<Copy>, forcedirs: seq<string>) {
    && Covered(s, root, dirs, plan, forcedirs)
    && ParentsFirst(s, forcedirs) && ParentsKnown(s, dirs, forcedirs)
  }

  ghost predicate Covered(s: Setup, root: seq<Entry>, dirs: seq<Item>, plan: seq<Copy>, forcedirs: seq<string>) {
    && AllInside(s, dirs) && AllProper(s, dirs)
    && multiset(plan) + FilesWaiting(s, dirs) == FilesIn(s, s.UpdDir(), root)
    && multiset(forcedirs) + DirsWaiting(s, dirs) == DirsIn(s, s.UpdDir(), root)
    && (UpdaterWaiting(s, dirs) <==> UpdaterIn(s, s.UpdDir(), root))
  }

  lemma BeginsUnderway(s: Setup, root: seq<Entry>)
    requires ProperTree(s, root)
    ensures Underway(s, root, [Item(s.UpdDir(), root)], [], [])
  {
  }

  // The directories that wait are the first one and the others.
  lemma FirstWaiting(s: Setup, dirs: seq<Item>)
    requires |dirs| > 0 && AllInside(s, dirs)
    ensures var d, rest := dirs[0], dirs[1..];
            && FilesWaiting(s, dirs) == FilesIn(s, d.path, d.entries) + FilesWaiting(s, rest)
            && DirsWaiting(s, dirs) == ForcedOf(s, d.path) + DirsIn(s, d.path, d.entries) + DirsWaiting(s, rest)
            && (UpdaterWaiting(s, dirs) <==> UpdaterIn(s, d.path, d.entries) || UpdaterWaiting(s, rest))
            && WeightWaiting(dirs) == Weight(d.entries) + WeightWaiting(rest)
  {
    WaitingOne(s, dirs[0]);
    WaitingAppend(s, [dirs[0]], dirs[1..]);
    assert [dirs[0]] + dirs[1..] == dirs;
  }

  function Forced(s: Setup, dir: string): seq<string> {
    if |dir| > |s.UpdDir()| + 1 then [ToDir(s, dir)] else []
  }

  lemma Regroup<T>(plan: multiset<T>, files: multiset<T>, rest: multiset<T>, sub: multiset<T>, all: multiset<T>)
    requires plan + ((files + sub) + rest) == all
    ensures (plan + files) + (rest + sub) == all
  {
  }

  lemma TailAndMore(s: Setup, dirs: seq<Item>, subdirs: seq<Item>)
    requires |dirs| > 0 && AllInside(s, dirs) && AllProper(s, dirs) && AllInside(s, subdirs) && AllProper(s, subdirs)
    ensures AllInside(s, dirs[1..]) && AllInside(s, dirs[1..] + subdirs) && AllProper(s, dirs[1..] + subdirs)
  {
    hide Inside, ProperTree;
  }

  lemma ForcedIs(s: Setup, dir: string)
    ensures multiset(Forced(s, dir)) == ForcedOf(s, dir)
  {
  }

  // One turn of the outer loop.
  lemma TurnCovers(s: Setup, root: seq<Entry>, dirs: seq<Item>, plan: seq<Copy>, forcedirs: seq<string>,
                   files: seq<Copy>, subdirs: seq<Item>)
    requires |dirs| > 0 && Covered(s, root, dirs, plan, forcedirs)
    requires Inside(s, dirs[0].path) && Scanned(s, dirs[0].path, dirs[0].entries, files, subdirs)
    requires AllProper(s, subdirs)
    ensures Covered(s, root, dirs[1..] + subdirs, plan + files, forcedirs + Forced(s, dirs[0].path))
    ensures WeightWaiting(dirs[1..] + subdirs) < WeightWaiting(dirs)
  {
    assert Inside(s, s.UpdDir());
    hide FilesIn, DirsIn, UpdaterIn, FilesWaiting, DirsWaiting, UpdaterWaiting, WeightWaiting, Weight;
    hide ProperTree, AllChildren, Forced, ForcedOf, Inside, AllProper, AllInside;
    var dir, rest := dirs[0].path, dirs[1..];
    ghost var forced := Forced(s, dir);
    TailAndMore(s, dirs, subdirs);
    FirstWaiting(s, dirs);
    WaitingAppend(s, rest, subdirs);
    ForcedIs(s, dir);
    Regroup(multiset(plan), multiset(files), FilesWaiting(s, rest), FilesWaiting(s, subdirs),
            FilesIn(s, s.UpdDir(), root));
    Regroup(multiset(forcedirs), multiset(forced), DirsWaiting(s, rest), DirsWaiting(s, subdirs),
            DirsIn(s, s.UpdDir(), root));
    assert multiset(plan + files) == multiset(plan) + multiset(files);
    assert multiset(forcedirs + forced) == multiset(forcedirs) + multiset(forced);
  }

  lemma TurnKnows(s: Setup, dirs: seq<Item>, forcedirs: seq<string>, subdirs: seq<Item>)
    requires |dirs| > 0 && ParentsFirst(s, forcedirs) && ParentsKnown(s, dirs, forcedirs)
    requires AllChildren(s, dirs[0].path, subdirs)
    ensures var more := forcedirs + Forced(s, dirs[0].path);
            ParentsFirst(s, more) && ParentsKnown(s, dirs[1..] + subdirs, more)
  {
    hide Under, ToDir, AllChildren, ParentsFirst;
    var dir, forced := dirs[0].path, Forced(s, dirs[0].path);
    assert ParentKnown(s, dir, forcedirs) && ParentsKnown(s, dirs[1..], forcedirs);
    if forced != [] {
      ParentsFirstMore(s, forcedirs, ToDir(s, dir));
    } else {
      assert forcedirs + forced == forcedirs;
    }
    KnownGrows(s, dirs[1..], forcedirs, forced);
    ChildrenKnown(s, dir, subdirs, forcedirs + forced);
    hide ParentKnown;
  }

  lemma TurnKeeps(s: Setup, root: seq<Entry>, dirs: seq<Item>, plan: seq<Copy>, forcedirs: seq<string>,
                  files: seq<Copy>, subdirs: seq<Item>)
    requires |dirs| > 0 && Underway(s, root, dirs, plan, forcedirs)
    requires Inside(s, dirs[0].path) && Scanned(s, dirs[0].path, dirs[0].entries, files, subdirs)
    requires AllProper(s, subdirs)
    ensures Underway(s, root, dirs[1..] + subdirs, plan + files, forcedirs + Forced(s, dirs[0].path))
    ensures WeightWaiting(dirs[1..] + subdirs) < WeightWaiting(dirs)
  {
    hide Covered, WeightWaiting, ParentsFirst, ParentsKnown, AllProper, AllChildren, Forced;
    TurnCovers(s, root, dirs, plan, forcedirs, files, subdirs);
    TurnKnows(s, dirs, forcedirs, subdirs);
  }

  lemma ChildrenKnown(s: Setup, dir: string, subdirs: seq<Item>, forcedirs: seq<string>)
    requires AllChildren(s, dir, subdirs)
    requires dir == s.UpdDir() || (|dir| > |s.UpdDir()| + 1 && ToDir(s, dir) in forcedirs)
    ensures ParentsKnown(s, subdirs, forcedirs)
  {
    hide ToDir, IsChild, ParentKnown;
    forall i | 0 <= i < |subdirs| ensures ParentKnown(s, subdirs[i].path, forcedirs) {
      ChildIsUnder(s, dir, subdirs[i].path, forcedirs);
    }
  }

  method Walk(s: Setup, root: seq<Entry>, readings: Readings)
    returns (stage: Stage, plan: seq<Copy>, forcedirs: seq<string>)
    requires ProperTree(s, root)
    ensures stage.Walked? ==>
              && multiset(plan) == FilesIn(s, s.UpdDir(), root)
              && multiset(forcedirs) == DirsIn(s, s.UpdDir(), root)
              && ParentsFirst(s, forcedirs)
    ensures stage.Walked? <==> AllRead(s, root, readings) && !UpdaterIn(s, s.UpdDir(), root)
    ensures stage.FoundUpdater? ==> UpdaterIn(s, s.UpdDir(), root)
    ensures stage.NoUpdate? ==> s.windows && SomeReads(s, root, readings, PathNotFound)
    ensures stage.Unreadable? ==>
              SomeReads(s, root, readings, ReadFailed) || (!s.windows && SomeReads(s, root, readings, PathNotFound))
  {
    hide Scanned, Underway, ParentsFirst, FilesIn, DirsIn, UpdaterIn, WeightWaiting, SomeReads, ReadSoFar;
    var dirs := [Item(s.UpdDir(), root)];
    plan, forcedirs := [], [];
    BeginsUnderway(s, root);
    assert ReadSoFar(s, forcedirs, readings) by { NoneReadYet(s, readings); }
    while dirs != []
      invariant Underway(s, root, dirs, plan, forcedirs) && ReadSoFar(s, forcedirs, readings)
      invariant dirs == [Item(s.UpdDir(), root)] || ReadingOf(readings, "") == Read
      decreases WeightWaiting(dirs)
    {
      var item, forced := dirs[0], [];
      assert Inside(s, item.path) && ProperTree(s, item.entries) by { FirstIsProper(s, root, dirs, plan, forcedirs); }
      if |item.path| > |s.UpdDir()| + 1 {
        forced := [ToDir(s, item.path)];
      }
      var reading := ReadingOf(readings, PlaceOf(s, item.path));
      WaitingIsThere(s, root, dirs, plan, forcedirs, readings);
      if s.windows && reading.PathNotFound? {
        return NoUpdate, plan, forcedirs;
      } else if !reading.Read? {
        return Unreadable, plan, forcedirs;
      }
      var found, files, subdirs := Scan(s, item.path, item.entries);
      if found {
        UpdaterIsInRoot(s, root, dirs, plan, forcedirs);
        return FoundUpdater, plan, forcedirs;
      }
      TurnKeeps(s, root, dirs, plan, forcedirs, files, subdirs);
      OneMoreRead(s, forcedirs, item.path, readings);
      dirs, plan, forcedirs := dirs[1..] + subdirs, plan + files, forcedirs + forced;
    }
    NothingWaits(s, root, plan, forcedirs);
    AllWereRead(s, root, forcedirs, readings);
    stage := Walked;
  }

  lemma NoneReadYet(s: Setup, readings: Readings)
    ensures ReadSoFar(s, [], readings)
  {
  }

  lemma OneMoreRead(s: Setup, forcedirs: seq<string>, dir: string, readings: Readings)
    requires ReadSoFar(s, forcedirs, readings) && ReadingOf(readings, PlaceOf(s, dir)) == Read
    ensures ReadSoFar(s, forcedirs + Forced(s, dir), readings)
  {
    if |dir| > |s.UpdDir()| + 1 {
      assert ToDir(s, dir) == s.updateTo + PlaceOf(s, dir) + [s.Sep()];
    }
  }

  lemma FirstIsProper(s: Setup, root: seq<Entry>, dirs: seq<Item>, plan: seq<Copy>, forcedirs: seq<string>)
    requires |dirs| > 0 && Underway(s, root, dirs, plan, forcedirs)
    ensures Inside(s, dirs[0].path) && ProperTree(s, dirs[0].entries)
  {
  }

  lemma UpdaterIsInRoot(s: Setup, root: seq<Entry>, dirs: seq<Item>, plan: seq<Copy>, forcedirs: seq<string>)
    requires |dirs| > 0 && Underway(s, root, dirs, plan, forcedirs)
    requires Inside(s, dirs[0].path) && UpdaterIn(s, dirs[0].path, dirs[0].entries)
    ensures UpdaterIn(s, s.UpdDir(), root)
  {
    FirstWaiting(s, dirs);
  }

  lemma NothingWaits(s: Setup, root: seq<Entry>, plan: seq<Copy>, forcedirs: seq<string>)
    requires Underway(s, root, [], plan, forcedirs)
    ensures multiset(plan) == FilesIn(s, s.UpdDir(), root)
    ensures multiset(forcedirs) == DirsIn(s, s.UpdDir(), root)
    ensures ParentsFirst(s, forcedirs) && !UpdaterIn(s, s.UpdDir(), root)
  {
  }

  // ----- the same by names alone -----

  function Joined(s: Setup, names: seq<string>): string {
    if |names| == 0 then ""
    else if |names| == 1 then names[0]
    else names[0] + [s.Sep()] + Joined(s, names[1..])
  }

  function PathOf(s: Setup, dir: string, names: seq<string>): string {
    dir + [s.Sep()] + Joined(s, names)
  }

  // Following the names from a directory leads to the node.
  ghost predicate Reaches(entries: seq<Entry>, names: seq<string>, node: Node)
    decreases |names|
  {
    && |names| > 0
    && exists i ::
         && 0 <= i < |entries| && entries[i].name == names[0]
         && if |names| == 1 then entries[i].node == node
            else entries[i].node.Dir? && Reaches(entries[i].node.entries, names[1..], node)
  }

  // The same, going through no skipped directory.
  ghost predicate Visits(s: Setup, dir: string, entries: seq<Entry>, names: seq<string>, node: Node)
    decreases |names|
  {
    && |names| > 0
    && !IsTdata(s, Child(s, dir, names[0]))
    && exists i ::
         && 0 <= i < |entries| && entries[i].name == names[0]
         && if |names| == 1 then entries[i].node == node
            else entries[i].node.Dir? && Visits(s, Child(s, dir, names[0]), entries[i].node.entries, names[1..], node)
  }

  lemma PathStep(s: Setup, dir: string, names: seq<string>)
    requires |names| > 0
    ensures |names| == 1 ==> PathOf(s, dir, names) == Child(s, dir, names[0])
    ensures |names| > 1 ==> PathOf(s, dir, names) == PathOf(s, Child(s, dir, names[0]), names[1..])
    ensures Inside(s, dir) ==> |PathOf(s, dir, names)| > |s.UpdDir()|
  {
  }

  // A visit of an entry is one of its own node or one below it.
  lemma VisitVia(s: Setup, dir: string, entries: seq<Entry>, i: nat, names: seq<string>, node: Node)
    requires i < |entries| && !IsTdata(s, Child(s, dir, entries[i].name))
    requires if names == [] then entries[i].node == node
             else entries[i].node.Dir?
                  && Visits(s, Child(s, dir, entries[i].name), entries[i].node.entries, names, node)
    ensures Visits(s, dir, entries, [entries[i].name] + names, node)
    ensures var all := [entries[i].name] + names;
            PathOf(s, dir, all) == if names == [] then Child(s, dir, entries[i].name)
                                   else PathOf(s, Child(s, dir, entries[i].name), names)
  {
  }

  lemma {:induction false} FilesInSome(s: Setup, dir: string, entries: seq<Entry>, c: Copy)
    requires Inside(s, dir)
    ensures c in FilesIn(s, dir, entries) <==> exists i :: 0 <= i < |entries| && c in FilesOf(s, dir, entries[i])
    decreases |entries|
  {
    hide FilesOf;
    if |entries| > 0 {
      var front := entries[..|entries| - 1];
      FilesInSome(s, dir, front, c);
      assert forall i :: 0 <= i < |front| ==> front[i] == entries[i];
    }
  }

  ghost predicate IsFile(s: Setup, dir: string, entries: seq<Entry>, names: seq<string>, content: Content, c: Copy) {
    && Visits(s, dir, entries, names, File(content))
    && var path := PathOf(s, dir, names);
    && |path| > |s.UpdDir()| && !IsReady(s, path) && c == Copy(path, TargetOf(s, path), content)
  }

  lemma {:induction false} FilesAre(s: Setup, dir: string, entries: seq<Entry>, c: Copy)
    requires Inside(s, dir)
    ensures c in FilesIn(s, dir, entries) <==> exists names, content :: IsFile(s, dir, entries, names, content, c)
    decreases entries
  {
    hide IsTdata, IsReady, TargetOf, FilesIn;
    FilesInSome(s, dir, entries, c);
    if c in FilesIn(s, dir, entries) {
      var i :| 0 <= i < |entries| && c in FilesOf(s, dir, entries[i]);
      FileGoesDown(s, dir, entries, i, c);
    }
    if exists names, content :: IsFile(s, dir, entries, names, content, c) {
      var names, content :| IsFile(s, dir, entries, names, content, c);
      FileComesUp(s, dir, entries, names, content, c);
    }
  }

  lemma {:induction false} FileGoesDown(s: Setup, dir: string, entries: seq<Entry>, i: nat, c: Copy)
    requires Inside(s, dir) && i < |entries| && c in FilesOf(s, dir, entries[i])
    ensures exists names, content :: IsFile(s, dir, entries, names, content, c)
    decreases entries, 0
  {
    hide IsTdata, IsReady, TargetOf, FilesIn;
    var e := entries[i];
    var path := Child(s, dir, e.name);
    if e.node.Dir? {
      FilesAre(s, path, e.node.entries, c);
      var names, content :| IsFile(s, path, e.node.entries, names, content, c);
      VisitVia(s, dir, entries, i, names, File(content));
      assert IsFile(s, dir, entries, [e.name] + names, content, c);
    } else {
      VisitVia(s, dir, entries, i, [], e.node);
      assert IsFile(s, dir, entries, [e.name] + [], e.node.content, c);
    }
  }

  lemma {:induction false} FileComesUp(s: Setup, dir: string, entries: seq<Entry>, names: seq<string>, content: Content,
                                       c: Copy)
    requires Inside(s, dir) && IsFile(s, dir, entries, names, content, c)
    ensures exists i :: 0 <= i < |entries| && c in FilesOf(s, dir, entries[i])
    decreases entries, 0
  {
    hide IsTdata, IsReady, TargetOf, FilesIn;
    var i := VisitFrom(s, dir, entries, names, File(content));
    if |names| > 1 {
      var path := Child(s, dir, names[0]);
      assert IsFile(s, path, entries[i].node.entries, names[1..], content, c);
      FilesAre(s, path, entries[i].node.entries, c);
    }
    assert c in FilesOf(s, dir, entries[i]);
  }

  // Where a visit goes first.
  lemma VisitFrom(s: Setup, dir: string, entries: seq<Entry>, names: seq<string>, node: Node) returns (i: nat)
    requires Visits(s, dir, entries, names, node)
    ensures |names| > 0
    ensures i < |entries| && entries[i].name == names[0] && !IsTdata(s, Child(s, dir, names[0]))
    ensures |names| == 1 ==> entries[i].node == node && PathOf(s, dir, names) == Child(s, dir, names[0])
    ensures |names| > 1 ==>
              var path := Child(s, dir, names[0]);
              && entries[i].node.Dir? && Visits(s, path, entries[i].node.entries, names[1..], node)
              && PathOf(s, dir, names) == PathOf(s, path, names[1..])
  {
    PathStep(s, dir, names);
    i :|
      && 0 <= i < |entries| && entries[i].name == names[0]
      && if |names| == 1 then entries[i].node == node
         else entries[i].node.Dir? && Visits(s, Child(s, dir, names[0]), entries[i].node.entries, names[1..], node);
  }

  lemma {:induction false} DirsInSome(s: Setup, dir: string, entries: seq<Entry>, f: string)
    requires Inside(s, dir)
    ensures f in DirsIn(s, dir, entries) <==> exists i :: 0 <= i < |entries| && f in DirsOf(s, dir, entries[i])
    decreases |entries|
  {
    hide DirsOf;
    if |entries| > 0 {
      var front := entries[..|entries| - 1];
      DirsInSome(s, dir, front, f);
      assert forall i :: 0 <= i < |front| ==> front[i] == entries[i];
    }
  }

  ghost predicate IsDir(s: Setup, dir: string, entries: seq<Entry>, names: seq<string>, sub: seq<Entry>, f: string) {
    && Visits(s, dir, entries, names, Dir(sub))
    && Inside(s, PathOf(s, dir, names)) && f in ForcedOf(s, PathOf(s, dir, names))
  }

  lemma {:induction false} DirsAre(s: Setup, dir: string, entries: seq<Entry>, f: string)
    requires Inside(s, dir)
    ensures f in DirsIn(s, dir, entries) <==> exists names, sub :: IsDir(s, dir, entries, names, sub, f)
    decreases entries
  {
    hide IsTdata, ForcedOf, DirsIn, Visits, PathOf, Child;
    DirsInSome(s, dir, entries, f);
    if f in DirsIn(s, dir, entries) {
      var i :| 0 <= i < |entries| && f in DirsOf(s, dir, entries[i]);
      DirGoesDown(s, dir, entries, i, f);
    }
    if exists names, sub :: IsDir(s, dir, entries, names, sub, f) {
      var names, sub :| IsDir(s, dir, entries, names, sub, f);
      var i := VisitFrom(s, dir, entries, names, Dir(sub));
      if |names| > 1 {
        ChildIsLonger(s, dir, names[0]);
        assert IsDir(s, Child(s, dir, names[0]), entries[i].node.entries, names[1..], sub, f);
        DirsAre(s, Child(s, dir, names[0]), entries[i].node.entries, f);
      }
      assert f in DirsOf(s, dir, entries[i]);
    }
  }

  lemma {:induction false} DirGoesDown(s: Setup, dir: string, entries: seq<Entry>, i: nat, f: string)
    requires Inside(s, dir) && i < |entries| && f in DirsOf(s, dir, entries[i])
    ensures exists names, sub :: IsDir(s, dir, entries, names, sub, f)
    decreases entries, 0
  {
    hide IsTdata, ForcedOf, DirsIn, Visits, PathOf, Child;
    var e := entries[i];
    var path := Child(s, dir, e.name);
    ChildIsLonger(s, dir, e.name);
    if f in ForcedOf(s, path) {
      VisitVia(s, dir, entries, i, [], e.node);
      assert IsDir(s, dir, entries, [e.name] + [], e.node.entries, f);
    } else {
      DirsAre(s, path, e.node.entries, f);
      var names, sub :| IsDir(s, path, e.node.entries, names, sub, f);
      assert names != [] by { VisitsSome(s, path, e.node.entries, names, Dir(sub)); }
      VisitVia(s, dir, entries, i, names, Dir(sub));
      assert IsDir(s, dir, entries, [e.name] + names, sub, f);
    }
  }

  lemma VisitsSome(s: Setup, dir: string, entries: seq<Entry>, names: seq<string>, node: Node)
    requires Visits(s, dir, entries, names, node)
    ensures names != []
  {
  }

  lemma {:induction false} UpdaterInSome(s: Setup, dir: string, entries: seq<Entry>)
    requires Inside(s, dir)
    ensures UpdaterIn(s, dir, entries) <==> exists i :: 0 <= i < |entries| && UpdaterAt(s, dir, entries[i])
    decreases |entries|
  {
    hide UpdaterAt;
    if |entries| > 0 {
      var front := entries[..|entries| - 1];
      UpdaterInSome(s, dir, front);
      assert forall i :: 0 <= i < |front| ==> front[i] == entries[i];
    }
  }

  ghost predicate IsBad(s: Setup, dir: string, entries: seq<Entry>, names: seq<string>, content: Content) {
    && Visits(s, dir, entries, names, File(content))
    && |PathOf(s, dir, names)| > |s.UpdDir()| && IsUpdater(s, PathOf(s, dir, names))
  }

  lemma {:induction false} UpdaterIs(s: Setup, dir: string, entries: seq<Entry>)
    requires Inside(s, dir)
    ensures UpdaterIn(s, dir, entries) <==> exists names, content :: IsBad(s, dir, entries, names, content)
    decreases entries
  {
    hide IsTdata, IsUpdater, UpdaterIn, Visits, PathOf, Child;
    UpdaterInSome(s, dir, entries);
    if UpdaterIn(s, dir, entries) {
      var i :| 0 <= i < |entries| && UpdaterAt(s, dir, entries[i]);
      UpdaterGoesDown(s, dir, entries, i);
    }
    if exists names, content :: IsBad(s, dir, entries, names, content) {
      var names, content :| IsBad(s, dir, entries, names, content);
      var i := VisitFrom(s, dir, entries, names, File(content));
      if |names| > 1 {
        ChildIsLonger(s, dir, names[0]);
        assert IsBad(s, Child(s, dir, names[0]), entries[i].node.entries, names[1..], content);
        UpdaterIs(s, Child(s, dir, names[0]), entries[i].node.entries);
      }
      assert UpdaterAt(s, dir, entries[i]);
    }
  }

  lemma {:induction false} UpdaterGoesDown(s: Setup, dir: string, entries: seq<Entry>, i: nat)
    requires Inside(s, dir) && i < |entries| && UpdaterAt(s, dir, entries[i])
    ensures exists names, content :: IsBad(s, dir, entries, names, content)
    decreases entries, 0
  {
    hide IsTdata, IsUpdater, UpdaterIn, Visits, PathOf, Child;
    var e := entries[i];
    var path := Child(s, dir, e.name);
    ChildIsLonger(s, dir, e.name);
    if e.node.Dir? {
      UpdaterIs(s, path, e.node.entries);
      var names, content :| IsBad(s, path, e.node.entries, names, content);
      assert names != [] by { VisitsSome(s, path, e.node.entries, names, File(content)); }
      VisitVia(s, dir, entries, i, names, File(content));
      assert IsBad(s, dir, entries, [e.name] + names, content);
    } else {
      VisitVia(s, dir, entries, i, [], e.node);
      assert IsBad(s, dir, entries, [e.name] + [], e.node.content);
    }
  }

  // ----- what is skipped and renamed, by names -----

  lemma TopTdata(s: Setup, name: string)
    requires ProperName(s, name)
    ensures IsTdata(s, Child(s, s.UpdDir(), name)) <==> name == "tdata"
  {
    var t, path := s.TdataDir(), Child(s, s.UpdDir(), name);
    var n := |s.UpdDir()| + 1;
    assert path[n..] == name && t[n..] == "tdata" && path[..n] == t[..n];
    assert |name| >= 5 ==> path[..|t|] == path[..n] + name[..5];
    assert |name| > 5 ==> path[|t|] == name[5];
    assert t == t[..n] + t[n..];
    assert (path[..n] + name[..if |name| < 5 then |name| else 5])[n..] == name[..if |name| < 5 then |name| else 5];
  }

  lemma NoDeepTdata(s: Setup, top: string, tail: string)
    requires ProperName(s, top) && top != "tdata" && tail != "" && tail[0] == s.Sep()
    ensures !IsTdata(s, s.UpdDir() + [s.Sep()] + top + tail)
  {
    var t, path := s.TdataDir(), s.UpdDir() + [s.Sep()] + top + tail;
    var n := |s.UpdDir()| + 1;
    assert path[n..] == top + tail && t[n..] == "tdata" && s.Sep() !in "tdata";
    assert path[n + |top|] == s.Sep();
    assert |path| >= |t| ==> path[..|t|][n..] == path[n..][..5];
    assert |top| == 5 ==> path[n..][..5] == top;
    assert |top| > 5 ==> path[|t|] == top[5];
  }

  lemma {:induction false} DeepVisits(s: Setup, top: string, tail: string, dir: string, entries: seq<Entry>,
                                      names: seq<string>, node: Node)
    requires ProperName(s, top) && top != "tdata" && (tail != "" ==> tail[0] == s.Sep())
    requires dir == s.UpdDir() + [s.Sep()] + top + tail
    ensures Visits(s, dir, entries, names, node) <==> Reaches(entries, names, node)
    decreases |names|
  {
    if |names| > 0 {
      var below := tail + [s.Sep()] + names[0];
      var path := Child(s, dir, names[0]);
      assert path == s.UpdDir() + [s.Sep()] + top + below;
      NoDeepTdata(s, top, below);
      hide IsTdata;
      forall i | 0 <= i < |entries| && entries[i].node.Dir?
        ensures Visits(s, path, entries[i].node.entries, names[1..], node)
                <==> Reaches(entries[i].node.entries, names[1..], node)
      {
        DeepVisits(s, top, below, path, entries[i].node.entries, names[1..], node);
      }
    }
  }

  // Only the top entry `tdata` is skipped, with everything in it.
  lemma {:induction false} VisitedExactly(s: Setup, root: seq<Entry>, names: seq<string>, node: Node)
    requires ProperTree(s, root)
    ensures Visits(s, s.UpdDir(), root, names, node) <==> Reaches(root, names, node) && names[0] != "tdata"
  {
    if |names| > 0 && exists i :: 0 <= i < |root| && root[i].name == names[0] {
      var top, dir := names[0], s.UpdDir();
      TopTdata(s, top);
      if top != "tdata" {
        forall i | 0 <= i < |root| && root[i].node.Dir?
          ensures Visits(s, Child(s, dir, top), root[i].node.entries, names[1..], node)
                  <==> Reaches(root[i].node.entries, names[1..], node)
        {
          DeepVisits(s, top, "", Child(s, dir, top), root[i].node.entries, names[1..], node);
        }
      }
    }
  }

  lemma LowerOf(a: string, b: string)
    ensures Lower(a + b) == Lower(a) + Lower(b)
  {
  }

  lemma EqualTails(a: string, b: string, c: string)
    ensures Equal(a + b, a + c) <==> Equal(b, c)
  {
    LowerOf(a, b);
    LowerOf(a, c);
    assert (Lower(a) + Lower(b))[|a|..] == Lower(b) && (Lower(a) + Lower(c))[|a|..] == Lower(c);
  }

  predicate ReadyNames(s: Setup, names: seq<string>) {
    && s.hasReady && |names| == 1
    && if s.windows then Equal(names[0], "ready") else names[0] == "ready"
  }

  function Target(s: Setup, names: seq<string>): string {
    s.updateTo
    + if |names| == 1 && Equal(names[0], s.Binary()) && s.exeName != s.Binary() then s.exeName else Joined(s, names)
  }

  // A joined path of several names is not one name, whatever the case of letters.
  lemma JoinedIsNoName(s: Setup, names: seq<string>, name: string)
    requires |names| > 0 && s.Sep() !in name && (forall c :: c in name ==> LowerChar(c) != s.Sep())
    ensures Equal(Joined(s, names), name) <==> |names| == 1 && Equal(names[0], name)
  {
    if |names| > 1 {
      var joined, k := Joined(s, names), |names[0]|;
      assert joined[k] == s.Sep();
      assert Lower(joined)[k] == LowerChar(s.Sep()) == s.Sep();
      assert |name| > k ==> Lower(name)[k] == LowerChar(name[k]) && name[k] in name;
    }
  }

  lemma ReadyExactly(s: Setup, names: seq<string>)
    requires |names| > 0
    ensures IsReady(s, PathOf(s, s.UpdDir(), names)) <==> ReadyNames(s, names)
  {
    var joined, temp, path := Joined(s, names), s.Updates() + "temp" + [s.Sep()], PathOf(s, s.UpdDir(), names);
    JoinedIsNoName(s, names, "ready");
    assert s.ReadyPath() == temp + "ready";
    if s.hasReady {
      assert path == temp + joined;
      EqualTails(temp, joined, "ready");
      assert path[|temp|..] == joined && s.ReadyPath()[|temp|..] == "ready";
      if |names| > 1 { assert joined[|names[0]|] == s.Sep() && s.Sep() !in "ready"; }
    } else {
      var k := |s.Updates()|;
      assert path[k] == 'r' && s.ReadyPath()[k] == 't';
      assert Lower(path)[k] == 'r' && Lower(s.ReadyPath())[k] == 't';
    }
  }

  lemma TargetExactly(s: Setup, names: seq<string>)
    requires |names| > 0
    ensures Relative(s, PathOf(s, s.UpdDir(), names)) == Joined(s, names)
    ensures TargetOf(s, PathOf(s, s.UpdDir(), names)) == Target(s, names)
  {
    var joined, path := Joined(s, names), PathOf(s, s.UpdDir(), names);
    assert Relative(s, path) == joined;
    EqualTails(s.updateTo, joined, s.Binary());
    JoinedIsNoName(s, names, s.Binary());
  }

  predicate ProperNames(s: Setup, names: seq<string>) {
    forall k :: 0 <= k < |names| ==> ProperName(s, names[k])
  }

  lemma {:induction false} ReachedProper(s: Setup, entries: seq<Entry>, names: seq<string>, node: Node)
    requires ProperTree(s, entries) && Reaches(entries, names, node)
    ensures |names| > 0 && ProperNames(s, names)
    decreases |names|
  {
    hide ProperName;
    var i :|
      && 0 <= i < |entries| && entries[i].name == names[0]
      && if |names| == 1 then entries[i].node == node
         else entries[i].node.Dir? && Reaches(entries[i].node.entries, names[1..], node);
    if |names| > 1 {
      ReachedProper(s, entries[i].node.entries, names[1..], node);
      assert forall k :: 1 <= k < |names| ==> names[k] == names[1..][k - 1];
    }
  }

  // ----- the plan, exactly -----

  ghost predicate ToCopy(s: Setup, root: seq<Entry>, names: seq<string>, content: Content) {
    Reaches(root, names, File(content)) && names[0] != "tdata" && !ReadyNames(s, names)
  }

  ghost predicate IsUpdate(s: Setup, root: seq<Entry>, names: seq<string>, content: Content, c: Copy) {
    ToCopy(s, root, names, content) && c == Copy(PathOf(s, s.UpdDir(), names), Target(s, names), content)
  }

  // The plan has the files outside the top `tdata` but for the ready file, each with its place.
  lemma {:induction false} PlanIs(s: Setup, root: seq<Entry>, c: Copy)
    requires ProperTree(s, root)
    ensures c in FilesIn(s, s.UpdDir(), root) <==> exists names, content :: IsUpdate(s, root, names, content, c)
  {
    hide IsReady, ReadyNames, TargetOf, Target, PathOf, Reaches, Visits, ProperTree, FilesIn;
    FilesAre(s, s.UpdDir(), root, c);
    forall names, content
      ensures IsFile(s, s.UpdDir(), root, names, content, c) <==> IsUpdate(s, root, names, content, c)
    {
      FileIsUpdate(s, root, names, content, c);
    }
  }

  lemma {:induction false} FileIsUpdate(s: Setup, root: seq<Entry>, names: seq<string>, content: Content, c: Copy)
    requires ProperTree(s, root)
    ensures IsFile(s, s.UpdDir(), root, names, content, c) <==> IsUpdate(s, root, names, content, c)
  {
    VisitedExactly(s, root, names, File(content));
    if Reaches(root, names, File(content)) {
      ReachedProper(s, root, names, File(content));
      hide IsReady, ReadyNames, TargetOf, Target, Reaches, Visits, ProperTree, ProperNames;
      ReadyExactly(s, names);
      TargetExactly(s, names);
      PathStep(s, s.UpdDir(), names);
    }
  }

  ghost predicate Neededly(s: Setup, root: seq<Entry>, names: seq<string>, sub: seq<Entry>, f: string) {
    && Reaches(root, names, Dir(sub)) && names[0] != "tdata"
    && f == s.updateTo + Joined(s, names) + [s.Sep()]
  }

  // The directories to force are those outside the top `tdata`.
  lemma {:induction false} DirsAreExactly(s: Setup, root: seq<Entry>, f: string)
    requires ProperTree(s, root)
    ensures f in DirsIn(s, s.UpdDir(), root) <==> exists names, sub :: Neededly(s, root, names, sub, f)
  {
    hide PathOf, Reaches, Visits, ProperTree, DirsIn, ForcedOf, Joined;
    DirsAre(s, s.UpdDir(), root, f);
    forall names, sub
      ensures IsDir(s, s.UpdDir(), root, names, sub, f) <==> Neededly(s, root, names, sub, f)
    {
      DirIsNeeded(s, root, names, sub, f);
    }
  }

  lemma {:induction false} DirIsNeeded(s: Setup, root: seq<Entry>, names: seq<string>, sub: seq<Entry>, f: string)
    requires ProperTree(s, root)
    ensures IsDir(s, s.UpdDir(), root, names, sub, f) <==> Neededly(s, root, names, sub, f)
  {
    VisitedExactly(s, root, names, Dir(sub));
    if Reaches(root, names, Dir(sub)) {
      ReachedProper(s, root, names, Dir(sub));
      hide Reaches, Visits, ProperTree, TargetOf, Target;
      TargetExactly(s, names);
      PathStep(s, s.UpdDir(), names);
      assert |Joined(s, names)| > 0;
    }
  }

  ghost predicate IsTheUpdater(s: Setup, root: seq<Entry>, names: seq<string>, content: Content) {
    && Reaches(root, names, File(content)) && names[0] != "tdata"
    && Equal(s.updateTo + Joined(s, names), s.updaterName)
  }

  lemma {:induction false} UpdaterInExactly(s: Setup, root: seq<Entry>)
    requires ProperTree(s, root)
    ensures UpdaterIn(s, s.UpdDir(), root) <==> exists names, content :: IsTheUpdater(s, root, names, content)
  {
    hide PathOf, Reaches, Visits, ProperTree, UpdaterIn, IsUpdater, Joined, Equal;
    UpdaterIs(s, s.UpdDir(), root);
    forall names, content
      ensures IsBad(s, s.UpdDir(), root, names, content) <==> IsTheUpdater(s, root, names, content)
    {
      BadIsUpdater(s, root, names, content);
    }
  }

  lemma {:induction false} BadIsUpdater(s: Setup, root: seq<Entry>, names: seq<string>, content: Content)
    requires ProperTree(s, root)
    ensures IsBad(s, s.UpdDir(), root, names, content) <==> IsTheUpdater(s, root, names, content)
  {
    VisitedExactly(s, root, names, File(content));
    if Reaches(root, names, File(content)) {
      ReachedProper(s, root, names, File(content));
      hide Reaches, Visits, ProperTree, TargetOf, Target, ProperNames, Equal;
      TargetExactly(s, names);
      PathStep(s, s.UpdDir(), names);
    }
  }

  // ----- different files go to different places -----

  // The path begins with all of `dir`.
  predicate Below(s: Setup, path: string, dir: string) {
    |path| >= |dir| && path[..|dir|] == dir && (|path| == |dir| || path[|dir|] == s.Sep())
  }

  // The path is `dir` or below it, for the file system.
  predicate AtOrBelow(s: Setup, path: string, dir: string) {
    Below(s, Fold(s, path), Fold(s, dir))
  }

  lemma FirstNames(s: Setup, a: string, restA: string, b: string, restB: string)
    requires ProperName(s, a) && ProperName(s, b)
    requires (restA == "" || restA[0] == s.Sep()) && (restB == "" || restB[0] == s.Sep())
    requires Below(s, b + restB, a + restA)
    ensures a == b && Below(s, restB, restA)
  {
    var long, short := b + restB, a + restA;
    assert forall k :: 0 <= k < |short| ==> long[k] == long[..|short|][k] == short[k];
    assert forall k :: 0 <= k < |a| ==> short[k] == a[k] && a[k] in a;
    assert forall k :: 0 <= k < |b| ==> long[k] == b[k] && b[k] in b;
    assert restA != "" ==> short[|a|] == s.Sep();
    assert restB != "" ==> long[|b|] == s.Sep();
    assert |a| == |b|;
    assert a == short[..|a|] == long[..|a|] == b;
    assert restA == short[|a|..] && restB == long[|a|..];
  }

  // A joined path that is below another one, or the same, has its names first.
  lemma {:induction false} JoinedBelow(s: Setup, a: seq<string>, b: seq<string>)
    requires |a| > 0 && |b| > 0 && ProperNames(s, a) && ProperNames(s, b)
    requires Below(s, Joined(s, b), Joined(s, a))
    ensures |a| <= |b| && b[..|a|] == a
    ensures |Joined(s, b)| == |Joined(s, a)| ==> a == b
    decreases |a|
  {
    var restA := if |a| == 1 then "" else [s.Sep()] + Joined(s, a[1..]);
    var restB := if |b| == 1 then "" else [s.Sep()] + Joined(s, b[1..]);
    assert Joined(s, a) == a[0] + restA && Joined(s, b) == b[0] + restB;
    FirstNames(s, a[0], restA, b[0], restB);
    if |a| > 1 {
      assert restB[1..] == Joined(s, b[1..]) && restA[1..] == Joined(s, a[1..]);
      assert restB[..|restA|][1..] == restB[1..][..|restA| - 1];
      JoinedBelow(s, a[1..], b[1..]);
      assert b[..|a|] == [b[0]] + b[1..][..|a| - 1];
    } else if |b| > 1 {
      assert |restB| > 0;
    }
  }

  function FoldAll(s: Setup, names: seq<string>): (r: seq<string>)
    ensures |r| == |names|
  {
    seq(|names|, i requires 0 <= i < |names| => Fold(s, names[i]))
  }

  lemma FoldOf(s: Setup, a: string, b: string)
    ensures Fold(s, a + b) == Fold(s, a) + Fold(s, b)
  {
    LowerOf(a, b);
  }

  lemma {:induction false} FoldJoined(s: Setup, names: seq<string>)
    ensures Fold(s, Joined(s, names)) == Joined(s, FoldAll(s, names))
    decreases |names|
  {
    if |names| > 1 {
      var rest := Joined(s, names[1..]);
      FoldJoined(s, names[1..]);
      assert FoldAll(s, names)[1..] == FoldAll(s, names[1..]);
      FoldOf(s, names[0] + [s.Sep()], rest);
      FoldOf(s, names[0], [s.Sep()]);
      assert Fold(s, [s.Sep()]) == [s.Sep()];
    }
  }

  lemma FoldProper(s: Setup, names: seq<string>)
    requires ProperNames(s, names)
    ensures ProperNames(s, FoldAll(s, names))
  {
    forall k | 0 <= k < |names| ensures ProperName(s, Fold(s, names[k])) {
      var name := names[k];
      assert ProperName(s, name);
      forall i | 0 <= i < |name| ensures Fold(s, name)[i] != s.Sep() && Fold(s, name)[i] != '/' {
        assert name[i] in name;
      }
    }
  }

  // Names that the file system takes for the same lead to one node only, and through directories.
  lemma {:induction false} ReachesOne(s: Setup, entries: seq<Entry>, a: seq<string>, x: Node, b: seq<string>, y: Node)
    requires ProperTree(s, entries) && Reaches(entries, a, x) && Reaches(entries, b, y)
    requires |a| <= |b| && FoldAll(s, b)[..|a|] == FoldAll(s, a)
    ensures b[..|a|] == a && if |a| == |b| then x == y else x.Dir?
    decreases |a|
  {
    var i := FirstStep(s, entries, a, x);
    var j := FirstStep(s, entries, b, y);
    hide Fold, FoldAll, Reaches, ProperTree;
    FoldedTail(s, a, b);
    SameEntry(s, entries, i, j);
    if |a| > 1 {
      ReachesOne(s, entries[i].node.entries, a[1..], x, b[1..], y);
      assert b[..|a|] == [b[0]] + b[1..][..|a| - 1];
    }
  }

  lemma FirstStep(s: Setup, entries: seq<Entry>, names: seq<string>, node: Node) returns (i: nat)
    requires ProperTree(s, entries) && Reaches(entries, names, node)
    ensures |names| > 0 && i < |entries| && entries[i].name == names[0]
    ensures if |names| == 1 then entries[i].node == node
            else entries[i].node.Dir? && ProperTree(s, entries[i].node.entries)
                 && Reaches(entries[i].node.entries, names[1..], node)
  {
    hide ProperName, Fold;
    i :|
      && 0 <= i < |entries| && entries[i].name == names[0]
      && if |names| == 1 then entries[i].node == node
         else entries[i].node.Dir? && Reaches(entries[i].node.entries, names[1..], node);
  }

  lemma FoldedTail(s: Setup, a: seq<string>, b: seq<string>)
    requires 0 < |a| <= |b| && FoldAll(s, b)[..|a|] == FoldAll(s, a)
    ensures Fold(s, b[0]) == Fold(s, a[0]) && FoldAll(s, b[1..])[..|a| - 1] == FoldAll(s, a[1..])
  {
    hide Fold;
    assert FoldAll(s, b)[..|a|][0] == Fold(s, b[0]) && FoldAll(s, a)[0] == Fold(s, a[0]);
    assert FoldAll(s, b[1..])[..|a| - 1] == FoldAll(s, b)[..|a|][1..];
    assert FoldAll(s, a[1..]) == FoldAll(s, a)[1..];
  }

  lemma SameEntry(s: Setup, entries: seq<Entry>, i: nat, j: nat)
    requires ProperTree(s, entries) && i < |entries| && j < |entries|
    requires Fold(s, entries[i].name) == Fold(s, entries[j].name)
    ensures i == j
  {
    hide Fold;
  }

  predicate Renamed(s: Setup, names: seq<string>) {
    |names| == 1 && Equal(names[0], s.Binary()) && s.exeName != s.Binary()
  }

  // No file of the update is put over another one, or where another one needs a directory.
  ghost predicate TargetsApart(s: Setup, root: seq<Entry>) {
    forall a, x, b, y :: ToCopy(s, root, a, x) && ToCopy(s, root, b, y) && a != b ==>
      !AtOrBelow(s, Target(s, b), Target(s, a))
  }

  // Nothing else in the update claims the name that the binary gets.
  ghost predicate NameIsFree(s: Setup, root: seq<Entry>) {
    forall a, x, b, y :: ToCopy(s, root, a, x) && ToCopy(s, root, b, y) && a != b && Renamed(s, a) ==>
      !Renamed(s, b) && Fold(s, b[0]) != Fold(s, s.exeName)
  }

  lemma BelowTails(s: Setup, base: string, path: string, dir: string)
    ensures Below(s, base + path, base + dir) <==> Below(s, path, dir)
  {
    var long, short := base + path, base + dir;
    if |path| >= |dir| {
      assert long[..|short|] == base + path[..|dir|];
      assert long[..|short|][|base|..] == path[..|dir|] && short[|base|..] == dir;
      if |path| > |dir| { assert long[|short|] == path[|dir|]; }
    }
  }

  // What two files of the update have to do with each other's places.
  lemma {:induction false} TwoTargets(s: Setup, root: seq<Entry>, a: seq<string>, x: Content, b: seq<string>,
                                      y: Content)
    requires ProperTree(s, root) && ProperName(s, s.exeName)
    requires ToCopy(s, root, a, x) && ToCopy(s, root, b, y) && a != b
    ensures AtOrBelow(s, Target(s, b), Target(s, a)) <==> InTheWay(s, a, b)
  {
    ReachedProper(s, root, a, File(x));
    ReachedProper(s, root, b, File(y));
    var nameA := if Renamed(s, a) then [s.exeName] else a;
    var nameB := if Renamed(s, b) then [s.exeName] else b;
    assert Target(s, a) == s.updateTo + Joined(s, nameA) && Target(s, b) == s.updateTo + Joined(s, nameB);
    FoldTarget(s, nameA);
    FoldTarget(s, nameB);
    BelowTails(s, Fold(s, s.updateTo), Joined(s, FoldAll(s, nameB)), Joined(s, FoldAll(s, nameA)));
    FoldProper(s, nameA);
    FoldProper(s, nameB);
    hide ProperTree, Reaches, Target, ToCopy, Fold, Below, Joined, ProperName;
    NamesBelow(s, FoldAll(s, nameA), FoldAll(s, nameB));
    if !Renamed(s, a) && !Renamed(s, b) {
      FileHasNothingBelow(s, root, a, x, b, y);
    } else {
      assert |nameA| == 1 && |nameB| > 0 ==>
          (FoldAll(s, nameB)[..1] == FoldAll(s, nameA) <==> Fold(s, nameB[0]) == Fold(s, nameA[0])) by {
        assert |nameB| > 0 ==> FoldAll(s, nameB)[..1] == [Fold(s, nameB[0])];
        assert |nameA| == 1 ==> FoldAll(s, nameA) == [Fold(s, nameA[0])];
      }
    }
  }

  // One of the two files gets the name of the binary, and the other one claims it.
  predicate InTheWay(s: Setup, a: seq<string>, b: seq<string>)
    requires |a| > 0 && |b| > 0
  {
    || (Renamed(s, a) && (Renamed(s, b) || Fold(s, b[0]) == Fold(s, s.exeName)))
    || (!Renamed(s, a) && Renamed(s, b) && |a| == 1 && Fold(s, a[0]) == Fold(s, s.exeName))
  }

  lemma FoldTarget(s: Setup, names: seq<string>)
    ensures Fold(s, s.updateTo + Joined(s, names)) == Fold(s, s.updateTo) + Joined(s, FoldAll(s, names))
  {
    FoldOf(s, s.updateTo, Joined(s, names));
    FoldJoined(s, names);
  }

  lemma {:induction false} FileHasNothingBelow(s: Setup, root: seq<Entry>, a: seq<string>, x: Content, b: seq<string>,
                                               y: Content)
    requires ProperTree(s, root) && ToCopy(s, root, a, x) && ToCopy(s, root, b, y) && a != b
    ensures !(|a| <= |b| && FoldAll(s, b)[..|a|] == FoldAll(s, a))
  {
    if |a| <= |b| && FoldAll(s, b)[..|a|] == FoldAll(s, a) {
      ReachesOne(s, root, a, File(x), b, File(y));
      assert false;
    }
  }

  lemma {:induction false} NamesBelow(s: Setup, a: seq<string>, b: seq<string>)
    requires |a| > 0 && |b| > 0 && ProperNames(s, a) && ProperNames(s, b)
    ensures Below(s, Joined(s, b), Joined(s, a)) <==> |a| <= |b| && b[..|a|] == a
  {
    if Below(s, Joined(s, b), Joined(s, a)) { JoinedBelow(s, a, b); }
    if |a| <= |b| && b[..|a|] == a { BelowJoined(s, a, b); }
  }

  lemma {:induction false} BelowJoined(s: Setup, a: seq<string>, b: seq<string>)
    requires 0 < |a| <= |b| && b[..|a|] == a
    ensures Below(s, Joined(s, b), Joined(s, a))
    decreases |a|
  {
    assert b[0] == b[..|a|][0] == a[0];
    if |a| > 1 {
      assert b[1..][..|a| - 1] == b[..|a|][1..] == a[1..];
      BelowJoined(s, a[1..], b[1..]);
      BelowTails(s, a[0] + [s.Sep()], Joined(s, b[1..]), Joined(s, a[1..]));
    } else if |b| > 1 {
      assert Joined(s, b)[..|a[0]|] == a[0];
    }
  }

  // The copies keep out of each other's way exactly when nothing else claims the binary's name.
  lemma TargetsApartIff(s: Setup, root: seq<Entry>)
    requires ProperTree(s, root) && ProperName(s, s.exeName)
    ensures TargetsApart(s, root) <==> NameIsFree(s, root)
  {
    forall a, x, b, y | ToCopy(s, root, a, x) && ToCopy(s, root, b, y) && a != b
      ensures AtOrBelow(s, Target(s, b), Target(s, a)) <==> |a| > 0 && |b| > 0 && InTheWay(s, a, b)
    {
      TwoTargets(s, root, a, x, b, y);
    }
    hide ToCopy, Renamed, Target, AtOrBelow, Fold;
    if NameIsFree(s, root) {
      forall a, x, b, y | ToCopy(s, root, a, x) && ToCopy(s, root, b, y) && a != b
        ensures !AtOrBelow(s, Target(s, b), Target(s, a)) {}
    } else {
      var a, x, b, y :| ToCopy(s, root, a, x) && ToCopy(s, root, b, y) && a != b && Renamed(s, a)
                        && (Renamed(s, b) || Fold(s, b[0]) == Fold(s, s.exeName));
      assert AtOrBelow(s, Target(s, b), Target(s, a));
    }
  }

  // ----- every file once -----

  lemma {:induction false} FromBegins(s: Setup, dir: string, e: Entry, c: Copy) returns (rest: string)
    requires Inside(s, dir) && c in FilesOf(s, dir, e)
    ensures c.from == dir + [s.Sep()] + (e.name + rest) && (rest == "" || rest[0] == s.Sep())
  {
    hide FilesOf, IsTdata, IsReady, TargetOf;
    FileGoesDown(s, dir, [e], 0, c);
    var names, content :| IsFile(s, dir, [e], names, content, c);
    var i := VisitFrom(s, dir, [e], names, File(content));
    rest := if |names| == 1 then "" else [s.Sep()] + Joined(s, names[1..]);
    assert Joined(s, names) == e.name + rest;
  }

  lemma {:induction false} OtherFrom(s: Setup, dir: string, d: Entry, e: Entry, c: Copy)
    requires Inside(s, dir) && ProperName(s, d.name) && ProperName(s, e.name) && d.name != e.name
    ensures !(c in FilesOf(s, dir, d) && c in FilesOf(s, dir, e))
  {
    hide FilesOf, ProperName;
    if c in FilesOf(s, dir, d) && c in FilesOf(s, dir, e) {
      var restD := FromBegins(s, dir, d, c);
      var restE := FromBegins(s, dir, e, c);
      var n := |dir| + 1;
      assert d.name + restD == c.from[n..] == e.name + restE;
      FirstNames(s, d.name, restD, e.name, restE);
      assert false;
    }
  }

  lemma {:induction false} FilesOnce(s: Setup, dir: string, entries: seq<Entry>, c: Copy)
    requires Inside(s, dir) && ProperTree(s, entries)
    ensures FilesIn(s, dir, entries)[c] <= 1
    decreases entries
  {
    hide ProperName, IsTdata, IsReady, TargetOf;
    if |entries| > 0 {
      var front, last := entries[..|entries| - 1], entries[|entries| - 1];
      assert ProperTree(s, front);
      FilesOnce(s, dir, front, c);
      if last.node.Dir? {
        FilesOnce(s, Child(s, dir, last.name), last.node.entries, c);
      }
      FilesInSome(s, dir, front, c);
      forall i | 0 <= i < |front| ensures !(c in FilesOf(s, dir, front[i]) && c in FilesOf(s, dir, last)) {
        OtherFrom(s, dir, front[i], last, c);
      }
    }
  }

  lemma TwiceIn<T>(a: seq<T>, i: nat, j: nat)
    requires i < j < |a| && a[i] == a[j]
    ensures multiset(a)[a[i]] >= 2
  {
    assert a == a[..i + 1] + a[i + 1..];
    assert multiset(a) == multiset(a[..i + 1]) + multiset(a[i + 1..]);
    assert a[i] in a[..i + 1] && a[i] in a[i + 1..] by {
      assert a[..i + 1][i] == a[i] && a[i + 1..][j - i - 1] == a[j];
    }
  }

  ghost predicate PlanApart(s: Setup, plan: seq<Copy>) {
    forall i, j :: 0 <= i < |plan| && 0 <= j < |plan| && i != j ==> !AtOrBelow(s, plan[j].to, plan[i].to)
  }

  // Two files of a plan are two files of the update.
  lemma {:induction false} PlannedTwo(s: Setup, root: seq<Entry>, plan: seq<Copy>, i: nat, j: nat)
    returns (a: seq<string>, b: seq<string>)
    requires ProperTree(s, root) && multiset(plan) == FilesIn(s, s.UpdDir(), root)
    requires i < |plan| && j < |plan| && i != j
    ensures ToCopy(s, root, a, plan[i].content) && ToCopy(s, root, b, plan[j].content) && a != b
    ensures plan[i].to == Target(s, a) && plan[j].to == Target(s, b)
  {
    hide ProperTree, FilesIn, Target, PathOf, ToCopy;
    assert plan[i] in multiset(plan) && plan[j] in multiset(plan);
    PlanIs(s, root, plan[i]);
    PlanIs(s, root, plan[j]);
    var x, y;
    a, x :| IsUpdate(s, root, a, x, plan[i]);
    b, y :| IsUpdate(s, root, b, y, plan[j]);
    if a == b {
      SameNames(s, root, a, x, y);
      if i < j { TwiceIn(plan, i, j); } else { TwiceIn(plan, j, i); }
      FilesOnce(s, s.UpdDir(), root, plan[i]);
    }
  }

  // Each file of the update is planned once, and nothing is copied over it.
  lemma {:induction false} PlanIsApart(s: Setup, root: seq<Entry>, plan: seq<Copy>)
    requires ProperTree(s, root) && ProperName(s, s.exeName) && NameIsFree(s, root)
    requires multiset(plan) == FilesIn(s, s.UpdDir(), root)
    ensures PlanApart(s, plan)
  {
    TargetsApartIff(s, root);
    hide ProperTree, FilesIn, NameIsFree, AtOrBelow, Target, ToCopy;
    forall i, j | 0 <= i < |plan| && 0 <= j < |plan| && i != j ensures !AtOrBelow(s, plan[j].to, plan[i].to) {
      var a, b := PlannedTwo(s, root, plan, i, j);
    }
  }

  // ----- files that get in each other's way -----

  // Whenever two files do, they have one place and one content.
  ghost predicate Harmless(s: Setup, root: seq<Entry>) {
    forall a, x, b, y :: ToCopy(s, root, a, x) && ToCopy(s, root, b, y) && a != b && InTheWay(s, a, b) ==>
      |b| == 1 && x == y
  }

  lemma FreeIsHarmless(s: Setup, root: seq<Entry>)
    requires NameIsFree(s, root)
    ensures Harmless(s, root)
  {
    hide Fold, Renamed;
  }

  // One of a single name lands on the place of the other one, one of several names below it.
  lemma PlacesInTheWay(s: Setup, a: seq<string>, b: seq<string>)
    requires |a| > 0 && |b| > 0 && InTheWay(s, a, b)
    ensures |b| == 1 ==> Fold(s, Target(s, b)) == Fold(s, Target(s, a))
    ensures |b| > 1 ==> |Target(s, b)| > |Target(s, a)|
  {
    FoldOf(s, s.updateTo, a[0]);
    FoldOf(s, s.updateTo, b[0]);
    FoldOf(s, s.updateTo, s.exeName);
    hide Fold, Equal;
  }

  ghost predicate PlanAgrees(s: Setup, plan: seq<Copy>) {
    forall i, j :: 0 <= i < |plan| && 0 <= j < |plan| && i != j && AtOrBelow(s, plan[j].to, plan[i].to) ==>
      Fold(s, plan[j].to) == Fold(s, plan[i].to) && plan[j].content == plan[i].content
  }

  lemma {:induction false} HarmlessAgrees(s: Setup, root: seq<Entry>, plan: seq<Copy>)
    requires ProperTree(s, root) && ProperName(s, s.exeName) && Harmless(s, root)
    requires multiset(plan) == FilesIn(s, s.UpdDir(), root)
    ensures PlanAgrees(s, plan)
  {
    hide ProperTree, FilesIn, AtOrBelow, Target, ReadyNames, Fold, InTheWay;
    forall i, j | 0 <= i < |plan| && 0 <= j < |plan| && i != j && AtOrBelow(s, plan[j].to, plan[i].to)
      ensures Fold(s, plan[j].to) == Fold(s, plan[i].to) && plan[j].content == plan[i].content
    {
      var a, b := PlannedTwo(s, root, plan, i, j);
      TwoTargets(s, root, a, plan[i].content, b, plan[j].content);
      PlacesInTheWay(s, a, b);
    }
  }

  lemma {:induction false} SameNames(s: Setup, root: seq<Entry>, names: seq<string>, x: Content, y: Content)
    requires ProperTree(s, root) && ToCopy(s, root, names, x) && ToCopy(s, root, names, y)
    ensures x == y
  {
    assert names[..|names|] == names;
    ReachesOne(s, root, names, File(x), names, File(y));
  }
}
