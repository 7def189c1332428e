/**
 What the updaters do with a walked update: the directories are forced, then the files are copied, and
 every step of it may fail.
 */
module UpdateInstall {
  import opened UpdatePlan

  // Files and directories under their names as the file system tells them apart; those of directories end in
  // a separator.
  datatype Disk = Disk(files: map<string, Content>, dirs: set<string>)

  datatype Created = Made | AlreadyExists | NoParent | OtherError

  // One try to write a file; one that fails may leave anything in its place.
  datatype Try = Works | Fails | Spoils(junk: Content)

  // What the system makes of the updater's calls: how directories read, which cannot be made, what cannot be
  // removed, how the tries for a file go, from the first on, and how often the user asks for more of them.
  datatype World = World(readings: Readings, mkdirFails: set<string>, removeFails: set<string>,
                         tries: map<string, seq<Try>>, retries: map<string, nat>)
  {
    function TryOf(c: Copy, k: nat): Try {
      if c.from in tries && k < |tries[c.from]| then tries[c.from][k] else Works
    }

    function RetriesOf(c: Copy): nat {
      if c.from in retries then retries[c.from] else 0
    }

    predicate OneWorks(c: Copy, first: nat, end: nat) {
      exists k: nat :: first <= k < end && TryOf(c, k).Works?
    }
  }

  datatype End = NothingReady | CannotRead | HasUpdater | NoDirectory | CopyFailed | Done

  // ----- copying, as a function -----

  // A directory where a file is to be put is removed with all that is in it.
  function Emptied(s: Setup, d: Disk, to: string): Disk {
    Disk(map p | p in d.files && !AtOrBelow(s, p, to) :: d.files[p], set q | q in d.dirs && !AtOrBelow(s, q, to))
  }

  function Room(s: Setup, d: Disk, to: string): Disk {
    if !s.windows && Fold(s, to) + [s.Sep()] in d.dirs then Emptied(s, d, to) else d
  }

  function Put(s: Setup, d: Disk, c: Copy): Disk {
    d.(files := d.files[Fold(s, c.to) := c.content])
  }

  function Placed(s: Setup, d: Disk, c: Copy): Disk {
    Put(s, Room(s, d, c.to), c)
  }

  function AllPlaced(s: Setup, d: Disk, plan: seq<Copy>): Disk {
    if |plan| == 0 then d else Placed(s, AllPlaced(s, d, plan[..|plan| - 1]), plan[|plan| - 1])
  }

  // No file is below another one.
  predicate Treelike(s: Setup, d: Disk) {
    forall p, q :: p in d.files && q in d.files && Below(s, q, p) ==> q == p
  }

  // A file can be written where no directory is and no file above, or below.
  predicate CanPut(s: Setup, d: Disk, to: string) {
    && Fold(s, to) + [s.Sep()] !in d.dirs
    && forall p :: p in d.files && p != Fold(s, to) ==> !Below(s, p, Fold(s, to)) && !Below(s, Fold(s, to), p)
  }

  predicate Has(s: Setup, d: Disk, p: string, content: Content) {
    Fold(s, p) in d.files && d.files[Fold(s, p)] == content
  }

  ghost predicate SameAt(s: Setup, d: Disk, e: Disk, p: string) {
    forall content :: Has(s, d, p, content) <==> Has(s, e, p, content)
  }

  ghost predicate SameOutside(s: Setup, d: Disk, e: Disk, to: string) {
    forall p :: !AtOrBelow(s, p, to) ==> SameAt(s, d, e, p)
  }

  lemma PlacedAt(s: Setup, d: Disk, c: Copy)
    ensures Has(s, Placed(s, d, c), c.to, c.content)
    ensures SameOutside(s, Placed(s, d, c), d, c.to)
  {
    assert AtOrBelow(s, c.to, c.to);
  }

  lemma NothingPut(s: Setup, d: Disk, to: string)
    ensures SameOutside(s, d, d, to)
  {
  }

  // A try more, of these or any other contents.
  lemma PutKeeps(s: Setup, d: Disk, e: Disk, c: Copy, content: Content)
    requires Treelike(s, e) && CanPut(s, e, c.to) && SameOutside(s, e, d, c.to) && Put(s, e, c) == Put(s, d, c)
    ensures var f := Put(s, e, c.(content := content));
            && Treelike(s, f) && CanPut(s, f, c.to) && SameOutside(s, f, d, c.to) && Put(s, f, c) == Put(s, d, c)
  {
    hide Fold;
    assert Below(s, Fold(s, c.to), Fold(s, c.to));
  }

  // Copies that agree wherever they meet all get where they should, and nothing else changes.
  lemma {:induction false} AllPlacedIs(s: Setup, d: Disk, plan: seq<Copy>)
    requires PlanAgrees(s, plan)
    ensures var e := AllPlaced(s, d, plan);
            && (forall i :: 0 <= i < |plan| ==> Has(s, e, plan[i].to, plan[i].content))
            && forall p :: (forall i :: 0 <= i < |plan| ==> !AtOrBelow(s, p, plan[i].to)) ==> SameAt(s, e, d, p)
    decreases |plan|
  {
    hide AtOrBelow, Placed, Fold;
    if |plan| > 0 {
      var front, last := plan[..|plan| - 1], plan[|plan| - 1];
      assert forall i :: 0 <= i < |front| ==> front[i] == plan[i];
      AllPlacedIs(s, d, front);
      PlacedAt(s, AllPlaced(s, d, front), last);
      forall i | 0 <= i < |front| ensures Has(s, AllPlaced(s, d, plan), plan[i].to, plan[i].content) {
        assert Has(s, AllPlaced(s, d, front), front[i].to, front[i].content);
        assert AtOrBelow(s, plan[i].to, plan[|front|].to)
            || SameAt(s, AllPlaced(s, d, plan), AllPlaced(s, d, front), plan[i].to);
      }
      forall p | forall i :: 0 <= i < |plan| ==> !AtOrBelow(s, p, plan[i].to)
        ensures SameAt(s, AllPlaced(s, d, plan), d, p)
      {
        assert !AtOrBelow(s, p, plan[|front|].to);
        assert forall i :: 0 <= i < |front| ==> !AtOrBelow(s, p, front[i].to);
        assert SameAt(s, AllPlaced(s, d, front), d, p);
      }
    }
  }

  // The update is installed: each of its files is in its place, and nothing else has changed.
  ghost predicate Installed(s: Setup, root: seq<Entry>, before: Disk, after: Disk) {
    && (forall names, content :: ToCopy(s, root, names, content) ==>
          Has(s, after, Target(s, names), content))
    && forall p ::
         (forall names, content :: ToCopy(s, root, names, content) ==> !AtOrBelow(s, p, Target(s, names)))
         ==> SameAt(s, after, before, p)
  }

  lemma {:induction false} PlacedIsInstalled(s: Setup, root: seq<Entry>, plan: seq<Copy>, before: Disk, forced: Disk)
    requires ProperTree(s, root) && ProperName(s, s.exeName) && Harmless(s, root)
    requires multiset(plan) == FilesIn(s, s.UpdDir(), root) && forced.files == before.files
    ensures Installed(s, root, before, AllPlaced(s, forced, plan))
  {
    hide ProperTree, ProperName, Harmless, FilesIn, ToCopy, Target, PathOf, AtOrBelow, PlanAgrees, AllPlaced;
    var after := AllPlaced(s, forced, plan);
    HarmlessAgrees(s, root, plan);
    AllPlacedIs(s, forced, plan);
    forall names, content | ToCopy(s, root, names, content)
      ensures Has(s, after, Target(s, names), content)
    {
      var c := Copy(PathOf(s, s.UpdDir(), names), Target(s, names), content);
      assert IsUpdate(s, root, names, content, c);
      PlanIs(s, root, c);
      assert c in multiset(plan);
    }
    forall p | forall names, content :: ToCopy(s, root, names, content) ==> !AtOrBelow(s, p, Target(s, names))
      ensures SameAt(s, after, before, p)
    {
      forall i | 0 <= i < |plan| ensures !AtOrBelow(s, p, plan[i].to) {
        assert plan[i] in multiset(plan);
        PlanIs(s, root, plan[i]);
        var names, content :| IsUpdate(s, root, names, content, plan[i]);
      }
      assert SameAt(s, after, forced, p);
    }
  }

  // Two different files for one place are never both installed.
  lemma OnePlaceHoldsOne(s: Setup, root: seq<Entry>, a: seq<string>, x: Content, b: seq<string>, y: Content,
                         before: Disk, after: Disk)
    requires ToCopy(s, root, a, x) && ToCopy(s, root, b, y) && x != y && Fold(s, Target(s, a)) == Fold(s, Target(s, b))
    ensures !Installed(s, root, before, after)
  {
    hide ToCopy, Target, Fold, AtOrBelow;
    assert Installed(s, root, before, after) ==>
        Has(s, after, Target(s, a), x) && Has(s, after, Target(s, b), y);
  }

  // On a disk that is a tree, files that get in each other's way are installed only if they are harmless.
  lemma HarmfulIsNotInstalled(s: Setup, root: seq<Entry>, before: Disk, after: Disk)
    requires ProperTree(s, root) && ProperName(s, s.exeName) && !Harmless(s, root) && Treelike(s, after)
    ensures !Installed(s, root, before, after)
  {
    hide ProperTree, ProperName, Target, Fold, Below, InTheWay, ReadyNames, Installed;
    var a, x, b, y :|
      ToCopy(s, root, a, x) && ToCopy(s, root, b, y) && a != b && InTheWay(s, a, b) && !(|b| == 1 && x == y);
    PlacesInTheWay(s, a, b);
    if |b| == 1 {
      OnePlaceHoldsOne(s, root, a, x, b, y, before, after);
    } else {
      TwoTargets(s, root, a, x, b, y);
      NoneBelowAnother(s, root, a, x, b, y, before, after);
    }
  }

  lemma NoneBelowAnother(s: Setup, root: seq<Entry>, a: seq<string>, x: Content, b: seq<string>, y: Content,
                         before: Disk, after: Disk)
    requires ToCopy(s, root, a, x) && ToCopy(s, root, b, y) && Treelike(s, after)
    requires AtOrBelow(s, Target(s, b), Target(s, a)) && |Target(s, b)| > |Target(s, a)|
    ensures !Installed(s, root, before, after)
  {
    hide ToCopy, Target, Fold, Below;
    assert Installed(s, root, before, after) ==>
        Has(s, after, Target(s, a), x) && Has(s, after, Target(s, b), y);
  }

  /** So a whole plan, copied, is the update installed exactly when the update is harmless. */
  lemma InstalledIff(s: Setup, root: seq<Entry>, plan: seq<Copy>, before: Disk, forced: Disk)
    requires ProperTree(s, root) && ProperName(s, s.exeName) && Treelike(s, AllPlaced(s, forced, plan))
    requires multiset(plan) == FilesIn(s, s.UpdDir(), root) && forced.files == before.files
    ensures Installed(s, root, before, AllPlaced(s, forced, plan)) <==> Harmless(s, root)
  {
    hide ProperTree, ProperName, Harmless, FilesIn, Treelike, AllPlaced, Installed;
    if Harmless(s, root) {
      PlacedIsInstalled(s, root, plan, before, forced);
    } else {
      HarmfulIsNotInstalled(s, root, before, AllPlaced(s, forced, plan));
    }
  }

  function TwoFiles(x: string, y: string): seq<Entry> {
    [Entry(x, File(1)), Entry(y, File(2))]
  }

  // An update of the binary and another file that claims its name is not installed, however it is copied.
  lemma ClashIsNotInstalled(s: Setup, x: string, y: string, before: Disk, after: Disk)
    requires ProperName(s, x) && ProperName(s, y) && ProperName(s, s.exeName) && Fold(s, x) != Fold(s, y)
    requires x != "tdata" && y != "tdata" && !ReadyNames(s, [x]) && !ReadyNames(s, [y])
    requires Renamed(s, [x]) && (Renamed(s, [y]) || Fold(s, y) == Fold(s, s.exeName))
    ensures ProperTree(s, TwoFiles(x, y)) && !NameIsFree(s, TwoFiles(x, y))
    ensures !Installed(s, TwoFiles(x, y), before, after)
  {
    var root := TwoFiles(x, y);
    assert root[0].name == x && root[1].name == y;
    TopFile(root, 0);
    TopFile(root, 1);
    hide Fold, ReadyNames, ProperName, Reaches;
    assert ProperTree(s, root);
    assert ToCopy(s, root, [x], 1) && ToCopy(s, root, [y], 2) && [x][0] == x && [y][0] == y;
    FoldOf(s, s.updateTo, y);
    FoldOf(s, s.updateTo, s.exeName);
    assert Joined(s, [y]) == y;
    assert Target(s, [x]) == s.updateTo + s.exeName;
    assert Fold(s, Target(s, [x])) == Fold(s, Target(s, [y]));
    hide Target, ToCopy, Renamed, Installed, ProperTree;
    OnePlaceHoldsOne(s, root, [x], 1, [y], 2, before, after);
  }

  lemma TopFile(root: seq<Entry>, i: nat)
    requires i < |root|
    ensures Reaches(root, [root[i].name], root[i].node)
  {
  }

  // The binary `tg.exe` and a file `TG.exe`.
  lemma ClashOnWindows(before: Disk, after: Disk)
    ensures var s := Setup(true, "", true, "C:\\tg\\", "C:\\tg\\Updater.exe", "tg.exe");
            !NameIsFree(s, TwoFiles("Telegram.exe", "TG.exe"))
            && !Installed(s, TwoFiles("Telegram.exe", "TG.exe"), before, after)
  {
    hide NameIsFree, Installed, TwoFiles;
    assert Lower("TG.exe") == "tg.exe" == Lower("tg.exe");
    var s := Setup(true, "", true, "C:\\tg\\", "C:\\tg\\Updater.exe", "tg.exe");
    ClashIsNotInstalled(s, "Telegram.exe", "TG.exe", before, after);
  }

  // The binary and a file `telegram`.
  lemma ClashOnLinux(before: Disk, after: Disk)
    ensures var s := Setup(false, "/w/", true, "/tg/", "/tg/Updater", "tg");
            !NameIsFree(s, TwoFiles("Telegram", "telegram"))
            && !Installed(s, TwoFiles("Telegram", "telegram"), before, after)
  {
    hide NameIsFree, Installed, TwoFiles;
    assert Lower("Telegram") == "telegram" == Lower("telegram");
    ClashIsNotInstalled(Setup(false, "/w/", true, "/tg/", "/tg/Updater", "tg"), "Telegram", "telegram", before, after);
  }

  // ----- the steps -----

  predicate IsParent(s: Setup, parent: string, path: string) {
    && |parent| < |path| && path[..|parent|] == parent
    && path[|path| - 1] == s.Sep() && ProperName(s, path[|parent|..|path| - 1])
  }

  predicate HasParent(s: Setup, dirs: set<string>, path: string) {
    exists parent :: parent in dirs && IsParent(s, parent, path)
  }

  predicate FileInTheWay(s: Setup, d: Disk, dir: string) {
    dir != "" && Fold(s, dir)[..|dir| - 1] in d.files
  }

  predicate IsThere(s: Setup, d: Disk, dir: string) {
    Fold(s, dir) in d.dirs
  }

  predicate MadeSure(s: Setup, d: Disk, dir: string) {
    IsThere(s, d, dir) || (s.windows && FileInTheWay(s, d, dir))
  }

  // No file and directory of one name.
  ghost predicate Sound(d: Disk) {
    forall dir :: dir in d.dirs && dir != "" ==> dir[..|dir| - 1] !in d.files
  }

  /** What the updater takes for success is that every directory is there exactly when no file had the name of one. */
  lemma AllThereIff(s: Setup, d: Disk, dirs: seq<string>)
    requires Sound(d) && forall f :: f in dirs ==> MadeSure(s, d, f)
    ensures (forall f :: f in dirs ==> IsThere(s, d, f)) <==> (forall f :: f in dirs ==> !FileInTheWay(s, d, f))
  {
    hide Fold;
    forall f | f in dirs ensures IsThere(s, d, f) <==> !FileInTheWay(s, d, f) {
      assert MadeSure(s, d, f);
    }
  }

  lemma UnderHasParent(s: Setup, d: Disk, dir: string, before: seq<string>)
    requires Under(s, dir, before) && IsThere(s, d, s.updateTo) && forall f :: f in before ==> MadeSure(s, d, f)
    ensures dir != ""
    ensures HasParent(s, d.dirs, Fold(s, dir)) || exists f :: f in before && FileInTheWay(s, d, f)
  {
    var parent, name :|
      (parent == s.updateTo || parent in before) && ProperName(s, name) && dir == parent + name + [s.Sep()];
    if IsThere(s, d, parent) {
      FoldOf(s, parent + name, [s.Sep()]);
      FoldOf(s, parent, name);
      FoldProper(s, [name]);
      assert [name][0] == name && FoldAll(s, [name])[0] == Fold(s, name);
      var place, top := Fold(s, dir), Fold(s, parent);
      assert place[|top|..|place| - 1] == Fold(s, name) && place[..|top|] == top;
      assert IsParent(s, top, place);
    }
  }

  function AsDir(path: string): string {
    if path != "" && path[|path| - 1] == '/' then path else path + "/"
  }

  // ----- what has to work -----

  // One level of a path is there, or can be made.
  predicate LevelWorks(w: World, d: Disk, level: string) {
    AsDir(level) in d.dirs || (AsDir(level)[..|AsDir(level)| - 1] !in d.files && AsDir(level) !in w.mkdirFails)
  }

  predicate IsLevel(path: string, k: int) {
    0 < k < |path| && path[k] == '/' && path[k - 1] != '/'
  }

  // A directory can be forced: on Linux every level of it, on Windows itself, where nothing has its name.
  ghost predicate DirWorks(s: Setup, w: World, d: Disk, dir: string) {
    if s.windows then IsThere(s, d, dir) || (!FileInTheWay(s, d, dir) && dir !in w.mkdirFails)
    else LevelWorks(w, d, dir) && forall k :: IsLevel(dir, k) ==> LevelWorks(w, d, dir[..k])
  }

  lemma NotThere(s: Setup, d: Disk, dir: string)
    requires Sound(d)
    ensures FileInTheWay(s, d, dir) ==> !IsThere(s, d, dir)
  {
  }

  // What is in the way of a file can be removed on Linux.
  predicate WayCleared(s: Setup, w: World, d: Disk, to: string) {
    s.windows || (to + [s.Sep()] !in d.dirs && to !in d.files) || to !in w.removeFails
  }

  // A file can be copied: its place can be cleared and written, and one of the tries works.
  predicate CopyWorks(s: Setup, w: World, d: Disk, c: Copy) {
    && WayCleared(s, w, d, c.to) && CanPut(s, Room(s, d, c.to), c.to)
    && w.OneWorks(c, 0, if s.windows then 100 * (1 + w.RetriesOf(c)) else 30)
  }

  lemma NonePlaced(s: Setup, d: Disk)
    ensures AllPlaced(s, d, []) == d
  {
  }

  lemma OneMorePlaced(s: Setup, d: Disk, plan: seq<Copy>, i: nat)
    requires i < |plan|
    ensures AllPlaced(s, d, plan[..i + 1]) == Placed(s, AllPlaced(s, d, plan[..i]), plan[i])
  {
    assert plan[..i + 1][..i] == plan[..i];
  }

  // Each when all before it have been.
  ghost predicate CopiesWork(s: Setup, w: World, d: Disk, plan: seq<Copy>) {
    forall i :: 0 <= i < |plan| ==> CopyWorks(s, w, AllPlaced(s, d, plan[..i]), plan[i])
  }

  // ----- an update that can be installed -----

  // On the disk as it is before the update: no file above the place; on Windows no directory there and no file
  // below, on Linux nothing below but in a directory that can be removed.
  predicate PlaceIsClear(s: Setup, w: World, d: Disk, to: string) {
    var place := Fold(s, to);
    && (forall p :: p in d.files && p != place ==> !Below(s, place, p))
    && (s.windows || place + [s.Sep()] !in d.dirs ==> forall p :: p in d.files && p != place ==> !Below(s, p, place))
    && if s.windows then place + [s.Sep()] !in d.dirs else to !in w.removeFails
  }

  ghost predicate FilesWork(s: Setup, w: World, root: seq<Entry>, d: Disk) {
    forall names, content, c :: IsUpdate(s, root, names, content, c) ==>
      PlaceIsClear(s, w, d, c.to) && w.OneWorks(c, 0, if s.windows then 100 * (1 + w.RetriesOf(c)) else 30)
  }

  ghost predicate DirsWork(s: Setup, w: World, root: seq<Entry>, d: Disk) {
    forall names, sub, f :: Neededly(s, root, names, sub, f) ==> DirWorks(s, w, d, f)
  }

  // No directory of the update gets the place of one of its files.
  ghost predicate DirsAreApart(s: Setup, root: seq<Entry>) {
    forall names, sub, f, names', content, c ::
      Neededly(s, root, names, sub, f) && IsUpdate(s, root, names', content, c) ==>
        Fold(s, f) != Fold(s, c.to) + [s.Sep()]
  }

  /** Every directory of the update reads and can be made, the updater is not in it, and every file can be written. */
  ghost predicate Installable(s: Setup, w: World, root: seq<Entry>, d: Disk) {
    && AllRead(s, root, w.readings) && (forall names, content :: !IsTheUpdater(s, root, names, content))
    && DirsWork(s, w, root, d) && FilesWork(s, w, root, d) && (s.windows ==> DirsAreApart(s, root))
  }

  // Room can be made for the file, and it can be written there.
  predicate CanPlace(s: Setup, w: World, d: Disk, to: string) {
    WayCleared(s, w, d, to) && CanPut(s, Room(s, d, to), to)
  }

  lemma ClearCanPlace(s: Setup, w: World, d: Disk, forced: Disk, to: string)
    requires PlaceIsClear(s, w, d, to) && forced.files == d.files && d.dirs <= forced.dirs
    requires s.windows ==> Fold(s, to) + [s.Sep()] !in forced.dirs
    ensures CanPlace(s, w, forced, to)
  {
    if !s.windows {
      var dir := to + [s.Sep()];
      assert AtOrBelow(s, dir, to) && dir !in Emptied(s, forced, to).dirs;
      assert forall p :: p in forced.files && Below(s, p, to) ==> p !in Emptied(s, forced, to).files;
    }
  }

  // Another file, placed apart, is not in the way.
  lemma CanPlaceStill(s: Setup, w: World, d: Disk, e: Copy, to: string)
    requires CanPlace(s, w, d, to) && !AtOrBelow(s, e.to, to) && !AtOrBelow(s, to, e.to)
    ensures CanPlace(s, w, Placed(s, d, e), to)
  {
  }

  lemma {:induction false} CanPlaceAll(s: Setup, w: World, d: Disk, plan: seq<Copy>, i: nat, j: nat)
    requires i <= j < |plan| && PlanApart(s, plan) && CanPlace(s, w, d, plan[j].to)
    ensures CanPlace(s, w, AllPlaced(s, d, plan[..i]), plan[j].to)
    decreases i
  {
    hide CanPlace, AtOrBelow, Placed, AllPlaced;
    NonePlaced(s, d);
    if i > 0 {
      CanPlaceAll(s, w, d, plan, i - 1, j);
      OneMorePlaced(s, d, plan, i - 1);
      CanPlaceStill(s, w, AllPlaced(s, d, plan[..i - 1]), plan[i - 1], plan[j].to);
    }
  }

  /** When every file of the update can be written as the disk was, it still can when its turn comes. */
  lemma InstallableCopies(s: Setup, w: World, root: seq<Entry>, d: Disk, forced: Disk, plan: seq<Copy>)
    requires ProperTree(s, root) && ProperName(s, s.exeName) && NameIsFree(s, root)
    requires multiset(plan) == FilesIn(s, s.UpdDir(), root) && FilesWork(s, w, root, d)
    requires forced.files == d.files && d.dirs <= forced.dirs
    requires s.windows ==> DirsAreApart(s, root) && forall q :: q in forced.dirs ==>
               q in d.dirs || exists f :: f in DirsIn(s, s.UpdDir(), root) && q == Fold(s, f)
    ensures CopiesWork(s, w, forced, plan)
  {
    hide ProperTree, ProperName, FilesIn, DirsIn, NameIsFree, ToCopy, Target, PathOf, AtOrBelow, AllPlaced, Fold;
    hide PlaceIsClear, CanPlace, PlanApart;
    PlanIsApart(s, root, plan);
    forall i | 0 <= i < |plan| ensures CopyWorks(s, w, AllPlaced(s, forced, plan[..i]), plan[i]) {
      assert plan[i] in multiset(plan);
      PlanIs(s, root, plan[i]);
      var names, content :| IsUpdate(s, root, names, content, plan[i]);
      PlannedIsClear(s, w, root, d, forced, names, content, plan[i]);
      CanPlaceAll(s, w, forced, plan, i, i);
      CopyWorksThere(s, w, AllPlaced(s, forced, plan[..i]), plan[i]);
    }
  }

  lemma CopyWorksThere(s: Setup, w: World, d: Disk, c: Copy)
    requires CanPlace(s, w, d, c.to) && w.OneWorks(c, 0, if s.windows then 100 * (1 + w.RetriesOf(c)) else 30)
    ensures CopyWorks(s, w, d, c)
  {
  }

  lemma PlannedIsClear(s: Setup, w: World, root: seq<Entry>, d: Disk, forced: Disk, names: seq<string>,
                       content: Content, c: Copy)
    requires ProperTree(s, root) && FilesWork(s, w, root, d) && IsUpdate(s, root, names, content, c)
    requires forced.files == d.files && d.dirs <= forced.dirs
    requires s.windows ==> DirsAreApart(s, root) && forall q :: q in forced.dirs ==>
               q in d.dirs || exists f :: f in DirsIn(s, s.UpdDir(), root) && q == Fold(s, f)
    ensures CanPlace(s, w, forced, c.to)
  {
    hide ProperTree, DirsIn, Fold, IsUpdate, Neededly, CanPlace, Below;
    if s.windows && Fold(s, c.to) + [s.Sep()] in forced.dirs {
      var f :| f in DirsIn(s, s.UpdDir(), root) && Fold(s, c.to) + [s.Sep()] == Fold(s, f);
      DirsAreExactly(s, root, f);
      assert false;
    }
    ClearCanPlace(s, w, d, forced, c.to);
  }

  // A new binary over the old one, every call of the system succeeding.
  lemma BinaryIsInstallable(s: Setup, w: World, root: seq<Entry>, d: Disk)
    requires s == Setup(false, "/w/", true, "/tg/", "/tg/Updater", "Telegram")
    requires w == World(map[], {}, {}, map[], map[]) && root == [Entry("Telegram", File(1))]
    requires d == Disk(map["/tg/Telegram" := 0], {"/", "/tg/"})
    ensures ProperTree(s, root) && ProperName(s, s.exeName) && NameIsFree(s, root) && Installable(s, w, root, d)
  {
    assert forall names, node :: Reaches(root, names, node) ==>
        |names| == 1 && names[0] == "Telegram" && node == File(1);
    forall names, content, c | IsUpdate(s, root, names, content, c)
      ensures PlaceIsClear(s, w, d, c.to) && w.OneWorks(c, 0, 30)
    {
      assert Joined(s, names) == "Telegram" && c.to == "/tg/" + "Telegram" == "/tg/Telegram";
      assert "/tg/Telegram/" !in d.dirs;
      assert w.TryOf(c, 0).Works?;
    }
  }

  lemma DirsWorkIff(s: Setup, w: World, root: seq<Entry>, d: Disk, forcedirs: seq<string>)
    requires ProperTree(s, root) && multiset(forcedirs) == DirsIn(s, s.UpdDir(), root)
    ensures DirsWork(s, w, root, d) <==> forall f :: f in forcedirs ==> DirWorks(s, w, d, f)
    ensures forall f :: f in forcedirs <==> f in DirsIn(s, s.UpdDir(), root)
  {
    hide ProperTree, DirsIn, DirWorks, Neededly;
    forall f ensures f in forcedirs <==> exists names, sub :: Neededly(s, root, names, sub, f) {
      assert f in forcedirs <==> f in multiset(forcedirs);
      DirsAreExactly(s, root, f);
    }
  }

  class Install {
    var disk: Disk
    const s: Setup
    const w: World

    constructor (s: Setup, w: World, disk: Disk)
      ensures this.s == s && this.w == w && this.disk == disk
    {
      this.s, this.w, this.disk := s, w, disk;
    }

    // The system's `CreateDirectory`, which makes one level only.
    method CreateDirectory(path: string) returns (r: Created)
      requires path != "" && Sound(disk)
      modifies this`disk
      ensures disk.files == old(disk.files) && Sound(disk)
      ensures old(disk.dirs) <= disk.dirs <= old(disk.dirs) + {Fold(s, path)}
      ensures r.Made? ==> IsThere(s, disk, path)
      ensures r.AlreadyExists? ==> IsThere(s, disk, path) || FileInTheWay(s, disk, path)
      ensures r.NoParent? ==> !HasParent(s, old(disk.dirs), Fold(s, path))
      ensures r.OtherError? ==> path in w.mkdirFails && !IsThere(s, old(disk), path)
    {
      var place := Fold(s, path);
      if place in disk.dirs || place[..|place| - 1] in disk.files {
        r := AlreadyExists;
      } else if !HasParent(s, disk.dirs, place) {
        r := NoParent;
      } else if path in w.mkdirFails {
        r := OtherError;
      } else {
        disk := disk.(dirs := disk.dirs + {place});
        r := Made;
      }
    }

    // `do_mkdir`.
    method DoMkdir(path: string) returns (ok: bool)
      requires !s.windows && Sound(disk)
      modifies this`disk
      ensures Sound(disk)
      ensures disk.files == old(disk.files) && old(disk.dirs) <= disk.dirs <= old(disk.dirs) + {AsDir(path)}
      ensures ok ==> AsDir(path) in disk.dirs
      ensures ok <==> LevelWorks(w, old(disk), path)
      ensures forall level :: LevelWorks(w, disk, level) <==> LevelWorks(w, old(disk), level)
    {
      if AsDir(path) in disk.dirs {
        return true;
      } else if AsDir(path)[..|AsDir(path)| - 1] in disk.files || AsDir(path) in w.mkdirFails {
        return false;
      }
      disk := disk.(dirs := disk.dirs + {AsDir(path)});
      return true;
    }

    // `mkpath`: every level is made, the upper ones first.
    method MkPath(path: string) returns (ok: bool)
      requires !s.windows && Sound(disk)
      modifies this`disk
      ensures Sound(disk)
      ensures disk.files == old(disk.files) && old(disk.dirs) <= disk.dirs
      ensures ok ==> AsDir(path) in disk.dirs
      ensures ok ==> forall k :: IsLevel(path, k) ==> AsDir(path[..k]) in disk.dirs
      ensures ok <==> DirWorks(s, w, old(disk), path)
      ensures forall level :: LevelWorks(w, disk, level) <==> LevelWorks(w, old(disk), level)
    {
      hide LevelWorks, AsDir, Sound;
      var pp := 0;
      for k := 0 to |path|
        invariant 0 <= pp <= k && (forall i :: pp <= i < k ==> path[i] != '/') && (pp > 0 ==> path[pp - 1] == '/')
        invariant disk.files == old(disk.files) && old(disk.dirs) <= disk.dirs && Sound(disk)
        invariant forall i :: IsLevel(path, i) && i < k ==> AsDir(path[..i]) in disk.dirs
        invariant forall i :: IsLevel(path, i) && i < k ==> LevelWorks(w, old(disk), path[..i])
        invariant forall level :: LevelWorks(w, disk, level) <==> LevelWorks(w, old(disk), level)
      {
        if path[k] == '/' {
          if k != pp {
            ok := DoMkdir(path[..k]);
            if !ok { return; }
          }
          pp := k + 1;
        }
      }
      ok := DoMkdir(path);
    }

    // The directories, each after its parent. Only a file with a directory's name makes a parent missing.
    method ForceDirs(forcedirs: seq<string>) returns (ok: bool, noParent: bool)
      requires ParentsFirst(s, forcedirs) && IsThere(s, disk, s.updateTo) && Sound(disk)
      modifies this`disk
      ensures disk.files == old(disk.files) && old(disk.dirs) <= disk.dirs && Sound(disk)
      ensures ok ==> forall f :: f in forcedirs ==> MadeSure(s, disk, f)
      ensures ok ==>
                ((forall f :: f in forcedirs ==> IsThere(s, disk, f))
                 <==> (forall f :: f in forcedirs ==> !FileInTheWay(s, old(disk), f)))
      ensures noParent ==> exists f :: f in forcedirs && FileInTheWay(s, old(disk), f)
      ensures s.windows ==> forall q :: q in disk.dirs ==>
                q in old(disk.dirs) || exists f :: f in forcedirs && q == Fold(s, f)
      ensures (forall f :: f in forcedirs ==> DirWorks(s, w, old(disk), f)) ==> ok
      ensures !s.windows && ok ==> forall f :: f in forcedirs ==> DirWorks(s, w, old(disk), f)
    {
      hide FileInTheWay, Under, HasParent, Fold, Sound, LevelWorks;
      for i := 0 to |forcedirs|
        invariant disk.files == old(disk.files) && old(disk.dirs) <= disk.dirs && Sound(disk)
        invariant forall f :: f in forcedirs[..i] ==> MadeSure(s, disk, f)
        invariant s.windows ==> forall q :: q in disk.dirs ==>
                    q in old(disk.dirs) || exists f :: f in forcedirs[..i] && q == Fold(s, f)
        invariant !s.windows ==> forall level :: LevelWorks(w, disk, level) <==> LevelWorks(w, old(disk), level)
        invariant !s.windows ==> forall f :: f in forcedirs[..i] ==> DirWorks(s, w, old(disk), f)
      {
        var forcedir := forcedirs[i];
        assert Under(s, forcedir, forcedirs[..i]);
        UnderHasParent(s, disk, forcedir, forcedirs[..i]);
        assert forcedirs[..i + 1] == forcedirs[..i] + [forcedir];
        StillInTheWay(s, old(disk), disk);
        if s.windows {
          var r := CreateDirectory(forcedir);
          StillInTheWay(s, old(disk), disk);
          if !r.Made? && !r.AlreadyExists? {
            ghost var blocked := forcedir;
            if r.NoParent? { blocked :| blocked in forcedirs[..i] && FileInTheWay(s, old(disk), blocked); }
            NotThere(s, old(disk), blocked);
            assert blocked in forcedirs && !DirWorks(s, w, old(disk), blocked);
            return false, r.NoParent?;
          }
        } else {
          assert DirWorks(s, w, disk, forcedir) <==> DirWorks(s, w, old(disk), forcedir);
          ok := MkPath(forcedir);
          if !ok {
            return false, false;
          }
          assert AsDir(forcedir) == Fold(s, forcedir) by { UnderEnds(s, forcedir, forcedirs[..i]); }
          StillInTheWay(s, old(disk), disk);
        }
      }
      assert forcedirs[..|forcedirs|] == forcedirs;
      StillInTheWay(s, old(disk), disk);
      AllThereIff(s, disk, forcedirs);
      ok, noParent := true, false;
    }

    // One file, tried again and again, the tries numbered from `first` on.
    method CopyTries(c: Copy, first: nat, limit: nat) returns (ok: bool)
      requires Treelike(s, disk)
      modifies this`disk
      ensures Treelike(s, disk) && (CanPut(s, disk, c.to) <==> CanPut(s, old(disk), c.to))
      ensures disk.dirs == old(disk.dirs) && SameOutside(s, disk, old(disk), c.to)
      ensures Put(s, disk, c) == Put(s, old(disk), c)
      ensures ok ==> disk == Put(s, old(disk), c)
      ensures ok <==> CanPut(s, old(disk), c.to) && w.OneWorks(c, first, first + limit)
    {
      hide Treelike, CanPut, SameOutside;
      ok := false;
      ghost var d := disk;
      assert SameOutside(s, d, d, c.to) by { NothingPut(s, d, c.to); }
      for tries := 0 to limit
        invariant disk.dirs == d.dirs && SameOutside(s, disk, d, c.to) && Put(s, disk, c) == Put(s, d, c)
        invariant Treelike(s, disk) && (CanPut(s, disk, c.to) <==> CanPut(s, d, c.to))
        invariant CanPut(s, d, c.to) ==> !w.OneWorks(c, first, first + tries)
      {
        if CanPut(s, disk, c.to) {
          match w.TryOf(c, first + tries)
          case Works =>
            PutKeeps(s, d, disk, c, c.content);
            disk := Put(s, disk, c);
            return true;
          case Fails =>
          case Spoils(junk) =>
            PutKeeps(s, d, disk, c, junk);
            disk := Put(s, disk, c.(content := junk));
        }
      }
    }

    // `remove_directory`, which may stop half way.
    method RemoveDirectory(to: string) returns (ok: bool)
      requires Treelike(s, disk)
      modifies this`disk
      ensures Treelike(s, disk)
      ensures SameOutside(s, disk, old(disk), to)
      ensures ok ==> disk == Emptied(s, old(disk), to)
      ensures ok <==> to !in w.removeFails
    {
      var left: set<string> := *;
      ok := to !in w.removeFails;
      if ok {
        disk := Emptied(s, disk, to);
      } else {
        disk := disk.(files := map p | p in disk.files && (p in left || !AtOrBelow(s, p, to)) :: disk.files[p]);
      }
    }

    // The copy on Linux: what is in the way goes first, and there are 30 tries.
    method CopyOnLinux(c: Copy) returns (ok: bool)
      requires !s.windows && Treelike(s, disk)
      modifies this`disk
      ensures Treelike(s, disk)
      ensures SameOutside(s, disk, old(disk), c.to)
      ensures ok ==> disk == Placed(s, old(disk), c)
      ensures ok <==> CopyWorks(s, w, old(disk), c)
    {
      ok := true;
      if c.to + [s.Sep()] in disk.dirs {
        ok := RemoveDirectory(c.to);
      } else if c.to in disk.files {
        ok := c.to !in w.removeFails;
        assert AtOrBelow(s, c.to, c.to);
        if ok { disk := disk.(files := disk.files - {c.to}); }
      }
      if ok { ok := CopyTries(c, 0, 30); }
    }

    // The copy on Windows: 100 tries, and again as often as the user asks for it.
    method CopyOnWindows(c: Copy) returns (ok: bool)
      requires s.windows && Treelike(s, disk)
      modifies this`disk
      ensures Treelike(s, disk)
      ensures SameOutside(s, disk, old(disk), c.to)
      ensures ok ==> disk == Placed(s, old(disk), c)
      ensures ok <==> CopyWorks(s, w, old(disk), c)
    {
      hide CanPut, Treelike;
      ok := CopyTries(c, 0, 100);
      var asked := 0;
      while !ok && asked < w.RetriesOf(c)
        invariant asked <= w.RetriesOf(c)
        invariant ok ==> CopyWorks(s, w, old(disk), c)
        invariant !ok && CanPut(s, old(disk), c.to) ==> !w.OneWorks(c, 0, 100 * (1 + asked))
        invariant CanPut(s, disk, c.to) <==> CanPut(s, old(disk), c.to)
        invariant disk.dirs == old(disk.dirs) && SameOutside(s, disk, old(disk), c.to) && Treelike(s, disk)
        invariant Put(s, disk, c) == Put(s, old(disk), c) && (ok ==> disk == Put(s, old(disk), c))
      {
        asked := asked + 1;
        ok := CopyTries(c, 100 * asked, 100);
      }
    }

    // All files in order; `at` is the one that could not be copied.
    method CopyAll(plan: seq<Copy>) returns (ok: bool, at: nat)
      requires Treelike(s, disk)
      modifies this`disk
      ensures Treelike(s, disk)
      ensures ok ==> disk == AllPlaced(s, old(disk), plan)
      ensures !ok ==> at < |plan| && SameOutside(s, disk, AllPlaced(s, old(disk), plan[..at]), plan[at].to)
      ensures ok <==> CopiesWork(s, w, old(disk), plan)
    {
      hide SameOutside, Placed, Treelike, CopyWorks, AllPlaced;
      assert AllPlaced(s, disk, plan[..0]) == disk by { NonePlaced(s, disk); }
      for i := 0 to |plan|
        invariant disk == AllPlaced(s, old(disk), plan[..i]) && Treelike(s, disk)
        invariant forall k :: 0 <= k < i ==> CopyWorks(s, w, AllPlaced(s, old(disk), plan[..k]), plan[k])
      {
        OneMorePlaced(s, old(disk), plan, i);
        if s.windows {
          ok := CopyOnWindows(plan[i]);
        } else {
          ok := CopyOnLinux(plan[i]);
        }
        if !ok {
          return false, i;
        }
      }
      assert plan[..|plan|] == plan;
      ok, at := true, |plan|;
    }

    // `update`. The result is what it returns and whether it cleared the update's folder.
    method Update(root: seq<Entry>)
      returns (done: bool, cleared: bool, end: End, plan: seq<Copy>, forcedirs: seq<string>, ghost forced: Disk)
      requires ProperTree(s, root) && IsThere(s, disk, s.updateTo) && Sound(disk) && Treelike(s, disk)
      modifies this`disk
      // An update that can be installed is.
      ensures Installable(s, w, root, old(disk)) && ProperName(s, s.exeName) && NameIsFree(s, root) ==> end.Done?
      // How far it gets.
      ensures end.NoDirectory? || end.CopyFailed? || end.Done? <==>
              AllRead(s, root, w.readings) && !UpdaterIn(s, s.UpdDir(), root)
      ensures end.NoDirectory? ==> !DirsWork(s, w, root, old(disk))
      ensures (end.CopyFailed? || end.Done?) && !s.windows ==> DirsWork(s, w, root, old(disk))
      ensures end.CopyFailed? || end.Done? ==> (end.Done? <==> CopiesWork(s, w, forced, plan))
      // Nothing is written before all is known.
      ensures !end.CopyFailed? && !end.Done? ==> disk.files == old(disk.files)
      ensures end.HasUpdater? ==> UpdaterIn(s, s.UpdDir(), root)
      ensures end.CopyFailed? || end.Done? ==>
                && !UpdaterIn(s, s.UpdDir(), root)
                && multiset(plan) == FilesIn(s, s.UpdDir(), root)
                && multiset(forcedirs) == DirsIn(s, s.UpdDir(), root)
                && forced.files == old(disk.files)
                && ((forall f :: f in forcedirs ==> IsThere(s, forced, f))
                    <==> forall f :: f in forcedirs ==> !FileInTheWay(s, old(disk), f))
                && forall f :: f in forcedirs ==> MadeSure(s, forced, f)
      ensures end.Done? ==> disk == AllPlaced(s, forced, plan)
      ensures end.Done? && ProperName(s, s.exeName) ==> (Installed(s, root, old(disk), disk) <==> Harmless(s, root))
      ensures done <==> end.Done? || end.NothingReady?
      ensures cleared <==> !end.NothingReady? && (end.CannotRead? ==> s.windows)
      ensures end.NothingReady? ==> s.windows
    {
      hide ParentsFirst, FilesIn, DirsIn, UpdaterIn, ProperTree, AllPlaced, MadeSure, Harmless, ProperName, Installed;
      hide Fold, Sound, IsThere, FileInTheWay, Below, AllRead, DirsWork, FilesWork, CopiesWork, NameIsFree;
      hide SomeReads, DirWorks, DirsAreApart, AtOrBelow, SameOutside;
      forced := disk;
      UpdaterInExactly(s, root);
      var stage;
      stage, plan, forcedirs := Walk(s, root, w.readings);
      match stage
      case NoUpdate => return true, false, NothingReady, plan, forcedirs, forced;
      case Unreadable => return false, s.windows, CannotRead, plan, forcedirs, forced;
      case FoundUpdater => return false, true, HasUpdater, plan, forcedirs, forced;
      case Walked =>
        var ok, noParent := ForceDirs(forcedirs);
        forced := disk;
        DirsWorkIff(s, w, root, old(disk), forcedirs);
        if !ok {
          return false, true, NoDirectory, plan, forcedirs, forced;
        }
        var at;
        ok, at := CopyAll(plan);
        if Installable(s, w, root, old(disk)) && ProperName(s, s.exeName) && NameIsFree(s, root) {
          InstallableCopies(s, w, root, old(disk), forced, plan);
        }
        if ok && ProperName(s, s.exeName) {
          InstalledIff(s, root, plan, old(disk), forced);
        }
        return ok, true, if ok then Done else CopyFailed, plan, forcedirs, forced;
    }
  }

  lemma StillInTheWay(s: Setup, d: Disk, e: Disk)
    requires d.files == e.files
    ensures forall f :: FileInTheWay(s, d, f) <==> FileInTheWay(s, e, f)
  {
  }

  lemma UnderEnds(s: Setup, dir: string, before: seq<string>)
    requires Under(s, dir, before)
    ensures dir != "" && dir[|dir| - 1] == s.Sep() && (!s.windows ==> Fold(s, dir) == dir)
  {
  }
}
