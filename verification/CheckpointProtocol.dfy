/** The pending-then-rename protocol of the checkpoint store as a step machine: a crash may fall
    between any two steps, also in the middle of writing and of recovering. */
module CheckpointProtocol {
  import opened Common
  import opened Paths
  import opened Directories
  import opened ModelStorage

  // ---------------------------------------------------------------- which files recovery removes

  function LastDot(f: string): (i: int)
    ensures -1 <= i < |f|
    ensures i >= 0 ==> f[i] == '.'
    ensures forall j | i < j < |f| :: f[j] != '.'
    decreases |f|
  {
    if f == "" then -1
    else if f[|f| - 1] == '.' then |f| - 1
    else LastDot(f[..|f| - 1])
  }

  /** A name that starts with its only dot has no extension. */
  function Extension(f: string): string {
    if LastDot(f) <= 0 || f == ".." then "" else f[LastDot(f)..]
  }

  /** Recovery looks one directory deep: a file in a directory of models with extension `.pending`. */
  predicate Removable(p: Location) {
    |p| >= 1 && OneBelow(MODELS, p[..|p| - 1]) && Extension(p[|p| - 1]) == ".pending"
  }

  /** The names lead to a directory of models, and what follows the last slash of the version is not empty. */
  predicate RemovableNames(model: string, version: string) {
    OneBelow(MODELS, Directory(ModelDir(model), version)) && LastPiece(version) != ""
  }

  lemma LastDotIs(f: string, i: nat)
    requires i < |f| && f[i] == '.' && forall j | i < j < |f| :: f[j] != '.'
    ensures LastDot(f) == i
  {
  }

  lemma PendingExtension(version: string)
    ensures Extension(version + ".pending") == if version == "" then "" else ".pending"
  {
    var f := version + ".pending";
    LastDotIs(f, |version|);
    assert f[|version|..] == ".pending";
  }

  /** Recovery removes the pending file of a write exactly under these names, whatever slashes and
      dot segments the names hold. */
  lemma RemovableExactly(model: string, version: string)
    ensures Removable(PendingPath(model, version)) <==> RemovableNames(model, version)
  {
    hide Extension, Resolve, Directory, LastPiece;
    ResolveFile(ModelDir(model), version, ".pending");
    PendingExtension(LastPiece(version));
    var p := PendingPath(model, version);
    assert p[..|p| - 1] == Directory(ModelDir(model), version) && p[|p| - 1] == LastPiece(version) + ".pending";
  }

  /** Without slashes in the names: the model is neither empty nor a dot segment, and the version is not empty. */
  lemma RemovableWithoutSlashes(model: string, version: string)
    requires NoSlash(model) && NoSlash(version)
    ensures Removable(PendingPath(model, version)) <==> model !in {"", ".", ".."} && version != ""
  {
    hide Removable, Resolve, Directory, LastPiece;
    RemovableExactly(model, version);
    DirectoryNoSlash(ModelDir(model), version);
    ResolveNoSlash(MODELS, model);
  }

  // ---------------------------------------------------------------- the machine

  datatype Phase =
    | Idle
    | Writing(model: string, version: string, data: string, written: nat)
    | Recovering(todo: set<Location>, listed: set<Location>)

  datatype Disk = Disk(tree: Tree, phase: Phase)

  datatype Event =
    | CreateDir(at: Location)
    | Begin(model: string, version: string, data: string)
    | WriteMore(n: nat)
    | Rename
    | Stop                 // an error return, or a crash
    | Recover(listed: set<Location>)   // the directories that can be listed
    | RemoveOne(path: Location)

  /** The directory of the model is there, and the pending file can be opened. */
  predicate CanBegin(t: Tree, model: string, version: string) {
    Elements(ModelWay(model)) <= t.dirs && Opens(t, model, version, PendingPath(model, version))
  }

  ghost predicate Step(s: Disk, e: Event, s': Disk) {
    match e
    case CreateDir(at) =>
      && s.phase == Idle && at != [] && Parent(at) in s.tree.dirs && at !in s.tree.files
      && s' == s.(tree := s.tree.(dirs := s.tree.dirs + {at}))
    case Begin(model, version, data) =>
      && s.phase == Idle && CanBegin(s.tree, model, version)
      && s' == Disk(Put(s.tree, PendingPath(model, version), ""), Writing(model, version, data, 0))
    case WriteMore(n) =>
      && s.phase.Writing? && s.phase.written <= n <= |s.phase.data|
      && s' == Disk(Put(s.tree, PendingPath(s.phase.model, s.phase.version), s.phase.data[..n]), s.phase.(written := n))
    case Rename =>
      && s.phase.Writing? && s.phase.written == |s.phase.data|
      && var path := CheckpointPath(s.phase.model, s.phase.version);
         && path !in s.tree.dirs
         && s' == Disk(Renamed(s.tree, PendingPath(s.phase.model, s.phase.version), path, s.phase.data), Idle)
    case Stop => s' == s.(phase := Idle)
    case Recover(listed) =>
      && s.phase == Idle
      && var todo := Leftovers(s.tree.files, listed);
         s' == s.(phase := if todo == {} then Idle else Recovering(todo, listed))
    case RemoveOne(path) =>
      && s.phase.Recovering? && path in s.phase.todo
      && var todo := s.phase.todo - {path};
         s' == Disk(s.tree.(files := s.tree.files - {path}), if todo == {} then Idle else Recovering(todo, s.phase.listed))
  }

  /** The pending files that recovery comes across; a directory that cannot be listed is passed over. */
  function Leftovers(files: Files, listed: set<Location>): set<Location> {
    set p | p in files && Visited(p, listed)
  }

  predicate Visited(p: Location, listed: set<Location>) {
    Removable(p) && MODELS in listed && p[..|p| - 1] in listed
  }

  ghost predicate Run(states: seq<Disk>, events: seq<Event>) {
    && |states| == |events| + 1 && states[0].phase == Idle && Sane(states[0].tree)
    && forall i | 0 <= i < |events| :: Step(states[i], events[i], states[i + 1])
  }

  predicate EndsPending(p: Location) {
    p != [] && var f := p[|p| - 1]; |f| >= 8 && f[|f| - 8..] == ".pending"
  }

  lemma PathEnds(model: string, version: string)
    ensures EndsPending(PendingPath(model, version)) && !EndsPending(CheckpointPath(model, version))
  {
    hide Resolve, Directory, LastPiece;
    ResolveFile(ModelDir(model), version, ".pending");
    ResolveFile(ModelDir(model), version, ".parquet");
    var p, q := LastPiece(version) + ".pending", LastPiece(version) + ".parquet";
    assert p[|p| - 8..] == ".pending";
    assert q[|q| - 8..][7] == 't' && ".pending"[7] == 'g';
    var a, b := PendingPath(model, version), CheckpointPath(model, version);
    assert a[|a| - 1] == p && b[|b| - 1] == q;
  }

  lemma RemovableEnds(p: Location)
    requires Removable(p)
    ensures EndsPending(p)
  {
    var f := p[|p| - 1];
    assert f[LastDot(f)..] == ".pending";
  }

  // ---------------------------------------------------------------- checkpoints change atomically

  ghost function Checkpoints(files: Files): Files {
    map p | p in files && !EndsPending(p) :: files[p]
  }

  /** The checkpoint files once the completed renames among the first `n` events are applied. */
  ghost function Completed(states: seq<Disk>, events: seq<Event>, n: nat): Files
    requires Run(states, events) && n <= |events|
  {
    if n == 0 then Checkpoints(states[0].tree.files)
    else
      var before := Completed(states, events, n - 1);
      if events[n - 1] != Rename then before
      else
        var w := states[n - 1].phase;
        assert Step(states[n - 1], events[n - 1], states[n]);
        before[CheckpointPath(w.model, w.version) := w.data]
  }

  ghost predicate RecoveryInv(s: Disk) {
    match s.phase
    case Idle => true
    case Writing(model, version, data, written) =>
      && written <= |data| && Opens(s.tree, model, version, PendingPath(model, version)) && PendingPath(model, version) in s.tree.files
      && s.tree.files[PendingPath(model, version)] == data[..written]
    case Recovering(todo, listed) =>
      && todo <= s.tree.files.Keys && (forall p | p in todo :: Visited(p, listed))
      && forall p | p in s.tree.files && Visited(p, listed) :: p in todo
  }

  lemma StepInv(s: Disk, e: Event, s': Disk)
    requires RecoveryInv(s) && Step(s, e, s')
    ensures RecoveryInv(s')
  {
    hide PendingPath, CheckpointPath, Visited;
    if e.Begin? { assert e.data[..0] == ""; }
  }

  lemma {:induction false} RunInv(states: seq<Disk>, events: seq<Event>, n: nat)
    requires Run(states, events) && n < |states|
    ensures RecoveryInv(states[n])
  {
    if n > 0 {
      RunInv(states, events, n - 1);
      StepInv(states[n - 1], events[n - 1], states[n]);
    }
  }

  /** A step leaves every checkpoint file alone, except that a rename puts one whole in place. */
  lemma StepCheckpoints(s: Disk, e: Event, s': Disk)
    requires RecoveryInv(s) && Step(s, e, s')
    ensures Checkpoints(s'.tree.files) ==
            if e != Rename then Checkpoints(s.tree.files)
            else Checkpoints(s.tree.files)[CheckpointPath(s.phase.model, s.phase.version) := s.phase.data]
  {
    hide EndsPending, PendingPath, CheckpointPath, Removable, CanBegin, Leftovers, Opens;
    match e
    case CreateDir(_) =>
    case Begin(model, version, data) => PathEnds(model, version);
    case WriteMore(_) => PathEnds(s.phase.model, s.phase.version);
    case Rename => PathEnds(s.phase.model, s.phase.version);
    case Stop =>
    case Recover(_) =>
    case RemoveOne(path) => RemovableEnds(path);
  }

  /** At every point of every run the checkpoint files are those of the completed renames: no torn
      write, crash or recovery step shows in them. */
  lemma {:induction false} CheckpointsAreCompleted(states: seq<Disk>, events: seq<Event>, n: nat)
    requires Run(states, events) && n <= |events|
    ensures Checkpoints(states[n].tree.files) == Completed(states, events, n)
  {
    hide Step, Checkpoints, RecoveryInv;
    if n > 0 {
      CheckpointsAreCompleted(states, events, n - 1);
      RunInv(states, events, n - 1);
      StepCheckpoints(states[n - 1], events[n - 1], states[n]);
    }
  }

  /** Some write of `data` to `path` was begun among the first `n` events. */
  ghost predicate Requested(events: seq<Event>, n: nat, path: Location, data: string) {
    exists k :: 0 <= k < n && k < |events| && events[k].Begin? &&
      CheckpointPath(events[k].model, events[k].version) == path && events[k].data == data
  }

  lemma {:induction false} WritesAreRequested(states: seq<Disk>, events: seq<Event>, n: nat)
    requires Run(states, events) && n < |states|
    ensures var w := states[n].phase;
            w.Writing? ==> Requested(events, n, CheckpointPath(w.model, w.version), w.data)
  {
    hide CheckpointPath, PendingPath, Leftovers;
    if n > 0 {
      WritesAreRequested(states, events, n - 1);
      assert Step(states[n - 1], events[n - 1], states[n]);
    }
  }

  /** Every checkpoint holds its content from before the run or the whole data of one write. */
  lemma {:induction false} NeverAMixture(states: seq<Disk>, events: seq<Event>, n: nat, path: Location)
    requires Run(states, events) && n < |states| && !EndsPending(path) && path in states[n].tree.files
    ensures (path in states[0].tree.files && states[n].tree.files[path] == states[0].tree.files[path]) ||
            Requested(events, n, path, states[n].tree.files[path])
  {
    CheckpointsAreCompleted(states, events, n);
    CompletedAreWhole(states, events, n, path);
  }

  lemma RequestedGrows(events: seq<Event>, n: nat, path: Location, data: string)
    requires Requested(events, n, path, data)
    ensures Requested(events, n + 1, path, data)
  {
  }

  lemma {:induction false} CompletedAreWhole(states: seq<Disk>, events: seq<Event>, n: nat, path: Location)
    requires Run(states, events) && n <= |events| && path in Completed(states, events, n)
    ensures var content := Completed(states, events, n)[path];
            (path in states[0].tree.files && content == states[0].tree.files[path]) || Requested(events, n, path, content)
  {
    hide CheckpointPath, PendingPath, Leftovers, CanBegin, Sane, Requested;
    if n > 0 {
      forall content | Requested(events, n - 1, path, content) ensures Requested(events, n, path, content) {
        RequestedGrows(events, n - 1, path, content);
      }
      if events[n - 1] == Rename {
        assert Step(states[n - 1], events[n - 1], states[n]);
        WritesAreRequested(states, events, n - 1);
      }
      if path in Completed(states, events, n - 1) {
        CompletedAreWhole(states, events, n - 1, path);
      }
    }
  }

  // ---------------------------------------------------------------- recovery cleans up

  /** The event that ends a recovery: nothing is left to remove. */
  predicate Finishes(s: Disk, e: Event, s': Disk) {
    (e.Recover? || e.RemoveOne?) && s'.phase == Idle
  }

  ghost predicate RemovableWrites(events: seq<Event>) {
    forall k | 0 <= k < |events| && events[k].Begin? :: RemovableNames(events[k].model, events[k].version)
  }

  /** All pending files are such as recovery removes, and so is the one being written. */
  ghost predicate PendingFound(s: Disk) {
    && (forall p | p in s.tree.files && EndsPending(p) :: Removable(p))
    && (s.phase.Writing? ==> RemovableNames(s.phase.model, s.phase.version))
  }

  lemma StepFinds(s: Disk, e: Event, s': Disk)
    requires PendingFound(s) && Step(s, e, s') && (e.Begin? ==> RemovableNames(e.model, e.version))
    ensures PendingFound(s')
  {
    hide RemovableNames, Removable, PendingPath, CheckpointPath, EndsPending, Leftovers, CanBegin;
    if e.Begin? {
      RemovableExactly(e.model, e.version);
    } else if s.phase.Writing? {
      RemovableExactly(s.phase.model, s.phase.version);
      PathEnds(s.phase.model, s.phase.version);
    }
  }

  lemma {:induction false} PendingAreRemovable(states: seq<Disk>, events: seq<Event>, n: nat)
    requires Run(states, events) && n < |states| && RemovableWrites(events)
    requires forall p | p in states[0].tree.files :: !EndsPending(p)
    ensures PendingFound(states[n])
  {
    hide RemovableNames, Removable, EndsPending, Step;
    if n > 0 {
      hide PendingFound;
      PendingAreRemovable(states, events, n - 1);
      StepFinds(states[n - 1], events[n - 1], states[n]);
    }
  }

  /** After a recovery that ran to its end, whatever crashes came before, a pending file is left only
      in a directory that could not be listed. */
  lemma RecoveryRemovesPending(states: seq<Disk>, events: seq<Event>, n: nat, listed: set<Location>)
    requires Run(states, events) && n < |events| && RemovableWrites(events)
    requires forall p | p in states[0].tree.files :: !EndsPending(p)
    requires Finishes(states[n], events[n], states[n + 1])
    requires listed == if events[n].Recover? then events[n].listed else states[n].phase.listed
    ensures MODELS in listed ==> forall p | p in states[n + 1].tree.files && EndsPending(p) :: p[..|p| - 1] !in listed
  {
    hide PendingPath, CheckpointPath, Removable, RemovableWrites;
    PendingAreRemovable(states, events, n + 1);
    RunInv(states, events, n);
    assert Step(states[n], events[n], states[n + 1]);
    var s, s' := states[n], states[n + 1];
    var todo := if events[n].Recover? then Leftovers(s.tree.files, listed) else s.phase.todo - {events[n].path};
    assert todo == {};
    assert forall p | p in s'.tree.files :: Visited(p, listed) ==> p in todo;
  }

  /** The pending file stands neither where its model directory needs a directory nor on its own way. */
  predicate Writable(model: string, version: string) {
    PendingPath(model, version) !in Elements(ModelWay(model)) + Way(model, version)
  }

  /** Those are the names under which a write can begin on some disk. */
  lemma WritableSomewhere(model: string, version: string)
    ensures (exists t :: Sane(t) && CanBegin(t, model, version)) <==> Writable(model, version)
  {
    hide PendingPath, Way, ModelWay, Sane;
    if Writable(model, version) {
      var t := WritableTree(model, version);
    }
  }

  lemma WritableTree(model: string, version: string) returns (t: Tree)
    requires Writable(model, version)
    ensures Sane(t) && t.files == map[] && CanBegin(t, model, version)
  {
    hide PendingPath, Way, ModelWay, Sane;
    WayReaches(model, version);
    t := Bare(Elements(ModelWay(model)) + Way(model, version));
    BareSane(t.dirs);
  }

  /** Without a slash in the version every write can begin once the directory of the model is there,
      unless the pending file stands where that directory needs one. */
  lemma BeginsWithoutSlash(t: Tree, model: string, version: string)
    requires NoSlash(version) && Elements(ModelWay(model)) <= t.dirs && PendingPath(model, version) !in t.dirs
    ensures CanBegin(t, model, version)
  {
    hide Way, ModelWay, PendingPath;
    WayInModel(model, version);
  }

  /** A write under any other names that can begin, stopped before the rename, leaves a file that no
      recovery removes: the recovery finishes at once. */
  lemma OtherNamesStayPending(tree: Tree, model: string, version: string, data: string, listed: set<Location>)
    returns (states: seq<Disk>, events: seq<Event>)
    requires Sane(tree) && CanBegin(tree, model, version)
    requires !RemovableNames(model, version) && forall p | p in tree.files :: !EndsPending(p)
    ensures Run(states, events) && states[0] == Disk(tree, Idle)
    ensures events == [Begin(model, version, data), Stop, Recover(listed)]
    ensures Finishes(states[2], events[2], states[3]) && PendingPath(model, version) in states[3].tree.files
  {
    hide PendingPath, CheckpointPath, RemovableNames, Removable, EndsPending, CanBegin, Sane;
    var pending := PendingPath(model, version);
    var s1 := Disk(Put(tree, pending, ""), Writing(model, version, data, 0));
    var s2 := s1.(phase := Idle);
    states, events := [Disk(tree, Idle), s1, s2, s2], [Begin(model, version, data), Stop, Recover(listed)];
    RemovableExactly(model, version);
    forall p | p in s2.tree.files ensures !Removable(p) {
      if Removable(p) { RemovableEnds(p); }
    }
    assert Leftovers(s2.tree.files, listed) == {};
    assert Step(s2, Recover(listed), s2);
  }

  // ---------------------------------------------------------------- the names that are cleaned up

  ghost predicate OnlyThese(events: seq<Event>, names: set<Name>) {
    forall k | 0 <= k < |events| && events[k].Begin? :: (events[k].model, events[k].version) in names
  }

  /** Every recovery can list all directories there are. */
  ghost predicate ListsAll(states: seq<Disk>, events: seq<Event>)
    requires |states| == |events| + 1
  {
    forall k | 0 <= k < |events| && events[k].Recover? :: states[k].tree.dirs <= events[k].listed
  }

  ghost predicate NonePending(t: Tree) { forall p | p in t.files :: !EndsPending(p) }

  /** A run that writes under these names only, whose event `n` finishes a recovery. */
  ghost predicate Cleaning(states: seq<Disk>, events: seq<Event>, n: nat, names: set<Name>) {
    && Run(states, events) && n < |events| && OnlyThese(events, names) && ListsAll(states, events)
    && NonePending(states[0].tree) && Finishes(states[n], events[n], states[n + 1])
  }

  /** After each such recovery no pending file is left. */
  ghost predicate AlwaysCleaned(names: set<Name>) {
    forall states: seq<Disk>, events, n: nat | n + 1 < |states| && Cleaning(states, events, n, names) ::
      NonePending(states[n + 1].tree)
  }

  /** Recovery cleans up after all these names exactly when it finds the pending file of each name
      that can have one. */
  lemma CleanedExactly(names: set<Name>)
    ensures AlwaysCleaned(names) <==> forall p | p in names :: Writable(p.0, p.1) ==> RemovableNames(p.0, p.1)
  {
    hide Writable, RemovableNames, EndsPending, Cleaning;
    if p :| p in names && Writable(p.0, p.1) && !RemovableNames(p.0, p.1) {
      var states, events := Uncleaned(names, p);
    } else {
      forall states: seq<Disk>, events, n: nat | n + 1 < |states| && Cleaning(states, events, n, names)
        ensures NonePending(states[n + 1].tree)
      {
        AllCleaned(states, events, n, names);
      }
    }
  }

  lemma Uncleaned(names: set<Name>, p: Name) returns (states: seq<Disk>, events: seq<Event>)
    requires p in names && Writable(p.0, p.1) && !RemovableNames(p.0, p.1)
    ensures |states| == 4 && Cleaning(states, events, 2, names) && !NonePending(states[2 + 1].tree)
  {
    hide Writable, RemovableNames, EndsPending, PendingPath, CanBegin;
    var tree := WritableTree(p.0, p.1);
    states, events := OtherNamesStayPending(tree, p.0, p.1, "", tree.dirs);
    PathEnds(p.0, p.1);
    RunLists(states, events, names, p, tree);
  }

  lemma RunLists(states: seq<Disk>, events: seq<Event>, names: set<Name>, p: Name, tree: Tree)
    requires Run(states, events) && p in names && states[0] == Disk(tree, Idle)
    requires events == [Begin(p.0, p.1, ""), Stop, Recover(tree.dirs)]
    ensures OnlyThese(events, names) && ListsAll(states, events)
  {
    hide CanBegin, PendingPath, Leftovers;
    assert Step(states[0], events[0], states[1]) && Step(states[1], events[1], states[2]);
  }

  lemma AllCleaned(states: seq<Disk>, events: seq<Event>, n: nat, names: set<Name>)
    requires Cleaning(states, events, n, names)
    requires forall p | p in names :: Writable(p.0, p.1) ==> RemovableNames(p.0, p.1)
    ensures NonePending(states[n + 1].tree)
  {
    hide RemovableNames, Writable, EndsPending, PendingPath, CheckpointPath, CanBegin, Leftovers;
    assert RemovableWrites(events) by {
      forall k | 0 <= k < |events| && events[k].Begin? ensures RemovableNames(events[k].model, events[k].version) {
        BegunIsWritable(states, events, k);
        assert (events[k].model, events[k].version) in names;
      }
    }
    assert Step(states[n], events[n], states[n + 1]);
    var listed := if events[n].Recover? then events[n].listed else states[n].phase.listed;
    RecoveryRemovesPending(states, events, n, listed);
    ListedAreAll(states, events, n, listed);
    RunSane(states, events, n + 1);
    PendingAreRemovable(states, events, n + 1);
    forall p | p in states[n + 1].tree.files ensures !EndsPending(p) {
      assert Parent(p) in listed;
      if EndsPending(p) { RemovableStands(states[n + 1].tree, p); }
    }
  }

  /** A file that recovery would remove stands below the directory of all models. */
  lemma RemovableStands(t: Tree, p: Location)
    requires Sane(t) && p in t.files && Removable(p)
    ensures MODELS in t.dirs && Parent(p) in t.dirs
  {
    var dir := Parent(p);
    assert Parent(dir) == MODELS;
  }

  lemma BegunIsWritable(states: seq<Disk>, events: seq<Event>, k: nat)
    requires Run(states, events) && k < |events| && events[k].Begin?
    ensures Writable(events[k].model, events[k].version)
  {
    hide PendingPath, Way, ModelWay;
    assert Step(states[k], events[k], states[k + 1]);
  }

  lemma StepSane(s: Disk, e: Event, s': Disk)
    requires Sane(s.tree) && RecoveryInv(s) && Step(s, e, s')
    ensures Sane(s'.tree)
  {
    hide Way, ModelWay, PendingPath, CheckpointPath, Visited, Sane;
    if e.Begin? { FilesStand(e.model, e.version); }
    if s.phase.Writing? { FilesStand(s.phase.model, s.phase.version); }
    match e
    case CreateDir(at) => DirSane(s.tree, at);
    case Begin(model, version, _) => PutSane(s.tree, PendingPath(model, version), "");
    case WriteMore(n) => PutSane(s.tree, PendingPath(s.phase.model, s.phase.version), s.phase.data[..n]);
    case Rename =>
      var pending := PendingPath(s.phase.model, s.phase.version);
      WithoutSane(s.tree, pending);
      PutSane(s.tree.(files := s.tree.files - {pending}), CheckpointPath(s.phase.model, s.phase.version), s.phase.data);
    case Stop =>
    case Recover(_) =>
    case RemoveOne(path) => WithoutSane(s.tree, path);
  }

  /** The tree stays sane, and directories are only added. */
  lemma {:induction false} RunSane(states: seq<Disk>, events: seq<Event>, n: nat)
    requires Run(states, events) && n < |states|
    ensures Sane(states[n].tree)
  {
    hide Sane, Step, RecoveryInv;
    if n > 0 {
      RunSane(states, events, n - 1);
      RunInv(states, events, n - 1);
      StepSane(states[n - 1], events[n - 1], states[n]);
    }
  }

  /** The directories that a recovery could list when it began are all there are when it ends. */
  lemma ListedAreAll(states: seq<Disk>, events: seq<Event>, n: nat, listed: set<Location>)
    requires Run(states, events) && n < |events| && ListsAll(states, events) && Finishes(states[n], events[n], states[n + 1])
    requires listed == if events[n].Recover? then events[n].listed else states[n].phase.listed
    ensures states[n + 1].tree.dirs <= listed
  {
    assert Step(states[n], events[n], states[n + 1]);
    if events[n].RemoveOne? { RecoveringListed(states, events, n); }
  }

  lemma {:induction false} RecoveringListed(states: seq<Disk>, events: seq<Event>, n: nat)
    requires Run(states, events) && n < |states| && ListsAll(states, events)
    ensures states[n].phase.Recovering? ==> states[n].tree.dirs <= states[n].phase.listed
  {
    hide CheckpointPath, PendingPath, Leftovers, CanBegin;
    if n > 0 {
      RecoveringListed(states, events, n - 1);
      assert Step(states[n - 1], events[n - 1], states[n]);
    }
  }

  // ---------------------------------------------------------------- an atomic write is a run

  lemma Joined(states: seq<Disk>, events: seq<Event>, states': seq<Disk>, events': seq<Event>)
    returns (all: seq<Disk>, es: seq<Event>)
    requires Run(states, events) && Run(states', events') && states[|events|] == states'[0]
    ensures Run(all, es) && es == events + events' && all[0] == states[0] && all[|es|] == states'[|events'|]
  {
    hide Step, Sane;
    all, es := states + states'[1..], events + events';
    forall i | 0 <= i < |es| ensures Step(all[i], es[i], all[i + 1]) {
      if i >= |events| {
        assert Step(states'[i - |events|], events'[i - |events|], states'[i - |events| + 1]);
      }
    }
  }

  /** Creating directories in order, up to a file in the way, is a run. */
  lemma {:induction false} DirsRun(t: Tree, ds: seq<Location>) returns (states: seq<Disk>, events: seq<Event>)
    requires Sane(t) && forall i | 0 <= i < |ds| :: ds[i] == [] || Parent(ds[i]) in t.dirs + Elements(ds[..i])
    ensures Run(states, events) && states[0] == Disk(t, Idle) && states[|events|] == Disk(MakeDirs(t, ds).0, Idle)
    ensures forall e | e in events :: e.CreateDir?
    decreases |ds|
  {
    states, events := [Disk(t, Idle)], [];
    if ds != [] && ds[0] !in t.files {
      var t' := t.(dirs := t.dirs + {ds[0]});
      assert Elements(ds[..0]) == {};
      if ds[0] != [] {
        DirSane(t, ds[0]);
        states, events := [Disk(t, Idle), Disk(t', Idle)], [CreateDir(ds[0])];
        assert Step(Disk(t, Idle), CreateDir(ds[0]), Disk(t', Idle));
      } else {
        assert t'.dirs == t.dirs;
      }
      forall i | 0 <= i < |ds| - 1 ensures ds[1..][i] == [] || Parent(ds[1..][i]) in t'.dirs + Elements(ds[1..][..i]) {
        assert ds[..i + 1] == [ds[0]] + ds[1..][..i];
      }
      var states', events' := DirsRun(t', ds[1..]);
      states, events := Joined(states, events, states', events');
    }
  }

  lemma ModelDirsRun(t: Tree, model: string, limit: nat) returns (states: seq<Disk>, events: seq<Event>)
    requires Sane(t)
    ensures Run(states, events) && states[0] == Disk(t, Idle) && states[|events|] == Disk(Prepared(t, model, limit), Idle)
    ensures forall e | e in events :: e.CreateDir?
  {
    hide Run, Sane;
    var way := ModelWay(model);
    var n := if limit < |way| then limit else |way|;
    WayIsRooted(MODELS, model);
    assert way[..|way|] == way;
    forall i | 0 <= i < n ensures way[..n][i] == [] || Parent(way[..n][i]) in t.dirs + Elements(way[..n][..i]) {
      assert way[..n][..i] == way[..i];
    }
    states, events := DirsRun(t, way[..n]);
  }

  /** The steps of a write after its model directory is there: `written` characters reach the pending
      file, and a whole one may be renamed. */
  lemma WriteRun(t: Tree, model: string, version: string, data: string, written: nat, rename: bool)
    returns (states: seq<Disk>, events: seq<Event>)
    requires Sane(t) && CanBegin(t, model, version) && written <= |data|
    requires rename ==> written == |data| && CheckpointPath(model, version) !in t.dirs
    ensures Run(states, events) && states[0] == Disk(t, Idle)
    ensures var pending, path := PendingPath(model, version), CheckpointPath(model, version);
            states[|events|] == Disk(if rename then Renamed(t, pending, path, data) else Put(t, pending, data[..written]), Idle)
    ensures events == [Begin(model, version, data), WriteMore(written), if rename then Rename else Stop]
  {
    hide CanBegin, PendingPath, CheckpointPath, Sane;
    var pending, path := PendingPath(model, version), CheckpointPath(model, version);
    var s0 := Disk(t, Idle);
    var s1 := Disk(Put(t, pending, ""), Writing(model, version, data, 0));
    var s2 := Disk(Put(s1.tree, pending, data[..written]), s1.phase.(written := written));
    var s3 := if rename then Disk(Renamed(s2.tree, pending, path, data), Idle) else s2.(phase := Idle);
    states := [s0, s1, s2, s3];
    events := [Begin(model, version, data), WriteMore(written), if rename then Rename else Stop];
    assert Step(s0, events[0], s1) && Step(s1, events[1], s2) && Step(s2, events[2], s3);
    assert s2.tree == Put(t, pending, data[..written]);
    assert t.files[pending := data[..written]] - {pending} == t.files - {pending};
  }

  /** An atomic write, however it ends, is a run of the protocol, so what holds over runs holds of it;
      what a torn write leaves is a beginning of the data. */
  lemma AtomicIsRun(l: Layer, p: Name, data: string, outcome: AtomicOutcome) returns (states: seq<Disk>, events: seq<Event>)
    requires Sane(l.tree) && (outcome.TornPending? ==> outcome.partial <= data)
    ensures Run(states, events) && states[0] == Disk(l.tree, Idle)
    ensures states[|events|] == Disk(Apply(l, Atomic(p.0, p.1, data, outcome)).tree, Idle)
    ensures forall e | e in events && e.Begin? :: e == Begin(p.0, p.1, data)
    ensures Rename in events <==> outcome.Committed? && CanCommit(l.tree, p)
  {
    hide Run, Sane, CheckpointPath, PendingPath, Opens, Way;
    var limit := if outcome.ModelDirRefused? then outcome.made else |ModelWay(p.0)|;
    states, events := ModelDirsRun(l.tree, p.0, limit);
    var t, pending := WithModelDir(l.tree, p.0), PendingPath(p.0, p.1);
    PreparedSane(l.tree, p.0, limit);
    if !outcome.ModelDirRefused? && !outcome.NoPending? && CanWrite(l.tree, p.0, p.1, pending) {
      assert CanBegin(t, p.0, p.1);
      var written := if outcome.TornPending? then |outcome.partial| else |data|;
      assert data[..written] == if outcome.TornPending? then outcome.partial else data;
      var states', events' := WriteRun(t, p.0, p.1, data, written, outcome.Committed? && CanCommit(l.tree, p));
      assert Rename in events' <==> events'[2] == Rename;
      assert forall e | e in events' && e.Begin? :: e == Begin(p.0, p.1, data);
      states, events := Joined(states, events, states', events');
    }
  }
}
