/** The checkpoint store on values: a cache of the five most recent checkpoints over files and
    directories. Files are known by where they are, so two names may mean one file. */
module ModelStorage {
  import opened Common
  import opened Paths
  import opened Directories

  /** The directory of all models; it may be anywhere. */
  const MODELS: Location

  type Name = (string, string)         // model and version
  type Cache = seq<(string, string)>   // key and value, most recently used first

  const CAPACITY := 5

  function CacheKey(model: string, version: string): string { model + "/" + version }
  function ModelDir(model: string): Location { Resolve(MODELS, model) }
  function CheckpointPath(model: string, version: string): Location { Resolve(ModelDir(model), version + ".parquet") }
  function PendingPath(model: string, version: string): Location { Resolve(ModelDir(model), version + ".pending") }

  /** The directories that a write creates for its model, in this order. */
  function ModelWay(model: string): seq<Location> { WayTo(MODELS, model) }

  /** The directories that must be there to reach a checkpoint, or its pending file. */
  function Way(model: string, version: string): set<Location> {
    (if Absolute(version) then {[]} else Elements(ModelWay(model))) +
    Elements(Trail(From(ModelDir(model), version), Pieces(version)[..|Pieces(version)| - 1]))
  }

  /** A file can be opened for writing at `at`, which lies at the end of the way. */
  predicate Opens(t: Tree, model: string, version: string, at: Location) {
    Way(model, version) <= t.dirs && at !in t.dirs
  }

  /** Something stands where the checkpoint should be, a file or a directory. */
  predicate Exists(t: Tree, model: string, version: string) {
    Way(model, version) <= t.dirs && (CheckpointPath(model, version) in t.dirs || CheckpointPath(model, version) in t.files)
  }

  /** The tree after creating the first `limit` directories for the model. */
  function Prepared(t: Tree, model: string, limit: nat): Tree {
    var way := ModelWay(model);
    MakeDirs(t, if limit < |way| then way[..limit] else way).0
  }

  function WithModelDir(t: Tree, model: string): Tree { MakeDirs(t, ModelWay(model)).0 }

  /** The model directory can be created and the file at `at` be opened. */
  predicate CanWrite(t: Tree, model: string, version: string, at: Location) {
    MakeDirs(t, ModelWay(model)).1 && Opens(WithModelDir(t, model), model, version, at)
  }

  // ---------------------------------------------------------------- the cache

  function Keys(c: Cache): seq<string> {
    seq(|c|, i requires 0 <= i < |c| => c[i].0)
  }

  predicate Distinct(keys: seq<string>) { forall i, j | 0 <= i < j < |keys| :: keys[i] != keys[j] }

  function Find(c: Cache, key: string): Option<string> {
    if c == [] then None else if c[0].0 == key then Some(c[0].1) else Find(c[1..], key)
  }

  function Without(c: Cache, key: string): Cache {
    if c == [] then []
    else if c[0].0 == key then c[1..]
    else [c[0]] + Without(c[1..], key)
  }

  function UpdateCache(c: Cache, key: string, value: string): Cache {
    if Find(c, key).Some? then [(key, value)] + Without(c, key)
    else [(key, value)] + (if |c| >= CAPACITY then c[..|c| - 1] else c)
  }

  // ---------------------------------------------------------------- operations

  datatype Error = VersionNotFound | ReadFailed

  datatype Loaded = Data(data: string) | Failed(error: Error)

  /** What a read that bypasses the cache returns. */
  function ReadDisk(t: Tree, model: string, version: string): Loaded {
    var path := CheckpointPath(model, version);
    if !Exists(t, model, version) then Failed(VersionNotFound)
    else if path in t.dirs then Failed(ReadFailed)
    else Data(t.files[path])
  }

  /** `uses` records the keys stored or served so far, `dropped` the keys thrown out as stale. */
  datatype Layer = Layer(tree: Tree, cache: Cache, uses: seq<string>, dropped: seq<string>)

  // how a write ends, as far as the directories and files in its way allow
  datatype SaveOutcome = Saved | DirRefused(made: nat) | NotOpened | TornSave(partial: string)
  datatype AtomicOutcome = Committed | ModelDirRefused(made: nat) | NoPending | TornPending(partial: string) | NotRenamed

  datatype Op =
    | Save(model: string, version: string, data: string, saved: SaveOutcome)
    | Atomic(model: string, version: string, data: string, outcome: AtomicOutcome)
    | Load(model: string, version: string)
    | Delete(path: Location)   // by someone else: a file, or a directory with its content

  function Remember(l: Layer, key: string, value: string): Layer {
    l.(cache := UpdateCache(l.cache, key, value), uses := l.uses + [key])
  }

  /** Loading; `readable` says whether the file can be read, should it come to that. */
  function LoadWith(l: Layer, model: string, version: string, readable: bool): (r: (Loaded, Layer)) {
    var key := CacheKey(model, version);
    var hit := Find(l.cache, key);
    if hit.Some? && Exists(l.tree, model, version) then
      (Data(hit.value), Remember(l, key, hit.value))
    else
      var l1 := if hit.Some? then l.(cache := Without(l.cache, key), dropped := l.dropped + [key]) else l;
      match ReadDisk(l1.tree, model, version)
      case Failed(error) => (Failed(error), l1)
      case Data(data) => if readable then (Data(data), Remember(l1, key, data)) else (Failed(ReadFailed), l1)
  }

  function LoadModel(l: Layer, model: string, version: string): (Loaded, Layer) {
    LoadWith(l, model, version, true)
  }

  function ApplySave(l: Layer, model: string, version: string, data: string, outcome: SaveOutcome): Layer {
    var path, t := CheckpointPath(model, version), WithModelDir(l.tree, model);
    if outcome.DirRefused? then l.(tree := Prepared(l.tree, model, outcome.made))
    else if outcome.NotOpened? || !CanWrite(l.tree, model, version, path) then l.(tree := t)
    else if outcome.TornSave? then l.(tree := Put(t, path, outcome.partial))
    else Remember(l.(tree := Put(t, path, data)), CacheKey(model, version), data)
  }

  /** Takes the pending file away and puts its content at `to`. */
  function Renamed(t: Tree, pending: Location, to: Location, data: string): Tree {
    Put(t.(files := t.files - {pending}), to, data)
  }

  function ApplyAtomic(l: Layer, model: string, version: string, data: string, outcome: AtomicOutcome): Layer {
    var pending, path, t := PendingPath(model, version), CheckpointPath(model, version), WithModelDir(l.tree, model);
    if outcome.ModelDirRefused? then l.(tree := Prepared(l.tree, model, outcome.made))
    else if outcome.NoPending? || !CanWrite(l.tree, model, version, pending) then l.(tree := t)
    else if outcome.TornPending? then l.(tree := Put(t, pending, outcome.partial))
    else if outcome.NotRenamed? || path in t.dirs then l.(tree := Put(t, pending, data))
    else Remember(l.(tree := Renamed(t, pending, path, data)), CacheKey(model, version), data)
  }

  function Apply(l: Layer, op: Op): Layer {
    match op
    case Save(model, version, data, outcome) => ApplySave(l, model, version, data, outcome)
    case Atomic(model, version, data, outcome) => ApplyAtomic(l, model, version, data, outcome)
    case Load(model, version) => LoadModel(l, model, version).1
    case Delete(path) => l.(tree := Remove(l.tree, path))
  }

  function Run(l: Layer, ops: seq<Op>): Layer
    decreases |ops|
  {
    if ops == [] then l else Apply(Run(l, ops[..|ops| - 1]), ops[|ops| - 1])
  }

  // ---------------------------------------------------------------- cache structure

  lemma {:induction false} FindIn(c: Cache, key: string)
    ensures Find(c, key).Some? <==> key in Keys(c)
    ensures Find(c, key).Some? ==> (key, Find(c, key).value) in c
  {
    if c != [] {
      FindIn(c[1..], key);
      assert Keys(c) == [c[0].0] + Keys(c[1..]);
    }
  }

  lemma {:induction false} FindAt(c: Cache, i: nat)
    requires i < |c| && Distinct(Keys(c))
    ensures Find(c, c[i].0) == Some(c[i].1)
  {
    if i > 0 {
      assert Keys(c)[0] != Keys(c)[i];
      assert Keys(c[1..]) == Keys(c)[1..];
      FindAt(c[1..], i - 1);
    }
  }

  /** Removing a key that stands at position `i` closes the gap there. */
  lemma {:induction false} WithoutAt(c: Cache, i: nat)
    requires i < |c| && Distinct(Keys(c))
    ensures Without(c, c[i].0) == c[..i] + c[i + 1..]
  {
    if i > 0 {
      assert Keys(c)[0] != Keys(c)[i];
      assert Keys(c[1..]) == Keys(c)[1..];
      WithoutAt(c[1..], i - 1);
    }
  }

  lemma {:induction false} WithoutAbsent(c: Cache, key: string)
    requires key !in Keys(c)
    ensures Without(c, key) == c
  {
    if c != [] {
      assert Keys(c) == [c[0].0] + Keys(c[1..]);
      WithoutAbsent(c[1..], key);
    }
  }

  lemma WithoutKeys(c: Cache, key: string)
    requires Distinct(Keys(c))
    ensures Distinct(Keys(Without(c, key))) && key !in Keys(Without(c, key))
    ensures |Without(c, key)| == if key in Keys(c) then |c| - 1 else |c|
    ensures forall e | e in Without(c, key) :: e in c
  {
    if key in Keys(c) {
      var i :| 0 <= i < |c| && c[i].0 == key by {
        var i :| 0 <= i < |Keys(c)| && Keys(c)[i] == key;
        assert c[i].0 == key;
      }
      WithoutAt(c, i);
      var w := c[..i] + c[i + 1..];
      forall k | 0 <= k < |w| ensures Keys(w)[k] == Keys(c)[if k < i then k else k + 1] && Keys(w)[k] != key {
        assert Keys(c)[i] == key;
      }
    } else {
      WithoutAbsent(c, key);
    }
  }

  lemma UpdateKeeps(c: Cache, key: string, value: string)
    requires Distinct(Keys(c)) && |c| <= CAPACITY
    ensures var u := UpdateCache(c, key, value);
            && Distinct(Keys(u)) && 1 <= |u| <= CAPACITY && u[0] == (key, value)
            && (forall e | e in u :: e == (key, value) || e in c)
  {
    FindIn(c, key);
    WithoutKeys(c, key);
    var u := UpdateCache(c, key, value);
    if key in Keys(c) {
      assert Keys(u) == [key] + Keys(Without(c, key));
    } else {
      var kept := if |c| >= CAPACITY then c[..|c| - 1] else c;
      assert Keys(u) == [key] + Keys(kept);
      assert forall k | 0 <= k < |kept| :: Keys(kept)[k] == Keys(c)[k];
    }
  }

  // ---------------------------------------------------------------- the tree stays sane

  lemma WayReaches(model: string, version: string)
    ensures Closed(Way(model, version)) && Closed(Elements(ModelWay(model)))
    ensures Directory(ModelDir(model), version) in Way(model, version)
    ensures ModelDir(model) in ModelWay(model)
  {
    hide Pieces, Trail, Walk;
    var way := ModelWay(model);
    WayIsRooted(MODELS, model);
    RootedIsClosed(way);
    assert way[|way| - 1] == ModelDir(model);
    var front := Pieces(version)[..|Pieces(version)| - 1];
    var trail := Trail(From(ModelDir(model), version), front);
    assert trail[|trail| - 1] == Directory(ModelDir(model), version);
    TrailCloses(if Absolute(version) then {[]} else Elements(way), From(ModelDir(model), version), front);
  }

  /** Where the checkpoint and the pending file stand: in the directory at the end of the way. */
  lemma FilesStand(model: string, version: string)
    ensures var path, pending := CheckpointPath(model, version), PendingPath(model, version);
            && path != [] && Parent(path) in Way(model, version)
            && pending != [] && Parent(pending) in Way(model, version) && path != pending
  {
    hide Way, Directory, LastPiece, Resolve;
    ResolveFile(ModelDir(model), version, ".parquet");
    ResolveFile(ModelDir(model), version, ".pending");
    WayReaches(model, version);
    PathKinds(model, version, model, version);
  }

  lemma PreparedSane(t: Tree, model: string, limit: nat)
    requires Sane(t)
    ensures Sane(Prepared(t, model, limit)) && Sane(WithModelDir(t, model))
  {
    hide Sane;
    var way := ModelWay(model);
    WayIsRooted(MODELS, model);
    assert way[..|way|] == way;
    RootedSane(t, way, |way|);
    RootedSane(t, way, if limit < |way| then limit else |way|);
  }

  lemma ApplySane(l: Layer, op: Op)
    requires Sane(l.tree)
    ensures Sane(Apply(l, op).tree)
  {
    hide Sane, Way, CheckpointPath, PendingPath, UpdateCache, WithModelDir, Prepared, Find, Without, Exists;
    match op
    case Save(model, version, data, outcome) =>
      FilesStand(model, version);
      PreparedSane(l.tree, model, if outcome.DirRefused? then outcome.made else 0);
      var path, t := CheckpointPath(model, version), WithModelDir(l.tree, model);
      if CanWrite(l.tree, model, version, path) {
        PutSane(t, path, data);
        if outcome.TornSave? { PutSane(t, path, outcome.partial); }
      }
    case Atomic(model, version, data, outcome) =>
      FilesStand(model, version);
      PreparedSane(l.tree, model, if outcome.ModelDirRefused? then outcome.made else 0);
      var pending, path, t := PendingPath(model, version), CheckpointPath(model, version), WithModelDir(l.tree, model);
      if CanWrite(l.tree, model, version, pending) {
        PutSane(t, pending, data);
        if outcome.TornPending? { PutSane(t, pending, outcome.partial); }
        if path !in t.dirs {
          WithoutSane(t, pending);
          PutSane(t.(files := t.files - {pending}), path, data);
        }
      }
    case Load(model, version) =>
    case Delete(path) => RemoveSane(l.tree, path);
  }

  // ---------------------------------------------------------------- agreement with the disk

  predicate Bounded(c: Cache) { Distinct(Keys(c)) && |c| <= CAPACITY }

  function KeyOf(name: Name): string { CacheKey(name.0, name.1) }
  function FileOf(name: Name): Location { CheckpointPath(name.0, name.1) }

  /** The way to the checkpoint `q` needs a directory where the file of `p` would stand. */
  predicate Blocks(p: Name, q: Name) { FileOf(p) in Way(q.0, q.1) }

  /** For names with files that can be there at all: no write makes a directory of such a file, one
      file has one key, and one key means one file, unless the other file needs the first to be a
      directory. */
  predicate Corresponding(names: set<Name>) {
    forall p, q | p in names && q in names && !Blocks(q, q) ::
      && FileOf(q) !in ModelWay(p.0)
      && (!Blocks(p, p) && FileOf(p) == FileOf(q) ==> KeyOf(p) == KeyOf(q))
      && (KeyOf(p) == KeyOf(q) && !Blocks(q, p) ==> FileOf(p) == FileOf(q))
  }

  /** `value` is what the file of `q` holds if it is there, and no directory stands in its place. */
  predicate Holds(t: Tree, q: Name, value: string) {
    !Blocks(q, q) && FileOf(q) !in t.dirs && (FileOf(q) in t.files ==> t.files[FileOf(q)] == value)
  }

  /** Every cached value is that of the file of one of the names, if the file is there. */
  predicate Coherent(t: Tree, c: Cache, names: set<Name>) {
    forall e | e in c :: exists q :: q in names && KeyOf(q) == e.0 && Holds(t, q, e.1)
  }

  predicate Inv(l: Layer, names: set<Name>) { Bounded(l.cache) && Coherent(l.tree, l.cache, names) }

  /** A pending file is never a checkpoint, under whatever names. */
  lemma PathKinds(model: string, version: string, model': string, version': string)
    ensures PendingPath(model, version) != CheckpointPath(model', version')
  {
    hide Directory, LastPiece, Resolve;
    ResolveFile(ModelDir(model), version, ".pending");
    ResolveFile(ModelDir(model'), version', ".parquet");
    var p, q := LastPiece(version) + ".pending", LastPiece(version') + ".parquet";
    assert p[|p| - 1] == 'g' && q[|q| - 1] == 't';
    var a, b := PendingPath(model, version), CheckpointPath(model', version');
    assert a[|a| - 1] == p && b[|b| - 1] == q;
  }

  /** A tree in which every such value still holds keeps the cache in agreement. */
  lemma TreeKeeps(l: Layer, names: set<Name>, t: Tree)
    requires Inv(l, names)
    requires forall q, value | q in names && Holds(l.tree, q, value) :: Holds(t, q, value)
    ensures Inv(l.(tree := t), names)
  {
    hide Holds, KeyOf, Bounded;
  }

  lemma RememberKeeps(l: Layer, names: set<Name>, q: Name, value: string)
    requires Inv(l, names) && q in names && Holds(l.tree, q, value)
    ensures Inv(Remember(l, KeyOf(q), value), names)
  {
    hide KeyOf, Holds, UpdateCache, Distinct;
    UpdateKeeps(l.cache, KeyOf(q), value);
  }

  /** After an update the other cached pairs are old ones under other keys. */
  lemma UpdateOthers(c: Cache, key: string, value: string)
    requires Bounded(c)
    ensures forall e | e in UpdateCache(c, key, value) :: e == (key, value) || (e in c && e.0 != key)
  {
    hide UpdateCache;
    UpdateKeeps(c, key, value);
    var u := UpdateCache(c, key, value);
    forall i | 0 < i < |u| ensures u[i].0 != key { assert Keys(u)[0] != Keys(u)[i]; }
  }

  /** Writing the file of a name and remembering the value under its key. */
  lemma WriteKeeps(l: Layer, names: set<Name>, q: Name, value: string)
    requires Inv(l, names) && Corresponding(names) && q in names && Opens(l.tree, q.0, q.1, FileOf(q))
    ensures Inv(Remember(l.(tree := Put(l.tree, FileOf(q), value)), KeyOf(q), value), names)
  {
    hide KeyOf, FileOf, UpdateCache, Way, Distinct;
    var t := Put(l.tree, FileOf(q), value);
    UpdateKeeps(l.cache, KeyOf(q), value);
    UpdateOthers(l.cache, KeyOf(q), value);
    assert Holds(t, q, value);
    forall e | e in l.cache && e.0 != KeyOf(q) ensures exists p :: p in names && KeyOf(p) == e.0 && Holds(t, p, e.1) {
      var p :| p in names && KeyOf(p) == e.0 && Holds(l.tree, p, e.1);
      OtherHolds(l.tree, names, p, q, e.1, value);
    }
  }

  lemma OtherHolds(t: Tree, names: set<Name>, p: Name, q: Name, old': string, value: string)
    requires Corresponding(names) && p in names && q in names && KeyOf(p) != KeyOf(q)
    requires Holds(t, p, old') && Opens(t, q.0, q.1, FileOf(q))
    ensures Holds(Put(t, FileOf(q), value), p, old')
  {
    hide KeyOf, FileOf, Way;
    assert !Blocks(q, q);
  }

  lemma PreparedKeeps(l: Layer, names: set<Name>, p: Name, limit: nat)
    requires Inv(l, names) && Corresponding(names) && p in names
    ensures Inv(l.(tree := Prepared(l.tree, p.0, limit)), names) && Inv(l.(tree := WithModelDir(l.tree, p.0)), names)
  {
    hide FileOf, KeyOf, Way, Inv, ModelWay;
    forall q, value | q in names && Holds(l.tree, q, value)
      ensures Holds(Prepared(l.tree, p.0, limit), q, value) && Holds(WithModelDir(l.tree, p.0), q, value)
    {
      assert FileOf(q) !in ModelWay(p.0);
    }
    TreeKeeps(l, names, Prepared(l.tree, p.0, limit));
    TreeKeeps(l, names, WithModelDir(l.tree, p.0));
  }

  /** Other files may come and go. */
  lemma OtherFileKeeps(l: Layer, names: set<Name>, model: string, version: string, content: string)
    requires Inv(l, names)
    ensures Inv(l.(tree := Put(l.tree, PendingPath(model, version), content)), names)
    ensures Inv(l.(tree := l.tree.(files := l.tree.files - {PendingPath(model, version)})), names)
  {
    hide CheckpointPath, PendingPath, Way, Inv;
    var pending := PendingPath(model, version);
    forall q: Name ensures FileOf(q) != pending { PathKinds(model, version, q.0, q.1); }
    TreeKeeps(l, names, Put(l.tree, pending, content));
    TreeKeeps(l, names, l.tree.(files := l.tree.files - {pending}));
  }

  /** A cached value under the key of a checkpoint that exists is the content of its file. */
  lemma HitIsRead(l: Layer, names: set<Name>, p: Name, value: string)
    requires Inv(l, names) && Corresponding(names) && p in names
    requires Find(l.cache, KeyOf(p)) == Some(value) && Exists(l.tree, p.0, p.1)
    ensures ReadDisk(l.tree, p.0, p.1) == Data(value)
  {
    hide CheckpointPath, CacheKey, Way, Find;
    FindIn(l.cache, KeyOf(p));
    var q :| q in names && KeyOf(q) == KeyOf(p) && Holds(l.tree, q, value);
    assert !Blocks(q, p);
    assert FileOf(p) == FileOf(q);
  }

  /** Loading returns what an uncached read returns, and keeps the cache in agreement. */
  lemma LoadIsRead(l: Layer, names: set<Name>, model: string, version: string)
    requires Inv(l, names) && Corresponding(names) && (model, version) in names
    ensures LoadModel(l, model, version).0 == ReadDisk(l.tree, model, version)
    ensures Inv(LoadModel(l, model, version).1, names) && LoadModel(l, model, version).1.tree == l.tree
  {
    hide CheckpointPath, Distinct, UpdateCache, Way, CacheKey, Corresponding;
    var name := (model, version);
    var key, disk := KeyOf(name), ReadDisk(l.tree, model, version);
    FindIn(l.cache, key);
    WithoutKeys(l.cache, key);
    if Find(l.cache, key).Some? && Exists(l.tree, model, version) {
      HitIsRead(l, names, name, Find(l.cache, key).value);
    }
    if disk.Data? {
      RememberKeeps(l, names, name, disk.data);
    }
  }

  predicate SavesWhole(op: Op) { op.Save? ==> !op.saved.TornSave? }

  predicate Uses(op: Op, names: set<Name>) { !op.Delete? ==> (op.model, op.version) in names }

  lemma SaveKeeps(l: Layer, op: Op, names: set<Name>)
    requires op.Save? && Inv(l, names) && Corresponding(names) && SavesWhole(op) && Uses(op, names)
    ensures Inv(Apply(l, op), names)
  {
    hide CheckpointPath, PendingPath, CacheKey, Inv, Corresponding, UpdateCache, WithModelDir, Prepared, Put, Opens;
    var name := (op.model, op.version);
    PreparedKeeps(l, names, name, if op.saved.DirRefused? then op.saved.made else 0);
    if CanWrite(l.tree, op.model, op.version, FileOf(name)) {
      WriteKeeps(l.(tree := WithModelDir(l.tree, op.model)), names, name, op.data);
    }
  }

  lemma AtomicKeeps(l: Layer, op: Op, names: set<Name>)
    requires op.Atomic? && Inv(l, names) && Corresponding(names) && Uses(op, names)
    ensures Inv(Apply(l, op), names)
  {
    hide CheckpointPath, PendingPath, CacheKey, Inv, Corresponding, UpdateCache, WithModelDir, Prepared, Put, Way;
    var name, pending := (op.model, op.version), PendingPath(op.model, op.version);
    PreparedKeeps(l, names, name, if op.outcome.ModelDirRefused? then op.outcome.made else 0);
    var l1 := l.(tree := WithModelDir(l.tree, op.model));
    OtherFileKeeps(l1, names, op.model, op.version, if op.outcome.TornPending? then op.outcome.partial else op.data);
    if CanWrite(l.tree, op.model, op.version, pending) && FileOf(name) !in l1.tree.dirs {
      WriteKeeps(l1.(tree := l1.tree.(files := l1.tree.files - {pending})), names, name, op.data);
    }
  }

  lemma DeleteKeeps(l: Layer, path: Location, names: set<Name>)
    requires Inv(l, names)
    ensures Inv(l.(tree := Remove(l.tree, path)), names)
  {
    hide FileOf, KeyOf, Way, Inv;
    TreeKeeps(l, names, Remove(l.tree, path));
  }

  lemma ApplyKeeps(l: Layer, op: Op, names: set<Name>)
    requires Inv(l, names) && Corresponding(names) && SavesWhole(op) && Uses(op, names)
    ensures Inv(Apply(l, op), names)
  {
    hide Inv, Corresponding, Remove, ApplySave, ApplyAtomic, LoadModel;
    match op
    case Save(_, _, _, _) => SaveKeeps(l, op, names);
    case Atomic(_, _, _, _) => AtomicKeeps(l, op, names);
    case Load(model, version) => LoadIsRead(l, names, model, version);
    case Delete(path) => DeleteKeeps(l, path, names);
  }

  predicate Proper(ops: seq<Op>, names: set<Name>) {
    forall i | 0 <= i < |ops| :: SavesWhole(ops[i]) && Uses(ops[i], names)
  }

  /** Over every run of saves, atomic writes failing in any phase, loads and outside deletions in
      which no save fails after truncating its file, the cache agrees with the disk and the tree
      stays sane, when keys and files of the names used correspond. */
  lemma {:induction false} RunKeeps(tree: Tree, ops: seq<Op>, names: set<Name>)
    requires Sane(tree) && Corresponding(names) && Proper(ops, names)
    ensures Inv(Run(Layer(tree, [], [], []), ops), names) && Sane(Run(Layer(tree, [], [], []), ops).tree)
    decreases |ops|
  {
    hide Corresponding, SavesWhole, Uses, Sane, Apply;
    if ops != [] {
      var before := Run(Layer(tree, [], [], []), ops[..|ops| - 1]);
      RunKeeps(tree, ops[..|ops| - 1], names);
      ApplyKeeps(before, ops[|ops| - 1], names);
      ApplySane(before, ops[|ops| - 1]);
    }
  }

  /** From every state of the disk, after every such run, a load of any of the names returns what an
      uncached read returns. */
  ghost predicate AlwaysAgrees(names: set<Name>) {
    forall tree, ops, p: Name | Sane(tree) && p in names && Proper(ops, names) :: AgreesAfter(tree, ops, p)
  }

  ghost predicate AgreesAfter(tree: Tree, ops: seq<Op>, p: Name) {
    var l := Run(Layer(tree, [], [], []), ops);
    LoadModel(l, p.0, p.1).0 == ReadDisk(l.tree, p.0, p.1)
  }

  /** Loads agree with the disk over every run with these names exactly when keys and files of the
      names correspond. */
  lemma LoadAgreesWithDisk(names: set<Name>)
    ensures AlwaysAgrees(names) <==> Corresponding(names)
  {
    hide Corresponding, Proper, AgreesAfter, Sane;
    if Corresponding(names) {
      forall tree, ops, p: Name | Sane(tree) && p in names && Proper(ops, names) ensures AgreesAfter(tree, ops, p) {
        AgreesWhenCorresponding(tree, ops, names, p);
      }
    } else {
      var tree, ops, p := Disagreement(names);
    }
  }

  lemma AgreesWhenCorresponding(tree: Tree, ops: seq<Op>, names: set<Name>, p: Name)
    requires Sane(tree) && Corresponding(names) && Proper(ops, names) && p in names
    ensures AgreesAfter(tree, ops, p)
  {
    RunKeeps(tree, ops, names);
    LoadIsRead(Run(Layer(tree, [], [], []), ops), names, p.0, p.1);
  }

  /** Names that do not correspond give a disk and a run after which a load is wrong: a directory is
      taken for the file it replaced, two keys of one file keep an old value, or two files under one
      key are taken for each other. */
  lemma Disagreement(names: set<Name>) returns (tree: Tree, ops: seq<Op>, p: Name)
    requires !Corresponding(names)
    ensures Sane(tree) && p in names && Proper(ops, names) && !AgreesAfter(tree, ops, p)
  {
    hide CheckpointPath, CacheKey, Way, Sane, AgreesAfter, ModelWay;
    if a: Name, b: Name :| a in names && b in names && !Blocks(b, b) && FileOf(b) in ModelWay(a.0) {
      p, ops := b, [Load(b.0, b.1), Delete(FileOf(b)), Save(a.0, a.1, "", NotOpened)];
      tree := DirectoryTaken(a, b);
    } else if a: Name, b: Name :| a in names && b in names && !Blocks(b, b) && !Blocks(a, a) && FileOf(a) == FileOf(b) && KeyOf(a) != KeyOf(b) {
      p, ops := a, [Load(a.0, a.1), Save(b.0, b.1, "2", Saved)];
      tree := StaleAfter(a, b);
    } else {
      var a: Name, b: Name :| a in names && b in names && !Blocks(b, b) && KeyOf(a) == KeyOf(b) && !Blocks(b, a) && FileOf(a) != FileOf(b);
      p, ops := a, [Load(b.0, b.1)];
      tree := MixedUpAfter(a, b);
    }
  }

  lemma OneOp(l: Layer, x: Op)
    ensures Run(l, [x]) == Apply(l, x)
  {
    assert [x][..0] == [];
    assert Run(l, []) == l;
  }

  lemma TwoOps(l: Layer, x: Op, y: Op)
    ensures Run(l, [x, y]) == Apply(Apply(l, x), y)
  {
    hide Apply;
    assert [x, y][..1] == [x];
    OneOp(l, x);
  }

  lemma ThreeOps(l: Layer, x: Op, y: Op, z: Op)
    ensures Run(l, [x, y, z]) == Apply(Apply(Apply(l, x), y), z)
  {
    hide Apply;
    assert [x, y, z][..2] == [x, y];
    TwoOps(l, x, y);
  }

  function Start(t: Tree): Layer { Layer(t, [], [], []) }

  /** The file of `p` alone, in a tree with these directories. */
  function With(ds: set<Location>, p: Name, content: string): Tree { Put(Bare(ds), FileOf(p), content) }

  lemma FirstLoad(t: Tree, p: Name)
    requires Way(p.0, p.1) <= t.dirs && FileOf(p) in t.files && FileOf(p) !in t.dirs
    ensures var l := Apply(Start(t), Load(p.0, p.1)); l.tree == t && l.cache == [(KeyOf(p), t.files[FileOf(p)])]
  {
    hide CheckpointPath, CacheKey, Way;
    assert Find([], KeyOf(p)) == None;
  }

  lemma OnlyKey(key: string, value: string, other: string)
    ensures Find([(key, value)], other) == if other == key then Some(value) else None
  {
    assert [(key, value)][1..] == [];
    assert Find([], other) == None;
  }

  lemma SecondKey(key: string, value: string, key': string, value': string)
    requires key != key'
    ensures Find([(key, value), (key', value')], key') == Some(value')
  {
    assert [(key, value), (key', value')][1..] == [(key', value')];
    OnlyKey(key', value', key');
  }

  lemma WaysClose(a: Name, b: Name)
    ensures Closed(Way(b.0, b.1)) && Closed(Way(a.0, a.1) + Way(b.0, b.1))
    ensures Closed(Way(a.0, a.1) + Way(b.0, b.1) + Elements(ModelWay(b.0)))
    ensures FileOf(a) != [] && Parent(FileOf(a)) in Way(a.0, a.1) && FileOf(b) != [] && Parent(FileOf(b)) in Way(b.0, b.1)
  {
    hide Way, CheckpointPath, ModelWay;
    WayReaches(a.0, a.1);
    WayReaches(b.0, b.1);
    FilesStand(a.0, a.1);
    FilesStand(b.0, b.1);
  }

  lemma DirectoryTaken(a: Name, b: Name) returns (tree: Tree)
    requires !Blocks(b, b) && FileOf(b) in ModelWay(a.0)
    ensures Sane(tree) && !AgreesAfter(tree, [Load(b.0, b.1), Delete(FileOf(b)), Save(a.0, a.1, "", NotOpened)], b)
  {
    hide CheckpointPath, CacheKey, Way, ModelWay, Run;
    WaysClose(a, b);
    var way := Way(b.0, b.1);
    tree := With(way, b, "1");
    ThreeOps(Start(tree), Load(b.0, b.1), Delete(FileOf(b)), Save(a.0, a.1, "", NotOpened));
    FirstLoad(tree, b);
    var l1 := Apply(Start(tree), Load(b.0, b.1));
    var l2 := Apply(l1, Delete(FileOf(b)));
    forall d | d in way ensures d in l2.tree.dirs {
      if FileOf(b) <= d { ClosedAbove(way, d, FileOf(b)); }
    }
    assert l2.tree.files == map[];
    var l3 := Apply(l2, Save(a.0, a.1, "", NotOpened));
    assert l3.tree.dirs == l2.tree.dirs + Elements(ModelWay(a.0)) && l3.cache == l1.cache;
    OnlyKey(KeyOf(b), "1", KeyOf(b));
  }

  lemma StaleAfter(a: Name, b: Name) returns (tree: Tree)
    requires !Blocks(a, a) && !Blocks(b, b) && FileOf(a) == FileOf(b) && KeyOf(a) != KeyOf(b) && FileOf(b) !in ModelWay(b.0)
    ensures Sane(tree) && !AgreesAfter(tree, [Load(a.0, a.1), Save(b.0, b.1, "2", Saved)], a)
  {
    hide CheckpointPath, CacheKey, Way, ModelWay, Run, Find;
    WaysClose(a, b);
    var ds := Way(a.0, a.1) + Way(b.0, b.1) + Elements(ModelWay(b.0));
    tree := With(ds, a, "1");
    TwoOps(Start(tree), Load(a.0, a.1), Save(b.0, b.1, "2", Saved));
    FirstLoad(tree, a);
    var l1 := Apply(Start(tree), Load(a.0, a.1));
    assert WithModelDir(tree, b.0).dirs == ds;
    OnlyKey(KeyOf(a), "1", KeyOf(b));
    var l2 := Apply(l1, Save(b.0, b.1, "2", Saved));
    assert l2.cache == [(KeyOf(b), "2"), (KeyOf(a), "1")];
    SecondKey(KeyOf(b), "2", KeyOf(a), "1");
  }

  lemma MixedUpAfter(a: Name, b: Name) returns (tree: Tree)
    requires !Blocks(b, b) && !Blocks(b, a) && KeyOf(a) == KeyOf(b) && FileOf(a) != FileOf(b)
    ensures Sane(tree) && !AgreesAfter(tree, [Load(b.0, b.1)], a)
  {
    hide CheckpointPath, CacheKey, Way, Run;
    WaysClose(a, b);
    var ds := Way(a.0, a.1) + Way(b.0, b.1);
    tree := With(ds, b, "1");
    if FileOf(a) !in ds { tree := Put(tree, FileOf(a), "2"); }
    OneOp(Start(tree), Load(b.0, b.1));
    FirstLoad(tree, b);
    OnlyKey(KeyOf(b), "1", KeyOf(b));
  }

  /** A plain model name and a version without a slash. */
  predicate PlainName(name: Name) { Plain(name.0) && NoSlash(name.1) }

  lemma PlainFile(name: Name)
    requires PlainName(name)
    ensures ModelDir(name.0) == MODELS + [name.0] && FileOf(name) == MODELS + [name.0, name.1 + ".parquet"]
    ensures Shallow(Elements(ModelWay(name.0))) && Shallow(Way(name.0, name.1))
  {
    hide Resolve, Way;
    ResolveNoSlash(MODELS, name.0);
    assert Enter(MODELS, name.0) == MODELS + [name.0];
    ResolveFile(ModelDir(name.0), name.1, ".parquet");
    DirectoryNoSlash(ModelDir(name.0), name.1);
    PlainWay(name.0);
    WayInModel(name.0, name.1);
  }

  /** No place deeper than the directory of a model. */
  predicate Shallow(ds: set<Location>) { forall d | d in ds :: |d| <= |MODELS| + 1 }

  lemma PlainWay(model: string)
    requires Plain(model)
    ensures Shallow(Elements(ModelWay(model)))
  {
    NoSlashPieces(model);
    assert Trail(MODELS, [model]) == [MODELS] + Trail(MODELS + [model], []);
  }

  /** Without a slash in the version the way is that to the directory of the model. */
  lemma WayInModel(model: string, version: string)
    requires NoSlash(version)
    ensures Way(model, version) == Elements(ModelWay(model))
  {
    NoSlashPieces(version);
    WayReaches(model, version);
    assert Trail(ModelDir(model), []) == [ModelDir(model)];
  }

  /** With plain names loads always agree with the disk. */
  lemma PlainNamesAgree(names: set<Name>)
    requires forall p | p in names :: PlainName(p)
    ensures Corresponding(names) && AlwaysAgrees(names)
  {
    hide FileOf, AlwaysAgrees, KeyOf, ModelWay, Way;
    forall p, q | p in names && q in names
      ensures FileOf(q) !in ModelWay(p.0) && (KeyOf(p) == KeyOf(q) <==> FileOf(p) == FileOf(q))
    {
      PlainFile(p);
      PlainFile(q);
      if KeyOf(p) == KeyOf(q) { PlainKeys(p, q); }
      if FileOf(p) == FileOf(q) { PlainFiles(p, q); }
    }
    LoadAgreesWithDisk(names);
  }

  lemma PlainKeys(p: Name, q: Name)
    requires PlainName(p) && PlainName(q) && KeyOf(p) == KeyOf(q)
    ensures p == q
  {
    FirstSlashIs(KeyOf(p), |p.0|);
    FirstSlashIs(KeyOf(q), |q.0|);
    assert KeyOf(p)[..|p.0|] == p.0 && KeyOf(q)[..|q.0|] == q.0;
    assert KeyOf(p)[|p.0| + 1..] == p.1 && KeyOf(q)[|q.0| + 1..] == q.1;
  }

  lemma PlainFiles(p: Name, q: Name)
    requires MODELS + [p.0, p.1 + ".parquet"] == MODELS + [q.0, q.1 + ".parquet"]
    ensures p == q
  {
    var a, b := MODELS + [p.0, p.1 + ".parquet"], MODELS + [q.0, q.1 + ".parquet"];
    assert a[|MODELS|] == p.0 && b[|MODELS|] == q.0;
    var f, g := a[|MODELS| + 1], b[|MODELS| + 1];
    assert f == p.1 + ".parquet" && g == q.1 + ".parquet";
    assert f[..|f| - 8] == p.1 && g[..|g| - 8] == q.1;
  }

  /** A slash at the end of the model name gives the same file another key. */
  lemma TrailingSlashDisagrees(model: string, version: string)
    requires Plain(model) && NoSlash(version)
    ensures !AlwaysAgrees({(model, version), (model + "/", version)})
  {
    hide Resolve, Way, ModelWay;
    var p, q: Name := (model, version), (model + "/", version);
    PlainFile(p);
    TrailingSlash(MODELS, model);
    assert FileOf(p) == FileOf(q);
    SlashWay(model);
    WayInModel(q.0, version);
    assert KeyOf(p) != KeyOf(q) by { assert |KeyOf(q)| == |KeyOf(p)| + 1; }
    LoadAgreesWithDisk({p, q});
  }

  lemma SlashPieces(model: string)
    requires Plain(model)
    ensures Pieces(model + "/") == [model, ""] && !Absolute(model + "/")
  {
    hide Pieces;
    PiecesAfterSlash(model + "/", |model|);
    assert (model + "/")[..|model|] == model && (model + "/")[|model| + 1..] == "";
    NoSlashPieces("");
    NoSlashPieces(model);
  }

  lemma SlashTrail(model: string)
    requires Plain(model)
    ensures Trail(MODELS, [model, ""]) == [MODELS, MODELS + [model], MODELS + [model]]
  {
    var at := MODELS + [model];
    assert [model, ""][1..] == [""] && [""][1..] == [];
    assert Trail(at, [""]) == [at] + Trail(at, []) && Trail(at, []) == [at];
  }

  lemma SlashWay(model: string)
    requires Plain(model)
    ensures Shallow(Elements(ModelWay(model + "/")))
  {
    hide Pieces, Trail;
    SlashPieces(model);
    SlashTrail(model);
  }

  /** A model named like the checkpoint file of another makes a directory of it, which is then taken
      for the file. */
  lemma NestedModelDisagrees(model: string, version: string, other: string)
    requires Plain(model) && NoSlash(version)
    ensures !AlwaysAgrees({(model, version), (model + "/" + version + ".parquet", other)})
  {
    hide Resolve, Way, ModelWay, AlwaysAgrees, FileOf;
    var p: Name, q: Name := (model, version), (model + "/" + version + ".parquet", other);
    PlainFile(p);
    NestedDir(model, version + ".parquet");
    assert q.0 == model + "/" + (version + ".parquet");
    WayReaches(q.0, other);
    DirectoryDisagrees(p, q);
  }

  lemma DirectoryDisagrees(p: Name, q: Name)
    requires !Blocks(p, p) && FileOf(p) in ModelWay(q.0)
    ensures !AlwaysAgrees({p, q})
  {
    hide FileOf, ModelWay, Way, AlwaysAgrees;
    LoadAgreesWithDisk({p, q});
  }

  lemma NestedDir(model: string, file: string)
    requires Plain(model) && NoSlash(file) && |file| > 2
    ensures Resolve(MODELS, model + "/" + file) == MODELS + [model, file]
  {
    var text := model + "/" + file;
    PiecesAfterSlash(text, |model|);
    assert text[..|model|] == model && text[|model| + 1..] == file;
    NoSlashPieces(file);
    assert Pieces(text) == [model] + [file];
    WalkConcat(MODELS, [model], [file]);
    OneStep(MODELS, model);
    OneStep(MODELS + [model], file);
    assert MODELS + [model] + [file] == MODELS + [model, file];
  }

  /** A save that fails after truncating leaves the next load wrong exactly when the key is cached
      with a value other than what is left in the file. */
  lemma TornSaveBreaks(l: Layer, model: string, version: string, data: string, partial: string)
    requires CanWrite(l.tree, model, version, CheckpointPath(model, version))
    ensures var l' := Apply(l, Save(model, version, data, TornSave(partial)));
            LoadModel(l', model, version).0 == ReadDisk(l'.tree, model, version) <==>
            Find(l.cache, CacheKey(model, version)) in {None, Some(partial)}
  {
    hide CheckpointPath, Way, ModelWay;
  }

  /** Wherever a save can be made, two of them, of which the second is torn, make the next load wrong. */
  lemma TornSaveRun(tree: Tree, model: string, version: string, data: string, partial: string)
    requires CanWrite(tree, model, version, CheckpointPath(model, version)) && partial != data
    ensures !AgreesAfter(tree, [Save(model, version, data, Saved), Save(model, version, data, TornSave(partial))], (model, version))
  {
    hide CheckpointPath, CacheKey, Run, Way, ModelWay;
    var l, key := Start(tree), CacheKey(model, version);
    var first, second := Save(model, version, data, Saved), Save(model, version, data, TornSave(partial));
    TwoOps(l, first, second);
    assert Find([], key) == None;
    var l1 := Apply(l, first);
    assert l1.cache == [(key, data)];
    CanWriteAgain(tree, model, version, data);
    OnlyKey(key, data, key);
    TornSaveBreaks(l1, model, version, data, partial);
  }

  lemma CanWriteAgain(t: Tree, model: string, version: string, data: string)
    requires CanWrite(t, model, version, CheckpointPath(model, version))
    ensures CanWrite(Put(WithModelDir(t, model), CheckpointPath(model, version), data), model, version, CheckpointPath(model, version))
  {
    hide CheckpointPath, Way, ModelWay;
  }

  /** There is a disk on which a save under these names can be made exactly when its file stands
      neither where its model directory needs a directory nor on its own way. */
  lemma SavableSomewhere(p: Name)
    ensures (exists t :: Sane(t) && CanWrite(t, p.0, p.1, FileOf(p))) <==> !Blocks(p, p) && FileOf(p) !in ModelWay(p.0)
  {
    hide CheckpointPath, Way, ModelWay, Sane;
    if !Blocks(p, p) && FileOf(p) !in ModelWay(p.0) {
      WaysClose(p, p);
      var ds := Way(p.0, p.1) + Way(p.0, p.1) + Elements(ModelWay(p.0));
      BareSane(ds);
      assert WithModelDir(Bare(ds), p.0).dirs == ds;
      assert CanWrite(Bare(ds), p.0, p.1, FileOf(p));
    }
  }

  // ---------------------------------------------------------------- order of last use

  function Drop(keys: seq<string>, key: string): seq<string> {
    if keys == [] then [] else if keys[0] == key then keys[1..] else [keys[0]] + Drop(keys[1..], key)
  }

  function Take(keys: seq<string>): seq<string> { if |keys| <= CAPACITY then keys else keys[..CAPACITY] }

  /** The distinct keys of `uses`, last used first. */
  function Recent(uses: seq<string>): seq<string>
    decreases |uses|
  {
    if uses == [] then []
    else var n := |uses| - 1; [uses[n]] + Drop(Recent(uses[..n]), uses[n])
  }

  lemma {:induction false} DropAbsent(keys: seq<string>, key: string)
    requires key !in keys
    ensures Drop(keys, key) == keys
  {
    if keys != [] {
      DropAbsent(keys[1..], key);
    }
  }

  lemma {:induction false} DropAt(keys: seq<string>, i: nat)
    requires i < |keys| && Distinct(keys)
    ensures Drop(keys, keys[i]) == keys[..i] + keys[i + 1..]
  {
    if i > 0 {
      assert keys[0] != keys[i];
      DropAt(keys[1..], i - 1);
    }
  }

  lemma {:induction false} DropKeys(c: Cache, key: string)
    ensures Keys(Without(c, key)) == Drop(Keys(c), key)
  {
    if c != [] {
      assert Keys(c) == [c[0].0] + Keys(c[1..]);
      if c[0].0 != key {
        DropKeys(c[1..], key);
        assert Keys([c[0]] + Without(c[1..], key)) == [c[0].0] + Keys(Without(c[1..], key));
      }
    }
  }

  lemma DropDistinct(keys: seq<string>, key: string)
    requires Distinct(keys)
    ensures Distinct(Drop(keys, key)) && key !in Drop(keys, key)
    ensures forall k | k in Drop(keys, key) :: k in keys
  {
    hide Drop;
    if key in keys {
      var i :| 0 <= i < |keys| && keys[i] == key;
      DropAt(keys, i);
    } else {
      DropAbsent(keys, key);
    }
  }

  lemma {:induction false} RecentDistinct(uses: seq<string>)
    ensures Distinct(Recent(uses))
    decreases |uses|
  {
    if uses != [] {
      var n := |uses| - 1;
      RecentDistinct(uses[..n]);
      DropDistinct(Recent(uses[..n]), uses[n]);
    }
  }

  /** Using a key moves it to the front of the five most recent ones. */
  lemma TakeMoves(keys: seq<string>, key: string)
    requires Distinct(keys)
    ensures Take([key] + Drop(keys, key)) ==
            if key in Take(keys) then [key] + Drop(Take(keys), key)
            else [key] + (if |Take(keys)| >= CAPACITY then Take(keys)[..CAPACITY - 1] else Take(keys))
  {
    var top := Take(keys);
    if key in top {
      var i :| 0 <= i < |top| && top[i] == key;
      DropAt(keys, i);
      DropAt(top, i);
    } else if key in keys {
      var i :| 0 <= i < |keys| && keys[i] == key;
      assert forall j | 0 <= j < |top| :: top[j] == keys[j];
      DropAt(keys, i);
    } else {
      DropAbsent(keys, key);
    }
  }

  lemma UpdateMoves(c: Cache, key: string, value: string)
    requires |c| <= CAPACITY
    ensures Keys(UpdateCache(c, key, value)) ==
            if key in Keys(c) then [key] + Drop(Keys(c), key)
            else [key] + (if |c| >= CAPACITY then Keys(c)[..CAPACITY - 1] else Keys(c))
  {
    hide Drop, Find, Without;
    FindIn(c, key);
    DropKeys(c, key);
    if key in Keys(c) {
      assert Keys(UpdateCache(c, key, value)) == [key] + Keys(Without(c, key));
    } else {
      var kept := if |c| >= CAPACITY then c[..|c| - 1] else c;
      assert Keys(UpdateCache(c, key, value)) == [key] + Keys(kept);
    }
  }

  /** Position of the last use of `key`, or -1. */
  function LastUse(uses: seq<string>, key: string): int
    decreases |uses|
  {
    if uses == [] then -1
    else var n := |uses| - 1; if uses[n] == key then n else LastUse(uses[..n], key)
  }

  /** The cached keys stand in the order of their last use, latest first. */
  predicate ByLastUse(keys: seq<string>, uses: seq<string>) {
    && (forall i | 0 <= i < |keys| :: LastUse(uses, keys[i]) >= 0)
    && forall i, j | 0 <= i < j < |keys| :: LastUse(uses, keys[i]) > LastUse(uses, keys[j])
  }

  lemma {:induction false} LastUseBelow(uses: seq<string>, key: string)
    ensures -1 <= LastUse(uses, key) < |uses|
    decreases |uses|
  {
    if uses != [] {
      LastUseBelow(uses[..|uses| - 1], key);
    }
  }

  lemma UsePrepends(keys: seq<string>, uses: seq<string>, key: string)
    requires ByLastUse(keys, uses) && key !in keys
    ensures ByLastUse([key] + keys, uses + [key])
  {
    var after := uses + [key];
    assert after[..|uses|] == uses;
    forall i | 0 <= i < |keys| ensures LastUse(after, keys[i]) == LastUse(uses, keys[i]) < |uses| {
      LastUseBelow(uses, keys[i]);
    }
    assert LastUse(after, key) == |uses|;
  }

  lemma DropKeepsOrder(keys: seq<string>, uses: seq<string>, key: string)
    requires ByLastUse(keys, uses) && Distinct(keys)
    ensures ByLastUse(Drop(keys, key), uses)
  {
    hide Drop, LastUse;
    if key in keys {
      var i :| 0 <= i < |keys| && keys[i] == key;
      DropAt(keys, i);
      var rest := keys[..i] + keys[i + 1..];
      assert forall k | 0 <= k < |rest| :: rest[k] == keys[if k < i then k else k + 1];
      assert forall k | 0 <= k < |rest| :: LastUse(uses, rest[k]) == LastUse(uses, keys[if k < i then k else k + 1]);
    } else {
      DropAbsent(keys, key);
    }
  }

  /** The keys stand in order of last use; while nothing was thrown out as stale they are exactly
      the five most recently used ones. */
  predicate LeastRecentlyUsed(l: Layer) {
    && ByLastUse(Keys(l.cache), l.uses)
    && (l.dropped == [] ==> Keys(l.cache) == Take(Recent(l.uses)))
  }

  lemma RememberOrders(l: Layer, key: string, value: string)
    requires Bounded(l.cache) && LeastRecentlyUsed(l)
    ensures LeastRecentlyUsed(Remember(l, key, value))
  {
    hide Drop, LastUse, Take, Find, UpdateCache;
    var keys := Keys(l.cache);
    UpdateMoves(l.cache, key, value);
    DropDistinct(keys, key);
    DropKeepsOrder(keys, l.uses, key);
    if key in keys {
      UsePrepends(Drop(keys, key), l.uses, key);
    } else {
      var kept := if |keys| >= CAPACITY then keys[..CAPACITY - 1] else keys;
      UsePrepends(kept, l.uses, key);
    }
    RecentDistinct(l.uses);
    TakeMoves(Recent(l.uses), key);
    assert (l.uses + [key])[..|l.uses|] == l.uses;
  }

  lemma ApplyOrders(l: Layer, op: Op)
    requires Bounded(l.cache) && LeastRecentlyUsed(l)
    ensures Bounded(Apply(l, op).cache) && LeastRecentlyUsed(Apply(l, op))
  {
    hide CheckpointPath, PendingPath, UpdateCache, ByLastUse, Take, Recent, CanWrite, WithModelDir, Prepared, Put, Renamed;
    if op.Save? || op.Atomic? {
      UpdateKeeps(l.cache, CacheKey(op.model, op.version), op.data);
      RememberOrders(l.(tree := Apply(l, op).tree), CacheKey(op.model, op.version), op.data);
    } else if op.Load? {
      LoadOrders(l, op.model, op.version);
    }
  }

  lemma LoadOrders(l: Layer, model: string, version: string)
    requires Bounded(l.cache) && LeastRecentlyUsed(l)
    ensures var l' := LoadModel(l, model, version).1; Bounded(l'.cache) && LeastRecentlyUsed(l')
  {
    hide Exists, CheckpointPath, UpdateCache, ByLastUse, Take, Recent;
    var key, disk := CacheKey(model, version), ReadDisk(l.tree, model, version);
    var hit := Find(l.cache, key);
    if hit.Some? && Exists(l.tree, model, version) {
      UpdateKeeps(l.cache, key, hit.value);
      RememberOrders(l, key, hit.value);
    } else if hit.Some? {
      assert disk.Failed?;
      WithoutKeys(l.cache, key);
      DropKeys(l.cache, key);
      DropKeepsOrder(Keys(l.cache), l.uses, key);
    } else if disk.Data? {
      UpdateKeeps(l.cache, key, disk.data);
      RememberOrders(l, key, disk.data);
    }
  }

  /** Over every run the cache holds at most five distinct keys in order of last use. */
  lemma {:induction false} RunOrders(tree: Tree, ops: seq<Op>)
    ensures var l := Run(Layer(tree, [], [], []), ops); Bounded(l.cache) && LeastRecentlyUsed(l)
    decreases |ops|
  {
    if ops != [] {
      RunOrders(tree, ops[..|ops| - 1]);
      ApplyOrders(Run(Layer(tree, [], [], []), ops[..|ops| - 1]), ops[|ops| - 1]);
    }
  }

  // ---------------------------------------------------------------- what a write leaves behind

  /** An atomic write can be made, down to the rename. */
  predicate CanCommit(t: Tree, p: Name) {
    CanWrite(t, p.0, p.1, PendingPath(p.0, p.1)) && FileOf(p) !in WithModelDir(t, p.0).dirs
  }

  /** `after` has this content at `at`, and otherwise the files of `before`, except for `gone`. */
  predicate Replaced(before: Files, after: Files, at: Location, content: string, gone: set<Location>) {
    && at in after && after[at] == content
    && (forall f | f in after && f != at :: f in before && f !in gone && after[f] == before[f])
    && (forall f | f in before && f != at && f !in gone :: f in after)
  }

  /** The file of `p` holds this data, and nothing else is cached for it. */
  predicate Serves(l: Layer, p: Name, data: string) {
    && Bounded(l.cache) && !Blocks(p, p) && FileOf(p) !in l.tree.dirs
    && FileOf(p) in l.tree.files && l.tree.files[FileOf(p)] == data
    && Find(l.cache, KeyOf(p)) in {None, Some(data)}
  }

  lemma ServingLoads(l: Layer, p: Name, data: string)
    requires Serves(l, p, data) && Way(p.0, p.1) <= l.tree.dirs
    ensures LoadModel(l, p.0, p.1).0 == Data(data)
  {
    hide CheckpointPath, CacheKey, Way;
  }

  lemma {:induction false} FindWithout(c: Cache, key: string, other: string)
    ensures Distinct(Keys(c)) && key == other ==> Find(Without(c, key), other) == None
    ensures key != other ==> Find(Without(c, key), other) == Find(c, other)
  {
    if key == other {
      if Distinct(Keys(c)) {
        WithoutKeys(c, key);
        FindIn(Without(c, key), key);
      }
    } else if c != [] && c[0].0 != key {
      FindWithout(c[1..], key, other);
    }
  }

  lemma {:induction false} FindFront(c: Cache, n: nat, key: string)
    requires n <= |c|
    ensures Find(c[..n], key) in {None, Find(c, key)}
  {
    if n > 0 && c[0].0 != key {
      assert c[..n][1..] == c[1..][..n - 1];
      FindFront(c[1..], n - 1, key);
    }
  }

  /** An update stores its value under its key, and under other keys at most drops one. */
  lemma FindUpdated(c: Cache, key: string, value: string, other: string)
    ensures Find(UpdateCache(c, key, value), other) in if other == key then {Some(value)} else {None, Find(c, other)}
  {
    hide Without, Keys;
    var rest := if Find(c, key).Some? then Without(c, key) else if |c| >= CAPACITY then c[..|c| - 1] else c;
    var u := [(key, value)] + rest;
    assert UpdateCache(c, key, value) == u && u[1..] == rest;
    FindWithout(c, key, other);
    if |c| >= CAPACITY { FindFront(c, |c| - 1, other); }
  }

  /** What a load serves stands first in the cache afterwards. */
  lemma LoadRemembers(l: Layer, p: Name, readable: bool)
    requires Bounded(l.cache)
    ensures var (r, l') := LoadWith(l, p.0, p.1, readable); r.Data? ==> [(KeyOf(p), r.data)] <= l'.cache
  {
    hide CheckpointPath, CacheKey, Way, UpdateCache, Distinct;
    var hit, disk := Find(l.cache, KeyOf(p)), ReadDisk(l.tree, p.0, p.1);
    if hit.Some? { UpdateKeeps(l.cache, KeyOf(p), hit.value); }
    if disk.Data? {
      UpdateKeeps(l.cache, KeyOf(p), disk.data);
    }
  }

  /** A save that succeeds leaves its data in the file and all other files as they were, and the next
      load gives the data. */
  lemma SaveStores(l: Layer, p: Name, data: string)
    requires Bounded(l.cache) && CanWrite(l.tree, p.0, p.1, FileOf(p))
    ensures var l' := Apply(l, Save(p.0, p.1, data, Saved));
            Replaced(l.tree.files, l'.tree.files, FileOf(p), data, {}) && Serves(l', p, data)
            && [(KeyOf(p), data)] <= l'.cache && LoadModel(l', p.0, p.1).0 == Data(data)
  {
    hide CheckpointPath, CacheKey, Way, ModelWay, UpdateCache, Distinct, LoadModel;
    UpdateKeeps(l.cache, KeyOf(p), data);
    FindUpdated(l.cache, KeyOf(p), data, KeyOf(p));
    ServingLoads(Apply(l, Save(p.0, p.1, data, Saved)), p, data);
  }

  /** An atomic write that succeeds leaves its data in the file, takes the pending file away and
      leaves all others as they were, and the next load gives the data. */
  lemma AtomicStores(l: Layer, p: Name, data: string)
    requires Bounded(l.cache) && CanCommit(l.tree, p)
    ensures var l' := Apply(l, Atomic(p.0, p.1, data, Committed));
            Replaced(l.tree.files, l'.tree.files, FileOf(p), data, {PendingPath(p.0, p.1)}) && Serves(l', p, data)
            && [(KeyOf(p), data)] <= l'.cache && LoadModel(l', p.0, p.1).0 == Data(data)
  {
    hide CheckpointPath, PendingPath, CacheKey, Way, ModelWay, UpdateCache, Distinct, LoadModel;
    PathKinds(p.0, p.1, p.0, p.1);
    UpdateKeeps(l.cache, KeyOf(p), data);
    FindUpdated(l.cache, KeyOf(p), data, KeyOf(p));
    ServingLoads(Apply(l, Atomic(p.0, p.1, data, Committed)), p, data);
  }

  /** Until the rename an atomic write touches no file but the pending one, and never the cache. */
  lemma UncommittedSpares(l: Layer, p: Name, data: string, outcome: AtomicOutcome)
    requires !(outcome.Committed? && CanCommit(l.tree, p))
    ensures var l' := Apply(l, Atomic(p.0, p.1, data, outcome)); var pending := PendingPath(p.0, p.1);
            && l'.cache == l.cache
            && (forall f | f in l'.tree.files && f != pending :: f in l.tree.files && l'.tree.files[f] == l.tree.files[f])
            && (forall f | f in l.tree.files :: f in l'.tree.files)
  {
    hide CheckpointPath, PendingPath, CacheKey, Way, ModelWay, Opens;
  }

  // ---------------------------------------------------------------- a load gives the last write

  /** `op` stores `data` as the checkpoint `q`. */
  predicate Stores(l: Layer, op: Op, q: Name, data: string) {
    match op
    case Save(model, version, d, outcome) =>
      (model, version) == q && d == data && outcome.Saved? && CanWrite(l.tree, model, version, FileOf(q))
    case Atomic(model, version, d, outcome) =>
      (model, version) == q && d == data && outcome.Committed? && CanCommit(l.tree, q)
    case _ => false
  }

  /** `op` neither writes the file, under whatever names, nor deletes it. */
  predicate Spares(l: Layer, op: Op, file: Location) {
    match op
    case Save(model, version, _, outcome) =>
      FileOf((model, version)) != file || outcome.DirRefused? || outcome.NotOpened? || !CanWrite(l.tree, model, version, file)
    case Atomic(model, version, _, outcome) =>
      FileOf((model, version)) != file || !outcome.Committed? || !CanCommit(l.tree, (model, version))
    case Load(_, _) => true
    case Delete(path) => !(path <= file)
  }

  lemma StoreServes(l: Layer, op: Op, q: Name, data: string)
    requires Bounded(l.cache) && Stores(l, op, q, data)
    ensures Serves(Apply(l, op), q, data)
  {
    hide Apply, CanWrite, CanCommit, Serves, FileOf;
    if op.Save? { SaveStores(l, q, data); } else { AtomicStores(l, q, data); }
  }

  /** What is remembered for a file that can be reached goes under another key, or is the data. */
  lemma RememberServes(l: Layer, names: set<Name>, q: Name, data: string, r: Name, value: string)
    requires Serves(l, q, data) && Corresponding(names) && q in names && r in names
    requires Way(r.0, r.1) <= l.tree.dirs && (FileOf(r) == FileOf(q) ==> value == data)
    ensures Serves(Remember(l, KeyOf(r), value), q, data)
  {
    hide FileOf, KeyOf, Way, ModelWay, UpdateCache, Distinct, Find;
    UpdateKeeps(l.cache, KeyOf(r), value);
    FindUpdated(l.cache, KeyOf(r), value, KeyOf(q));
    assert !Blocks(q, r);
  }

  lemma NotOnModelWay(names: set<Name>, q: Name, r: Name)
    requires Corresponding(names) && q in names && r in names && !Blocks(q, q)
    ensures FileOf(q) !in ModelWay(r.0)
  {
    hide FileOf, KeyOf, Way, ModelWay;
  }

  lemma WriteServes(l: Layer, op: Op, names: set<Name>, q: Name, data: string)
    requires (op.Save? || op.Atomic?) && Serves(l, q, data) && Corresponding(names) && q in names && Uses(op, names)
    requires Spares(l, op, FileOf(q))
    ensures Serves(Apply(l, op), q, data)
  {
    hide CheckpointPath, PendingPath, CacheKey, Way, ModelWay, UpdateCache, Distinct, Find, Corresponding;
    var r, l' := (op.model, op.version), Apply(l, op);
    PathKinds(op.model, op.version, q.0, q.1);
    NotOnModelWay(names, q, r);
    assert Serves(l.(tree := l'.tree), q, data);
    if l'.cache != l.cache {
      RememberServes(l.(tree := l'.tree), names, q, data, r, op.data);
    }
  }

  lemma LoadServes(l: Layer, names: set<Name>, q: Name, data: string, r: Name)
    requires Serves(l, q, data) && Corresponding(names) && q in names && r in names
    ensures Serves(LoadModel(l, r.0, r.1).1, q, data)
  {
    hide CheckpointPath, CacheKey, Way, ModelWay, UpdateCache, Distinct, Corresponding;
    var hit, disk := Find(l.cache, KeyOf(r)), ReadDisk(l.tree, r.0, r.1);
    WithoutKeys(l.cache, KeyOf(r));
    FindWithout(l.cache, KeyOf(r), KeyOf(q));
    if hit.Some? && Exists(l.tree, r.0, r.1) {
      HitServes(l, q, data, KeyOf(r));
    } else if disk.Data? {
      RememberServes(l, names, q, data, r, disk.data);
    }
  }

  lemma HitServes(l: Layer, q: Name, data: string, key: string)
    requires Serves(l, q, data) && Find(l.cache, key).Some?
    ensures Serves(Remember(l, key, Find(l.cache, key).value), q, data)
  {
    hide FileOf, KeyOf, Way, UpdateCache, Distinct, Find;
    UpdateKeeps(l.cache, key, Find(l.cache, key).value);
    FindUpdated(l.cache, key, Find(l.cache, key).value, KeyOf(q));
  }

  lemma ApplyServes(l: Layer, op: Op, names: set<Name>, q: Name, data: string)
    requires Serves(l, q, data) && Corresponding(names) && q in names && Uses(op, names) && Spares(l, op, FileOf(q))
    ensures Serves(Apply(l, op), q, data)
  {
    hide FileOf, KeyOf, Way, Bounded, Find, Corresponding, ApplySave, ApplyAtomic, LoadModel;
    match op
    case Save(_, _, _, _) => WriteServes(l, op, names, q, data);
    case Atomic(_, _, _, _) => WriteServes(l, op, names, q, data);
    case Load(model, version) => LoadServes(l, names, q, data, (model, version));
    case Delete(path) =>
  }

  /** From operation `i` on, nothing writes or deletes the file. */
  predicate SparedFrom(tree: Tree, ops: seq<Op>, i: nat, file: Location) {
    forall j | i <= j < |ops| :: Spares(Run(Start(tree), ops[..j]), ops[j], file)
  }

  lemma {:induction false} StaysServed(tree: Tree, ops: seq<Op>, i: nat, names: set<Name>, q: Name, data: string)
    requires Corresponding(names) && q in names && (forall j | 0 <= j < |ops| :: Uses(ops[j], names))
    requires i <= |ops| && Serves(Run(Start(tree), ops[..i]), q, data) && SparedFrom(tree, ops, i, FileOf(q))
    ensures Serves(Run(Start(tree), ops), q, data)
    decreases |ops| - i
  {
    hide Corresponding, Uses, Serves, Spares, Apply, FileOf;
    if i < |ops| {
      var front := ops[..i + 1];
      assert front[..i] == ops[..i] && front[i] == ops[i];
      ApplyServes(Run(Start(tree), ops[..i]), ops[i], names, q, data);
      StaysServed(tree, ops, i + 1, names, q, data);
    } else {
      assert ops[..i] == ops;
    }
  }

  /** Over every run, torn saves included, a load of a checkpoint that can be reached gives the data
      of the last save or atomic write to its file that succeeded, under whatever names, if nothing
      tore or deleted the file since. */
  lemma LoadsLastWrite(tree: Tree, ops: seq<Op>, i: nat, names: set<Name>, q: Name, p: Name, data: string)
    requires Corresponding(names) && q in names && p in names && (forall j | 0 <= j < |ops| :: Uses(ops[j], names))
    requires i < |ops| && Stores(Run(Start(tree), ops[..i]), ops[i], q, data) && SparedFrom(tree, ops, i + 1, FileOf(q))
    requires FileOf(p) == FileOf(q) && Way(p.0, p.1) <= Run(Start(tree), ops).tree.dirs
    ensures LoadModel(Run(Start(tree), ops), p.0, p.1).0 == Data(data)
  {
    hide Corresponding, Uses, Serves, Stores, Spares, Apply, FileOf, LoadModel, LeastRecentlyUsed, Way;
    var front := ops[..i + 1];
    assert front[..i] == ops[..i] && front[i] == ops[i];
    RunOrders(tree, ops[..i]);
    StoreServes(Run(Start(tree), ops[..i]), ops[i], q, data);
    StaysServed(tree, ops, i + 1, names, q, data);
    OtherNameServes(Run(Start(tree), ops), names, q, p, data);
    ServingLoads(Run(Start(tree), ops), p, data);
  }

  lemma OtherNameServes(l: Layer, names: set<Name>, q: Name, p: Name, data: string)
    requires Serves(l, q, data) && Corresponding(names) && q in names && p in names
    requires FileOf(p) == FileOf(q) && Way(p.0, p.1) <= l.tree.dirs
    ensures Serves(l, p, data)
  {
    hide FileOf, KeyOf, Way, ModelWay, Find, Bounded;
  }

  /** A file that nothing wrote or deleted since the start gives what it held then. */
  lemma LoadsOldFile(tree: Tree, ops: seq<Op>, names: set<Name>, p: Name)
    requires Corresponding(names) && p in names && (forall j | 0 <= j < |ops| :: Uses(ops[j], names))
    requires FileOf(p) in tree.files && FileOf(p) !in tree.dirs && !Blocks(p, p) && SparedFrom(tree, ops, 0, FileOf(p))
    requires Way(p.0, p.1) <= Run(Start(tree), ops).tree.dirs
    ensures LoadModel(Run(Start(tree), ops), p.0, p.1).0 == Data(tree.files[FileOf(p)])
  {
    hide Corresponding, Uses, Spares, Apply, FileOf, LoadModel, Way;
    var data := tree.files[FileOf(p)];
    assert ops[..0] == [];
    assert Find([], KeyOf(p)) == None;
    assert Serves(Run(Start(tree), ops[..0]), p, data);
    StaysServed(tree, ops, 0, names, p, data);
    ServingLoads(Run(Start(tree), ops), p, data);
  }
}
