/** The checkpoint store as the program has it: a list of cache entries and a map from keys to the
    same entries, changed in place. Failing file operations are inputs; every method is proved to
    move the store as the operations on values do. */
module ModelStorageLayer {
  import opened Common
  import opened Paths
  import opened Directories
  import opened ModelStorage
  import CheckpointProtocol

  class CacheEntry {
    const key: string
    var value: string

    constructor (key: string, value: string)
      ensures this.key == key && this.value == value
    {
      this.key, this.value := key, value;
    }
  }

  /** Takes the node `e` out of the list. */
  function Unlink(list: seq<CacheEntry>, e: CacheEntry): seq<CacheEntry> {
    if list == [] then [] else if list[0] == e then list[1..] else [list[0]] + Unlink(list[1..], e)
  }

  ghost function Entries(list: seq<CacheEntry>): Cache
    reads list
  {
    seq(|list|, i requires 0 <= i < |list| reads list => (list[i].key, list[i].value))
  }

  lemma {:induction false} UnlinkEntries(list: seq<CacheEntry>, e: CacheEntry)
    requires e in list && forall i, j | 0 <= i < j < |list| :: list[i].key != list[j].key
    ensures Entries(Unlink(list, e)) == Without(Entries(list), e.key)
    ensures |Unlink(list, e)| == |list| - 1
    ensures forall x :: x in Unlink(list, e) <==> x in list && x != e
  {
    assert forall i | 1 <= i < |list| :: list[i].key != list[0].key;
    EntriesTail(list);
    assert forall x :: x in list <==> x == list[0] || x in list[1..];
    if list[0] != e {
      assert list[0].key != e.key;
      UnlinkEntries(list[1..], e);
      EntriesTail(Unlink(list, e));
      assert Unlink(list, e)[1..] == Unlink(list[1..], e);
    }
  }

  lemma EntriesTail(list: seq<CacheEntry>)
    requires list != []
    ensures Entries(list) == [(list[0].key, list[0].value)] + Entries(list[1..])
    ensures Entries(list)[1..] == Entries(list[1..])
  {
  }

  class StorageLayer {
    var files: Files
    var dirs: set<Location>
    var lruList: seq<CacheEntry>
    var lruMap: map<string, CacheEntry>
    ghost var uses: seq<string>
    ghost var dropped: seq<string>

    /** The list and the map hold the same entries under the same distinct keys, at most five. */
    ghost predicate Valid()
      reads this, lruList
    {
      && |lruList| <= CAPACITY
      && (forall i, j | 0 <= i < j < |lruList| :: lruList[i].key != lruList[j].key)
      && (forall e | e in lruList :: e.key in lruMap && lruMap[e.key] == e)
      && (forall k | k in lruMap :: lruMap[k] in lruList && lruMap[k].key == k)
    }

    ghost function State(): Layer
      reads this, lruList
    {
      Layer(Tree(files, dirs), Entries(lruList), uses, dropped)
    }

    constructor (files: Files, dirs: set<Location>)
      ensures Valid() && State() == Layer(Tree(files, dirs), [], [], []) && fresh(lruList)
    {
      this.files, this.dirs, lruList, lruMap, uses, dropped := files, dirs, [], map[], [], [];
    }

    lemma Lookup(key: string)
      requires Valid()
      ensures key in lruMap <==> Find(Entries(lruList), key).Some?
      ensures key in lruMap ==> Find(Entries(lruList), key) == Some(lruMap[key].value)
    {
      var c := Entries(lruList);
      FindIn(c, key);
      assert forall i | 0 <= i < |c| :: Keys(c)[i] == lruList[i].key;
      if key in lruMap {
        var i :| 0 <= i < |lruList| && lruList[i] == lruMap[key];
        FindAt(c, i);
      }
    }

    /** Splices the node of `entry` to the front of the list. */
    method MoveToFront(entry: CacheEntry)
      requires Valid() && entry in lruList
      modifies this`lruList
      ensures Valid() && entry in lruList
      ensures Entries(lruList) == [(entry.key, entry.value)] + Without(old(Entries(lruList)), entry.key)
      ensures forall e :: e in lruList <==> e in old(lruList)
      ensures lruList[0] == entry
    {
      hide Without, Unlink;
      UnlinkEntries(lruList, entry);
      FrontDistinct(lruList, entry);
      lruList := [entry] + Unlink(lruList, entry);
      EntriesTail(lruList);
    }

    method Store(entry: CacheEntry, value: string)
      requires Valid() && lruList != [] && lruList[0] == entry
      modifies entry
      ensures Valid() && entry.value == value
      ensures Entries(lruList) == [(entry.key, value)] + old(Entries(lruList))[1..]
    {
      entry.value := value;
      assert forall i | 1 <= i < |lruList| :: lruList[i] != entry;
    }

    method PushFront(key: string, value: string)
      requires Valid() && key !in lruMap && |lruList| < CAPACITY
      modifies this`lruList, this`lruMap
      ensures Valid() && Entries(lruList) == [(key, value)] + old(Entries(lruList))
      ensures forall e | e in lruList :: e in old(lruList) || fresh(e)
    {
      var entry := new CacheEntry(key, value);
      ghost var kept := lruList;
      lruList := [entry] + lruList;
      lruMap := lruMap[key := entry];
      assert Entries(lruList) == [(key, value)] + Entries(kept);
    }

    method PopBack()
      requires Valid() && lruList != []
      modifies this`lruList, this`lruMap
      ensures Valid() && lruList == old(lruList)[..|old(lruList)| - 1]
      ensures lruMap == old(lruMap) - {old(lruList)[|old(lruList)| - 1].key}
      ensures Entries(lruList) == old(Entries(lruList))[..|lruList|]
    {
      var back := lruList[|lruList| - 1];
      lruMap := lruMap - {back.key};
      lruList := lruList[..|lruList| - 1];
    }

    method UpdateCache(key: string, value: string)
      requires Valid()
      modifies this`lruList, this`lruMap, this`uses, lruList
      ensures Valid() && State() == Remember(old(State()), key, value)
      ensures forall e | e in lruList :: e in old(lruList) || fresh(e)
    {
      hide Find, Without;
      Lookup(key);
      uses := uses + [key];
      if key in lruMap {
        var entry := lruMap[key];
        MoveToFront(entry);
        Store(entry, value);
        return;
      }
      if |lruList| >= CAPACITY {
        PopBack();
      }
      PushFront(key, value);
    }

    /** Creates the directories for the model, up to a file in the way or the first `limit` of them. */
    method CreateModelDir(model: string, limit: nat) returns (ok: bool)
      modifies this`dirs
      ensures Tree(files, dirs) == Prepared(Tree(files, old(dirs)), model, limit)
      ensures ok == (limit >= |ModelWay(model)| && MakeDirs(Tree(files, old(dirs)), ModelWay(model)).1)
    {
      hide MakeDirs, ModelWay;
      ok := limit >= |ModelWay(model)| && MakeDirs(Tree(files, dirs), ModelWay(model)).1;
      dirs := Prepared(Tree(files, dirs), model, limit).dirs;
    }

    method SaveCheckpoint(model: string, version: string, data: string, outcome: SaveOutcome) returns (ok: bool)
      requires Valid()
      modifies this, lruList
      ensures Valid() && State() == Apply(old(State()), Save(model, version, data, outcome))
      ensures ok == (outcome.Saved? && CanWrite(old(State().tree), model, version, CheckpointPath(model, version)))
      ensures ok ==> Replaced(old(files), files, CheckpointPath(model, version), data, {})
      ensures forall e | e in lruList :: e in old(lruList) || fresh(e)
    {
      hide Opens, MakeDirs, ModelWay, CheckpointPath, CacheKey, Remember;
      var limit := if outcome.DirRefused? then outcome.made else |ModelWay(model)|;
      var created := CreateModelDir(model, limit);
      if !created || outcome.DirRefused? {
        return false;
      }
      var path := CheckpointPath(model, version);
      if outcome.NotOpened? || !Opens(Tree(files, dirs), model, version, path) {
        return false;
      }
      files := files[path := if outcome.Saved? then data else outcome.partial];
      if outcome.TornSave? {
        return false;
      }
      UpdateCache(CacheKey(model, version), data);
      ok := true;
    }

    method AtomicWrite(model: string, version: string, data: string, outcome: AtomicOutcome) returns (ok: bool)
      requires Valid()
      modifies this, lruList
      ensures Valid() && State() == Apply(old(State()), Atomic(model, version, data, outcome))
      ensures ok == (outcome.Committed? && CanWrite(old(State().tree), model, version, PendingPath(model, version))
                     && CheckpointPath(model, version) !in WithModelDir(old(State().tree), model).dirs)
      ensures ok ==> Replaced(old(files), files, CheckpointPath(model, version), data, {PendingPath(model, version)})
      ensures forall e | e in lruList :: e in old(lruList) || fresh(e)
    {
      hide Opens, MakeDirs, ModelWay, CheckpointPath, PendingPath, CacheKey, Remember;
      var limit := if outcome.ModelDirRefused? then outcome.made else |ModelWay(model)|;
      var created := CreateModelDir(model, limit);
      if !created || outcome.ModelDirRefused? {
        return false;
      }
      var pending := PendingPath(model, version);
      ghost var t := WithModelDir(old(State().tree), model);
      assert Tree(files, dirs) == t;
      hide WithModelDir, Prepared;
      // phase 1: the whole content goes to the pending file
      if outcome.NoPending? || !Opens(Tree(files, dirs), model, version, pending) {
        return false;
      }
      files := files[pending := if outcome.TornPending? then outcome.partial else data];
      assert State().tree == Put(t, pending, if outcome.TornPending? then outcome.partial else data);
      if outcome.TornPending? {
        return false;
      }
      // phase 2: the rename puts it in place
      var path := CheckpointPath(model, version);
      if outcome.NotRenamed? || path in dirs {
        return false;
      }
      PathKinds(model, version, model, version);
      files := (files - {pending})[path := files[pending]];
      assert State().tree == Renamed(t, pending, path, data);
      UpdateCache(CacheKey(model, version), data);
      ok := true;
    }

    /** `readable` says whether the file can be read, should it come to that. */
    method LoadModel(model: string, version: string, readable: bool) returns (r: Loaded)
      requires Valid()
      modifies this, lruList
      ensures Valid() && files == old(files) && dirs == old(dirs)
      ensures (r, State()) == LoadWith(old(State()), model, version, readable)
      ensures forall e | e in lruList :: e in old(lruList) || fresh(e)
    {
      hide Exists;
      var key, path := CacheKey(model, version), CheckpointPath(model, version);
      Lookup(key);
      if key in lruMap {
        var entry := lruMap[key];
        if Exists(Tree(files, dirs), model, version) {
          MoveToFront(entry);
          uses := uses + [key];
          return Data(entry.value);
        }
        UnlinkEntries(lruList, entry);
        Drop(entry);
      }
      if !Exists(Tree(files, dirs), model, version) {
        return Failed(VersionNotFound);
      }
      if path in dirs || !readable {
        return Failed(ReadFailed);
      }
      ExistsAsFile(Tree(files, dirs), model, version);
      r := Data(files[path]);
      UpdateCache(key, files[path]);
    }

    /** Erases the list node and the map entry of a checkpoint whose file is gone. */
    method Drop(entry: CacheEntry)
      requires Valid() && entry in lruList
      modifies this`lruList, this`lruMap, this`dropped
      ensures Valid() && dropped == old(dropped) + [entry.key]
      ensures Entries(lruList) == Without(old(Entries(lruList)), entry.key)
      ensures lruMap == old(lruMap) - {entry.key}
      ensures forall e | e in lruList :: e in old(lruList)
    {
      UnlinkEntries(lruList, entry);
      lruList, lruMap := Unlink(lruList, entry), lruMap - {entry.key};
      dropped := dropped + [entry.key];
      forall i, j | 0 <= i < j < |lruList| ensures lruList[i].key != lruList[j].key {
        WithoutDistinct(old(lruList), entry, i, j);
      }
    }

    /** Removes the leftover pending files in the directories that can be listed; removing stops with
        an error after `removable` of them. A directory that cannot be listed is no error. */
    method RecoverInterrupted(removable: nat, listed: set<Location>) returns (ok: bool)
      requires Valid()
      modifies this`files
      ensures Valid() && State().cache == old(State()).cache
      ensures files.Keys <= old(files).Keys && forall p | p in files :: files[p] == old(files)[p]
      ensures forall p | p in old(files) && p !in files :: CheckpointProtocol.Visited(p, listed)
      ensures ok <==> forall p | p in files :: !CheckpointProtocol.Visited(p, listed)
    {
      hide CheckpointProtocol.Visited;
      var todo := CheckpointProtocol.Leftovers(files, listed);
      var left := removable;
      while todo != {}
        invariant todo <= files.Keys && (forall p | p in files && CheckpointProtocol.Visited(p, listed) :: p in todo)
        invariant forall p | p in todo :: CheckpointProtocol.Visited(p, listed)
        invariant files.Keys <= old(files).Keys && forall p | p in files :: files[p] == old(files)[p]
        invariant forall p | p in old(files) && p !in files :: CheckpointProtocol.Visited(p, listed)
        invariant Entries(lruList) == old(Entries(lruList))
        decreases |todo|
      {
        var p :| p in todo;
        if left == 0 {
          return false;
        }
        files := files - {p};
        todo, left := todo - {p}, left - 1;
      }
      ok := true;
    }
  }

  lemma ExistsAsFile(t: Tree, model: string, version: string)
    requires Exists(t, model, version) && CheckpointPath(model, version) !in t.dirs
    ensures CheckpointPath(model, version) in t.files
  {
  }

  lemma {:induction false} WithoutDistinct(list: seq<CacheEntry>, e: CacheEntry, i: nat, j: nat)
    requires forall i, j | 0 <= i < j < |list| :: list[i].key != list[j].key
    requires i < j < |Unlink(list, e)|
    ensures Unlink(list, e)[i].key != Unlink(list, e)[j].key
  {
    if list[0] != e && i > 0 {
      WithoutDistinct(list[1..], e, i - 1, j - 1);
    } else if list[0] != e {
      UnlinkSome(list[1..], e, j - 1);
    }
  }

  lemma FrontDistinct(list: seq<CacheEntry>, e: CacheEntry)
    requires forall i, j | 0 <= i < j < |list| :: list[i].key != list[j].key
    requires e in list
    ensures var front := [e] + Unlink(list, e); forall i, j | 0 <= i < j < |front| :: front[i].key != front[j].key
  {
    var rest := Unlink(list, e);
    var front := [e] + rest;
    UnlinkEntries(list, e);
    forall i, j | 0 <= i < j < |front| ensures front[i].key != front[j].key {
      if i == 0 {
        var x := front[j];
        UnlinkSome(list, e, j - 1);
        assert x in Unlink(list, e);
        var k :| 0 <= k < |list| && list[k] == e;
        var l :| 0 <= l < |list| && list[l] == x;
      } else {
        WithoutDistinct(list, e, i - 1, j - 1);
      }
    }
  }

  lemma {:induction false} UnlinkSome(list: seq<CacheEntry>, e: CacheEntry, j: nat)
    requires j < |Unlink(list, e)|
    ensures Unlink(list, e)[j] in list
  {
    if list[0] != e && j > 0 {
      UnlinkSome(list[1..], e, j - 1);
    }
  }
}
