/** What a reload that stopped half way leads to. The constructor of the store ignores its error, so
    the tables read so far and the part number computed from them are what later calls work with. */
module ObjectStoreStops {
  import opened Common
  import opened Paths
  import opened MetadataText
  import opened MetadataRoundTrip
  import opened ObjectStore
  import opened ObjectStoreBackend
  import Losses = ObjectStoreLosses

  /** The store after a reload that read the first `k` listed files. */
  ghost function Stopped(s: Store, order: seq<Location>, k: nat): Store
    requires ListsDirs(s.meta, order) && k <= |order| && NextFrom(s.meta, order[..k]) <= INT64_MAX
  {
    s.(tables := TablesFrom(s.meta, order[..k]), nextPart := NextFrom(s.meta, order[..k]), phase := Idle)
  }

  /** Some calls that follow, without another reload, destroy the file of a version on disk. */
  ghost predicate CanOverwrite(s: Store, after: Store) {
    exists states, events :: Overwrites(s, after, states, events)
  }

  ghost predicate Overwrites(s: Store, after: Store, states: seq<Store>, events: seq<Event>) {
    && |states| == |events| + 1 && Run(states, events) && states[0] == after && Reopen !in events
    && exists at, v :: OnDisk(s, at, v) && !SameFile(s, states[|events|], at, v)
  }

  /** An unread file records a part number that will be drawn again. */
  ghost predicate Repeats(s: Store, order: seq<Location>, k: nat)
    requires ListsDirs(s.meta, order) && k <= |order|
  {
    exists i, v :: k <= i < |order| && OnDisk(s, order[i], v) && PartOf(v.versionId).Some?
                   && PartOf(v.versionId).value >= NextFrom(s.meta, order[..k])
  }

  // ---------------------------------------------------------------- part numbers after the reload

  /** What the files record lies below the next part number of the store that wrote them. */
  lemma RecordedBelow(s: Store, at: Location, v: VersionMeta)
    requires Inv(s) && OnDisk(s, at, v)
    ensures PartOf(v.versionId).Some? && 1 <= PartOf(v.versionId).value < s.nextPart && Listed(at)
    ensures exists t :: Finds(s.meta, at, t) && v in t.versions
  {
    hide PrintTable, ParseTable, DistinctParts, FilesIntact, Dir, PartOf;
    var id, n := FileIsEarlier(s, at);
    assert v in s.tables[id].versions && RecordedOk(v, id, s.nextPart);
    assert Finds(s.meta, at, Earlier(s.tables[id], n));
  }

  lemma NextIsBounded(s: Store, order: seq<Location>, k: nat)
    requires Inv(s) && ListsDirs(s.meta, order) && k <= |order|
    ensures NextFrom(s.meta, order[..k]) <= s.nextPart && NextIs(s.meta, order[..k], NextFrom(s.meta, order[..k]))
  {
    hide ParseTable, PartOf, Listed, NextFrom, Inv;
    var next := NextFrom(s.meta, order[..k]);
    NextIsAfterAll(s.meta, order[..k]);
    if next == 1 {
      NextAtLeastOne(s);
    } else {
      var at, t, v :| Finds(s.meta, at, t) && v in t.versions && PartOf(v.versionId) == Some(next - 1);
      assert OnDisk(s, at, v);
      RecordedBelow(s, at, v);
    }
  }

  lemma NextAtLeastOne(s: Store)
    requires Inv(s)
    ensures s.nextPart >= 1
  {
  }

  // ---------------------------------------------------------------- numbers below stay

  /** Until the next reload part files are only written from the next part number on. */
  ghost predicate Above(s: Store, next: int) {
    && next <= s.nextPart && (s.phase.Taken? ==> next <= s.phase.part)
  }

  lemma StepAbove(s: Store, e: Event, s': Store, next: int)
    requires Above(s, next) && Step(s, e, s') && e != Reopen
    ensures Above(s', next)
    ensures forall key: PartKey | key in s.parts && key.1 < next :: key in s'.parts && s'.parts[key] == s.parts[key]
  {
    hide PrintTable, Dir;
  }

  lemma {:induction false} RunAbove(states: seq<Store>, events: seq<Event>, next: int, n: nat)
    requires Run(states, events) && Reopen !in events && n < |states| && Above(states[0], next)
    ensures Above(states[n], next)
    ensures forall key: PartKey | key in states[0].parts && key.1 < next ::
              key in states[n].parts && states[n].parts[key] == states[0].parts[key]
  {
    hide Above, Step;
    if n > 0 {
      RunAbove(states, events, next, n - 1);
      assert events[n - 1] in events;
      StepAbove(states[n - 1], events[n - 1], states[n], next);
    }
  }

  // ---------------------------------------------------------------- a run that overwrites

  lemma {:induction false} FlushAll(s: Store, todo: set<string>) returns (states: seq<Store>, events: seq<Event>)
    requires s.phase == Flushing(todo) && todo != {} && todo <= s.tables.Keys
    ensures |states| == |events| + 1 && Run(states, events) && states[0] == s && Reopen !in events
    ensures var last := states[|events|]; last == s.(meta := last.meta, phase := Idle)
    decreases |todo|
  {
    hide PrintTable, Dir;
    var id :| id in todo;
    var rest := todo - {id};
    var s' := s.(meta := s.meta[Dir(id) := PrintTable(s.tables[id])], phase := if rest == {} then Idle else Flushing(rest));
    Losses.OneStep(s, FlushOne(id), s');
    states, events := [s, s'], [FlushOne(id)];
    if rest != {} {
      var states', events' := FlushAll(s', rest);
      states, events := Joined(states, events, states', events');
    }
  }

  lemma Joined(states: seq<Store>, events: seq<Event>, states': seq<Store>, events': seq<Event>)
    returns (all: seq<Store>, es: seq<Event>)
    requires Run(states, events) && Run(states', events') && states[|events|] == states'[0]
    requires Reopen !in events && Reopen !in events'
    ensures |all| == |es| + 1 && Run(all, es) && Reopen !in es && all[0] == states[0] && all[|es|] == states'[|events'|]
  {
    hide Step;
    all, es := states + states'[1..], events + events';
    Losses.JoinRuns(states, events, states', events');
  }

  /** Registering a table that the reload did not read. */
  lemma Registering(s: Store, id: string) returns (states: seq<Store>, events: seq<Event>)
    requires s.phase == Idle
    ensures |states| == |events| + 1 && Run(states, events) && states[0] == s && Reopen !in events
    ensures var last := states[|events|];
            id in last.tables && last.phase == Idle && last.parts == s.parts && last.nextPart == s.nextPart
  {
    hide PrintTable, NewTable, Run;
    states, events := [s], [];
    assert Run(states, events) by { NoEvents(s); }
    if id !in s.tables {
      var tables := s.tables[id := NewTable(id, "", 0)];
      var s' := s.(tables := tables, phase := Flushing(tables.Keys));
      Losses.OneStep(s, Register(id, "", 0), s');
      assert id in tables.Keys;
      var states', events' := FlushAll(s', tables.Keys);
      states, events := Joined([s, s'], [Register(id, "", 0)], states', events');
    }
  }

  lemma NoEvents(s: Store)
    ensures Run([s], [])
  {
  }

  /** Appends that fail before their file is written use up the part numbers below `part`. */
  lemma {:induction false} Drawing(s: Store, id: string, part: int64) returns (states: seq<Store>, events: seq<Event>)
    requires s.phase == Idle && id in s.tables && s.nextPart <= part
    ensures |states| == |events| + 1 && Run(states, events) && states[0] == s && Reopen !in events && states[|events|] == s.(nextPart := part)
    decreases part - s.nextPart
  {
    hide Run;
    states, events := [s], [];
    NoEvents(s);
    if s.nextPart < part {
      var taken := s.(nextPart := s.nextPart + 1, phase := ObjectStore.Taken(id, s.nextPart, []));
      var s' := s.(nextPart := s.nextPart + 1);
      Losses.OneStep(s, Begin(id, []), taken);
      Losses.OneStep(taken, GiveUp, s');
      states, events := Joined([s, taken], [Begin(id, [])], [taken, s'], [GiveUp]);
      var states', events' := Drawing(s', id, part);
      states, events := Joined(states, events, states', events');
    }
  }

  lemma Overwriting(s: Store, id: string, part: int64, rows: Rows) returns (states: seq<Store>, events: seq<Event>)
    requires s.phase == Idle && s.nextPart <= part < INT64_MAX && |rows| <= INT64_MAX
    ensures |states| == |events| + 1 && Run(states, events) && states[0] == s && Reopen !in events
    ensures var last := states[|events|]; (Dir(id), part as int) in last.parts && last.parts[(Dir(id), part as int)] == rows
  {
    hide Run, Dir;
    states, events := Registering(s, id);
    var s1 := states[|events|];
    var states', events' := Drawing(s1, id, part);
    states, events := Joined(states, events, states', events');
    var s2 := s1.(nextPart := part);
    var taken := s2.(nextPart := part + 1, phase := ObjectStore.Taken(id, part, rows));
    var s3 := taken.(parts := s2.parts[(Dir(id), part as int) := rows], phase := Written(id, part, rows));
    Losses.OneStep(s2, Begin(id, rows), taken);
    Losses.OneStep(taken, WritePart, s3);
    states', events' := Joined([s2, taken], [Begin(id, rows)], [taken, s3], [WritePart]);
    states, events := Joined(states, events, states', events');
  }

  // ---------------------------------------------------------------- when rows can be lost

  /** After a reload that stopped, and without another one, the file of a version on disk can be
      overwritten exactly when a file that was not read records a part number that is not below the
      next one computed from the files that were. */
  lemma StoppedReloadOverwrites(s: Store, order: seq<Location>, k: nat)
    requires Inv(s) && ListsDirs(s.meta, order) && k <= |order|
    ensures NextFrom(s.meta, order[..k]) <= INT64_MAX
    ensures CanOverwrite(s, Stopped(s, order, k)) <==> Repeats(s, order, k)
  {
    hide Inv, Run, SameFile, OnDisk, PartOf, NextFrom, TablesFrom, Listed;
    NextIsBounded(s, order, k);
    var after := Stopped(s, order, k);
    if Repeats(s, order, k) {
      var i, v :| k <= i < |order| && OnDisk(s, order[i], v) && PartOf(v.versionId).Some? &&
                  PartOf(v.versionId).value >= NextFrom(s.meta, order[..k]);
      var states, events := RepeatedOverwrites(s, after, order[i], v);
    } else {
      forall states, events ensures !Overwrites(s, after, states, events) {
        if Overwrites(s, after, states, events) {
          var at, v :| OnDisk(s, at, v) && !SameFile(s, states[|events|], at, v);
          PartIsBelow(s, order, k, at, v);
          BelowIsKept(s, after, states, events, at, v);
        }
      }
    }
  }

  lemma RepeatedOverwrites(s: Store, after: Store, at: Location, v: VersionMeta) returns (states: seq<Store>, events: seq<Event>)
    requires Inv(s) && OnDisk(s, at, v) && after.phase == Idle
    requires PartOf(v.versionId).Some? && after.nextPart <= PartOf(v.versionId).value
    ensures Overwrites(s, after, states, events)
  {
    hide Inv, OnDisk, PartOf, Run, Dir;
    RecordedBelow(s, at, v);
    OnDiskHasFile(s, at, v);
    var id := IdAt(s, at);
    var key, part := PartFile(at, v), PartOf(v.versionId).value;
    states, events := Overwriting(after, id, part, if s.parts[key] == [] then ["row"] else []);
  }

  lemma IdAt(s: Store, at: Location) returns (id: string)
    requires Inv(s) && at in s.meta
    ensures Dir(id) == at
  {
    hide PrintTable, ParseTable, Dir;
    var n;
    id, n := FileIsEarlier(s, at);
  }

  lemma PartIsBelow(s: Store, order: seq<Location>, k: nat, at: Location, v: VersionMeta)
    requires Inv(s) && ListsDirs(s.meta, order) && k <= |order| && !Repeats(s, order, k) && OnDisk(s, at, v)
    ensures PartOf(v.versionId).Some? && PartOf(v.versionId).value < NextFrom(s.meta, order[..k])
  {
    hide Inv, PartOf, NextFrom, ParseTable, Listed;
    RecordedBelow(s, at, v);
    NextIsBounded(s, order, k);
    var i :| 0 <= i < |order| && order[i] == at;
    if i < k {
      var t :| Finds(s.meta, at, t) && v in t.versions;
      assert order[..k][i] == at;
    }
  }

  lemma BelowIsKept(s: Store, after: Store, states: seq<Store>, events: seq<Event>, at: Location, v: VersionMeta)
    requires Inv(s) && OnDisk(s, at, v) && after.parts == s.parts && after.phase == Idle
    requires PartOf(v.versionId).Some? && PartOf(v.versionId).value < after.nextPart
    requires Run(states, events) && states[0] == after && Reopen !in events
    ensures SameFile(s, states[|events|], at, v)
  {
    hide Inv, OnDisk, PartOf, Step;
    OnDiskHasFile(s, at, v);
    RunAbove(states, events, after.nextPart, |events|);
  }

  /** A reload that stops at the first file it opens lets any version on disk be overwritten. */
  lemma UnreadableFileLoses(s: Store, order: seq<Location>, at: Location, v: VersionMeta)
    requires Inv(s) && ListsDirs(s.meta, order) && OnDisk(s, at, v)
    ensures NextFrom(s.meta, order[..0]) <= INT64_MAX && CanOverwrite(s, Stopped(s, order, 0))
  {
    hide Inv, PartOf, ParseTable, Listed, CanOverwrite;
    RecordedBelow(s, at, v);
    NothingYet(s.meta);
    assert order[..0] == [];
    var i :| 0 <= i < |order| && order[i] == at;
    StoppedReloadOverwrites(s, order, 0);
    assert Repeats(s, order, 0);
  }

  // ---------------------------------------------------------------- two files of one table

  /** This file was read and holds a table of this id. */
  predicate HoldsTable(meta: map<Location, string>, at: Location, id: string) {
    at in meta && meta[at] != "" && ParseTable(meta[at]).Some? && ParseTable(meta[at]).value.tableId == id
  }

  ghost predicate LastHolder(meta: map<Location, string>, order: seq<Location>, k: nat, id: string) {
    k < |order| && HoldsTable(meta, order[k], id) && forall j | k < j < |order| :: !HoldsTable(meta, order[j], id)
  }

  /** A reload loads a table exactly if a file read holds one of its id, and then the last such file
      counts. */
  lemma {:induction false} LastFileCounts(meta: map<Location, string>, order: seq<Location>, id: string)
    requires forall i | 0 <= i < |order| :: order[i] in meta
    ensures id in TablesFrom(meta, order) <==> exists k: nat :: LastHolder(meta, order, k, id)
    ensures forall k: nat | LastHolder(meta, order, k, id) ::
              id in TablesFrom(meta, order) && Some(TablesFrom(meta, order)[id]) == ParseTable(meta[order[k]])
    decreases |order|
  {
    hide ParseTable;
    if order != [] {
      var n := |order| - 1;
      LastFileCounts(meta, order[..n], id);
      if HoldsTable(meta, order[n], id) {
        assert LastHolder(meta, order, n, id);
      } else {
        forall k: nat ensures LastHolder(meta, order, k, id) <==> LastHolder(meta, order[..n], k, id) {
        }
      }
    }
  }
}
