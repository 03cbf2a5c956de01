/** Which table ids are safe: over runs that register only safe ids no recorded version is ever lost,
    and for any others whose files can be written there is a run that loses one. */
module ObjectStoreLosses {
  import opened Common
  import opened Paths
  import Directories
  import opened MetadataText
  import opened MetadataRoundTrip
  import opened MetadataConverse
  import opened ObjectStore

  /** A completed append whose file later holds other rows, or none. */
  ghost predicate Lost(states: seq<Store>, i: nat, j: nat, id: string, v: VersionMeta)
    requires i <= j < |states|
  {
    && states[i].phase == Idle && id in states[i].tables && v in states[i].tables[id].versions
    && Dir(id) in states[i].meta && states[i].meta[Dir(id)] == PrintTable(states[i].tables[id])
    && !SameFile(states[i], states[j], Dir(id), v)
  }

  ghost predicate LosesSome(states: seq<Store>) {
    exists i: nat, j: nat, id, v :: i <= j < |states| && Lost(states, i, j, id, v)
  }

  /** Where a table puts its files: its metadata, or something in its base directory. */
  predicate OwnPlace(dir: Location, at: Location) {
    || at == dir + ["metadata.json"] || at == dir + ["metadata.json.tmp"]
    || (|at| == |dir| + 2 && at[..|dir| + 1] == dir + ["base"])
  }

  /** The files of this table can be written: the way to its directory makes no directory of one. */
  predicate Clear(id: string) { forall at | at in Directories.WayTo(TABLES, id) :: !OwnPlace(Dir(id), at) }

  function ClearOf(ids: set<string>): set<string> { set id | id in ids && Clear(id) }

  lemma PlainIdsAreClear(id: string)
    requires Plain(id)
    ensures Clear(id)
  {
    NoSlashPieces(id);
    ResolveNoSlash(TABLES, id);
    assert Directories.Trail(TABLES, [id]) == [TABLES] + Directories.Trail(TABLES + [id], []);
  }

  /** No run that registers only these ids, as far as their files can be written, loses a version. */
  ghost predicate NeverLoses(ids: set<string>) {
    forall states, events | RunOver(states, events, ClearOf(ids)) :: !LosesSome(states)
  }

  lemma NeverLost(states: seq<Store>, events: seq<Event>, ids: set<string>, i: nat, j: nat, id: string, v: VersionMeta)
    requires RunOver(states, events, ids) && SafeIds(ids) && i <= j < |states|
    ensures !Lost(states, i, j, id, v)
  {
    hide PrintTable, ParseTable, SameFile, Step, SafeIds, Dir;
    if Lost(states, i, j, id, v) {
      var t := states[i].tables[id];
      RunKeeps(states, events, ids, i);
      assert Earlier(t, |t.versions|) == t by { assert t.versions[..|t.versions|] == t.versions; }
      EarlierRoundTrip(t, id, states[i].nextPart, |t.versions|);
      Durable(states, events, ids, i, j, Dir(id), v);
    }
  }

  /** Exactly over the runs with safe ids is no recorded version ever lost. */
  lemma SafeIdsExactly(ids: set<string>)
    ensures NeverLoses(ids) <==> SafeIds(ClearOf(ids))
  {
    hide RunOver, Lost, SafeIds, ClearOf;
    if SafeIds(ClearOf(ids)) {
      forall states, events | RunOver(states, events, ClearOf(ids)) ensures !LosesSome(states) {
        forall i: nat, j: nat, id, v | i <= j < |states| ensures !Lost(states, i, j, id, v) {
          NeverLost(states, events, ClearOf(ids), i, j, id, v);
        }
      }
    } else {
      var states, events := UnsafeIdsLose(ClearOf(ids));
    }
  }

  /** Ids that are not safe have a run that loses a version: one whose directory the reload does not
      look at, one whose brackets are not nested, or two that mean one directory. */
  lemma UnsafeIdsLose(ids: set<string>) returns (states: seq<Store>, events: seq<Event>)
    requires !SafeIds(ids)
    ensures RunOver(states, events, ids) && LosesSome(states)
  {
    hide Lost, Dir, Balanced, Listed, Run;
    var v;
    if id :| id in ids && !Listed(Dir(id)) {
      states, events, v := UnlistedIdLoses(id, ["row"], []);
      assert Lost(states, 6, 11, id, v);
    } else if id :| id in ids && !Balanced(id) {
      states, events, v := UnbalancedIdLoses(id, ["row"], []);
      assert Lost(states, 6, 9, id, v);
    } else {
      var a, b :| a in ids && b in ids && Dir(a) == Dir(b) && a != b;
      states, events, v := AliasedIdsLose(a, b, ["row"], []);
      assert Lost(states, 6, 12, a, v);
    }
  }

  // ---------------------------------------------------------------- what an unbalanced id does to the file

  lemma HeadTable(t: TableMetadata, o: map<string, string>)
    requires "snapshots" !in o && ("versions" in o ==> SplitArray(o["versions"]) == [])
    requires forall i | 0 <= i < 4 :: HeadFields(t)[i].key in o && o[HeadFields(t)[i].key] == ValueText(HeadFields(t)[i].value)
    ensures TableFrom(o) == Some(t.(versions := [], snapshots := []))
  {
    StollPrintInt(t.createdAt);
    assert HeadFields(t)[0].key == "table_id" && HeadFields(t)[1].key == "schema_json";
    assert HeadFields(t)[2].key == "schema_hash" && HeadFields(t)[3].key == "created_at";
  }

  lemma HeadLookups(t: TableMetadata, o: map<string, string>)
    requires o == Stored(HeadFields(t), map[])
    ensures "snapshots" !in o && "versions" !in o
    ensures forall i | 0 <= i < 4 :: HeadFields(t)[i].key in o && o[HeadFields(t)[i].key] == ValueText(HeadFields(t)[i].value)
    ensures forall i | 0 <= i < 4 :: HeadFields(t)[i].key != "versions"
  {
    HeadStores(t);
    StoreLookup(HeadFields(t), 0, map[]);
    StoreLookup(HeadFields(t), 1, map[]);
    StoreLookup(HeadFields(t), 2, map[]);
    StoreLookup(HeadFields(t), 3, map[]);
  }

  lemma UnsafeParses(t: TableMetadata) returns (o: map<string, string>)
    requires |t.versions| == 1 && t.snapshots == [] && Nest(VersionStrings(t.versions), 1) != Some(1)
    ensures o == ParseObject(PrintTable(t)).fields
    ensures var head := Stored(HeadFields(t), map[]);
            && o.Keys <= head.Keys + {"versions"} && (forall k | k in head :: k in o && o[k] == head[k])
            && "versions" !in head && "snapshots" !in head
    ensures "versions" in o ==> SplitArray(o["versions"]) == []
  {
    hide PrintField, ParseMembers, FlatFields, SplitArray, SnapshotsTail, HeadFields;
    var versions, snapshots := VersionObjects(t.versions), SnapshotObjects(t.snapshots);
    NestVersions(t.versions, 1);
    HeadIsReadable(t);
    HeadStores(t);
    ObjectsAreFlat(t);
    ReadsHead(HeadFields(t), versions, snapshots);
    o := UnsafeFields(versions, snapshots, Stored(HeadFields(t), map[]));
  }

  /** With one recorded version whose strings break the nesting, the text parses to no version. */
  lemma UnsafeLosesVersions(t: TableMetadata)
    requires |t.versions| == 1 && t.snapshots == [] && Nest(VersionStrings(t.versions), 1) != Some(1)
    ensures ParseTable(PrintTable(t)) == Some(t.(versions := []))
  {
    hide PrintTable, ParseObject, TableFrom, HeadFields, SplitArray, Nest;
    var o := UnsafeParses(t);
    HeadLookups(t, Stored(HeadFields(t), map[]));
    HeadTable(t, o);
  }

  lemma UnsafeFields(versions: seq<seq<Field>>, snapshots: seq<seq<Field>>, out: map<string, string>)
    returns (o: map<string, string>)
    requires |versions| == 1 && snapshots == [] && Nest(PrintObjects(versions), 1) != Some(1)
    requires forall fs | fs in versions :: FlatFields(fs)
    requires "versions" !in out
    ensures o == ParseMembers(PrintField(ListField("versions", versions)) + SnapshotsTail(snapshots), out).fields
    ensures o.Keys <= out.Keys + {"versions"} && (forall k | k in out :: k in o && o[k] == out[k])
    ensures "versions" in o ==> SplitArray(o["versions"]) == []
  {
    hide PrintField, ParseMembers, FlatFields, SnapshotsTail, SplitArray;
    o := ParseMembers(PrintField(ListField("versions", versions)) + SnapshotsTail(snapshots), out).fields;
    var vs := PrintObjects(versions);
    if Nest(vs, 1) == None {
      TailFollows(snapshots);
      var text := ListStops("versions", versions, SnapshotsTail(snapshots), out);
    } else {
      var text := VersionsRunOn(vs, Nest(vs, 1).value, snapshots, out);
    }
  }

  lemma ForgetsVersion(t: TableMetadata, v: VersionMeta)
    requires t.versions == [v] && t.snapshots == [] && !Balanced(v.tableId)
    requires NoBrackets(v.versionId) && NoBrackets(v.schemaHash)
    ensures ParseTable(PrintTable(t)) == Some(t.(versions := []))
  {
    hide ParseTable, PrintTable;
    var rest := v.schemaHash + VersionStrings([]);
    assert VersionStrings(t.versions) == v.versionId + (v.tableId + rest) by { assert [v][1..] == []; }
    NestPlain(v.versionId, 1);
    NestConcat(v.versionId, v.tableId + rest, 1);
    NestConcat(v.tableId, rest, 1);
    assert rest == v.schemaHash;
    if Nest(v.tableId, 1).Some? {
      NestPlain(rest, Nest(v.tableId, 1).value);
    }
    UnsafeLosesVersions(t);
  }

  // ---------------------------------------------------------------- runs

  /** The table as it is registered. */
  function Fresh(id: string): TableMetadata { NewTable(id, "", 0) }

  function First(id: string, rows: Rows): VersionMeta
    requires |rows| <= INT64_MAX
  {
    NewVersion(Fresh(id), id, 1, rows, 0)
  }

  lemma JoinRuns(states: seq<Store>, events: seq<Event>, states': seq<Store>, events': seq<Event>)
    requires Run(states, events) && Run(states', events') && states[|states| - 1] == states'[0]
    ensures Run(states + states'[1..], events + events')
  {
    var all, es := states + states'[1..], events + events';
    forall i | 0 <= i < |es| ensures Step(all[i], es[i], all[i + 1]) {
      if i >= |events| {
        assert Step(states'[i - |events|], events'[i - |events|], states'[i - |events| + 1]);
      }
    }
  }

  lemma OneStep(s: Store, e: Event, s': Store)
    requires Step(s, e, s')
    ensures Run([s, s'], [e])
  {
  }

  lemma FlushStep(s: Store, id: string, todo: set<string>)
    requires s.phase == Flushing(todo + {id}) && id !in todo && id in s.tables
    ensures Step(s, FlushOne(id), s.(meta := s.meta[Dir(id) := PrintTable(s.tables[id])],
                                     phase := if todo == {} then Idle else Flushing(todo)))
  {
    hide PrintTable, Dir;
    assert todo + {id} - {id} == todo;
  }

  /** Registering a table in a store without tables. */
  lemma RegisterRun(s: Store, id: string) returns (states: seq<Store>, events: seq<Event>)
    requires s.phase == Idle && s.tables == map[]
    ensures |states| == 3 && |events| == 2 && Run(states, events) && states[0] == s
    ensures states[2] == s.(meta := s.meta[Dir(id) := PrintTable(Fresh(id))], tables := map[id := Fresh(id)])
    ensures events == [Register(id, "", 0), FlushOne(id)]
  {
    hide PrintTable, SchemaHash, Dir;
    var t := Fresh(id);
    var s1 := s.(tables := map[id := t], phase := Flushing({id}));
    states := [s, s1, s1.(meta := s.meta[Dir(id) := PrintTable(t)], phase := Idle)];
    events := [Register(id, "", 0), FlushOne(id)];
    var tables := s.tables[id := t];
    assert tables == map[id := t] && tables.Keys == {id} && {} + {id} == {id};
    assert Step(s, events[0], s1);
    FlushStep(s1, id, {});
    assert Step(s1, events[1], states[2]);
  }

  /** Registering a second table, after which the metadata files are written in this order. */
  lemma RegisterSecond(s: Store, a: string, b: string) returns (states: seq<Store>, events: seq<Event>)
    requires s.phase == Idle && s.tables.Keys == {a} && a != b
    ensures |states| == 4 && |events| == 3 && Run(states, events) && states[0] == s
    ensures states[3] == s.(meta := s.meta[Dir(a) := PrintTable(s.tables[a])][Dir(b) := PrintTable(Fresh(b))],
                            tables := s.tables[b := Fresh(b)])
    ensures events == [Register(b, "", 0), FlushOne(a), FlushOne(b)]
  {
    hide PrintTable, SchemaHash, Dir;
    var tables := s.tables[b := Fresh(b)];
    var s1 := s.(tables := tables, phase := Flushing({a, b}));
    var s2 := s1.(meta := s.meta[Dir(a) := PrintTable(s.tables[a])], phase := Flushing({b}));
    var s3 := s2.(meta := s2.meta[Dir(b) := PrintTable(Fresh(b))], phase := Idle);
    states, events := [s, s1, s2, s3], [Register(b, "", 0), FlushOne(a), FlushOne(b)];
    assert tables.Keys == {a, b} && {b} + {a} == {a, b} && {} + {b} == {b};
    assert Step(s, events[0], s1);
    FlushStep(s1, a, {b});
    FlushStep(s2, b, {});
    assert Step(s1, events[1], s2) && Step(s2, events[2], s3);
  }

  lemma WriteRun(s: Store, id: string, rows: Rows) returns (states: seq<Store>, events: seq<Event>)
    requires s.phase == Idle && id in s.tables && s.nextPart == 1 && |rows| <= INT64_MAX
    ensures |states| == 3 && |events| == 2 && Run(states, events) && states[0] == s
    ensures states[2] == s.(parts := s.parts[(Dir(id), 1) := rows], nextPart := 2, phase := Written(id, 1, rows))
    ensures events == [Begin(id, rows), WritePart]
  {
    hide Dir;
    var taken := s.(nextPart := 2, phase := ObjectStore.Taken(id, 1, rows));
    states := [s, taken, taken.(parts := s.parts[(Dir(id), 1) := rows], phase := Written(id, 1, rows))];
    events := [Begin(id, rows), WritePart];
    assert Step(s, events[0], taken) && Step(taken, events[1], states[2]);
  }

  lemma RecordRun(s: Store, id: string, rows: Rows) returns (states: seq<Store>, events: seq<Event>)
    requires |rows| <= INT64_MAX && s.phase == Written(id, 1, rows) && s.tables == map[id := Fresh(id)]
    ensures |states| == 3 && |events| == 2 && Run(states, events) && states[0] == s
    ensures var after := Fresh(id).(versions := [First(id, rows)]);
            states[2] == s.(tables := map[id := after], meta := s.meta[Dir(id) := PrintTable(after)], phase := Idle)
    ensures events == [ObjectStore.Record(0), FlushOne(id)]
  {
    hide PrintTable, VersionId, SchemaHash, Dir;
    var after := Fresh(id).(versions := [First(id, rows)]);
    assert Fresh(id).versions + [First(id, rows)] == [First(id, rows)];
    var s1 := s.(tables := map[id := after], phase := Flushing({id}));
    states := [s, s1, s1.(meta := s.meta[Dir(id) := PrintTable(after)], phase := Idle)];
    events := [ObjectStore.Record(0), FlushOne(id)];
    assert s.tables[id := after] == map[id := after] && s.tables.Keys == {id} && {} + {id} == {id};
    assert Step(s, events[0], s1);
    FlushStep(s1, id, {});
    assert Step(s1, events[1], states[2]);
  }

  /** A first append to a fresh table, complete and on disk. */
  ghost function Appended(id: string, rows: Rows): Store
    requires |rows| <= INT64_MAX
  {
    var t := Fresh(id).(versions := [First(id, rows)]);
    Store(map[Dir(id) := PrintTable(t)], map[(Dir(id), 1) := rows], map[id := t], 2, Idle)
  }

  lemma AppendRun(id: string, rows: Rows) returns (states: seq<Store>, events: seq<Event>)
    requires |rows| <= INT64_MAX
    ensures |states| == 7 && |events| == 6 && Run(states, events) && states[0] == EMPTY && states[6] == Appended(id, rows)
    ensures Registered(events) == {id}
  {
    hide PrintTable, Fresh, First, Dir, Run;
    var states1, events1 := RegisterRun(EMPTY, id);
    var states2, events2 := WriteRun(states1[2], id, rows);
    var states3, events3 := RecordRun(states2[2], id, rows);
    JoinRuns(states1, events1, states2, events2);
    states, events := states1 + states2[1..], events1 + events2;
    JoinRuns(states, events, states3, events3);
    states, events := states + states3[1..], events + events3;
    RegisteredOnly(events, id);
  }

  lemma RegisteredOnly(events: seq<Event>, id: string)
    requires Register(id, "", 0) in events && forall e | e in events && e.Register? :: e.id == id
    ensures Registered(events) == {id}
  {
    assert Register(id, "", 0).id == id;
  }

  /** Overwriting the first part file loses the version. */
  lemma OverwritingLoses(states: seq<Store>, j: nat, id: string, rows: Rows, later: Rows)
    requires |rows| <= INT64_MAX && rows != later && 6 <= j < |states|
    requires states[6] == Appended(id, rows) && (Dir(id), 1) in states[j].parts && states[j].parts[(Dir(id), 1)] == later
    ensures Lost(states, 6, j, id, First(id, rows))
  {
    hide PrintTable, Dir, Fresh, PartOf;
    PartOfVersionId(1);
  }

  lemma UnlistedIdLoses(id: string, rows: Rows, later: Rows) returns (states: seq<Store>, events: seq<Event>, v: VersionMeta)
    requires !Listed(Dir(id)) && |rows| <= INT64_MAX && |later| <= INT64_MAX && rows != later
    ensures Run(states, events) && states[0] == EMPTY && Registered(events) == {id}
    ensures |states| == 12 && Lost(states, 6, 11, id, v)
  {
    hide PrintTable, Fresh, First, Dir, Run, Step, Lost, Registered, Listed;
    v := First(id, rows);
    states, events := AppendRun(id, rows);
    var s6 := states[6];
    var s7 := s6.(tables := map[], nextPart := 1);
    ReopensEmpty(s6, id);
    OneStep(s6, Reopen, s7);
    var states1, events1 := RegisterRun(s7, id);
    var states2, events2 := WriteRun(states1[2], id, later);
    JoinRuns([s6, s7], [Reopen], states1, events1);
    JoinRuns([s6, s7] + states1[1..], [Reopen] + events1, states2, events2);
    var states3, events3 := [s6, s7] + states1[1..] + states2[1..], [Reopen] + events1 + events2;
    JoinRuns(states, events, states3, events3);
    RegistersAll(events, events3, id);
    states, events := states + states3[1..], events + events3;
    assert states[6] == s6 && states[11] == states2[2];
    OverwritingLoses(states, 11, id, rows, later);
  }

  lemma RegistersAll(events: seq<Event>, events': seq<Event>, id: string)
    requires Registered(events) == {id} && forall e | e in events' && e.Register? :: e.id == id
    ensures Registered(events + events') == {id}
  {
    assert forall e :: e in events + events' <==> e in events || e in events';
    assert forall e | e in events && e.Register? :: e.id in Registered(events);
    assert id in Registered(events);
  }

  lemma ReopensEmpty(s: Store, id: string)
    requires s.phase == Idle && s.meta.Keys == {Dir(id)} && !Listed(Dir(id))
    ensures Step(s, Reopen, s.(tables := map[], nextPart := 1))
  {
    hide Dir, ParseTable, PartOf, Listed;
  }

  lemma UnbalancedIdLoses(id: string, rows: Rows, later: Rows) returns (states: seq<Store>, events: seq<Event>, v: VersionMeta)
    requires Listed(Dir(id)) && !Balanced(id) && |rows| <= INT64_MAX && |later| <= INT64_MAX && rows != later
    ensures Run(states, events) && states[0] == EMPTY && Registered(events) == {id}
    ensures |states| == 10 && Lost(states, 6, 9, id, v)
  {
    hide PrintTable, Fresh, First, Dir, Run, Step, Lost, Registered, Listed, Balanced;
    v := First(id, rows);
    states, events := AppendRun(id, rows);
    var s6 := states[6];
    var s7 := s6.(tables := map[id := Fresh(id)], nextPart := 1);
    ForgetsFirst(id, rows);
    FreshRoundTrip(id);
    PrintNotEmpty(Fresh(id).(versions := [v]));
    ReopensOne(s6, id, Fresh(id));
    OneStep(s6, Reopen, s7);
    var states2, events2 := WriteRun(s7, id, later);
    JoinRuns([s6, s7], [Reopen], states2, events2);
    var states3, events3 := [s6, s7] + states2[1..], [Reopen] + events2;
    JoinRuns(states, events, states3, events3);
    RegistersAll(events, events3, id);
    states, events := states + states3[1..], events + events3;
    assert states[6] == s6 && states[9] == states2[2];
    OverwritingLoses(states, 9, id, rows, later);
  }

  lemma ForgetsFirst(id: string, rows: Rows)
    requires !Balanced(id) && |rows| <= INT64_MAX
    ensures ParseTable(PrintTable(Fresh(id).(versions := [First(id, rows)]))) == Some(Fresh(id))
  {
    hide PrintTable, ParseTable, Balanced, NoBrackets, VersionId, SchemaHash;
    PartOfVersionId(1);
    var t := Fresh(id).(versions := [First(id, rows)]);
    ForgetsVersion(t, First(id, rows));
    assert t.(versions := []) == Fresh(id);
  }

  /** Reopening finds just the one table that the only metadata file holds. */
  lemma ReopensOne(s: Store, id: string, t: TableMetadata)
    requires s.phase == Idle && s.meta.Keys == {Dir(id)} && Listed(Dir(id)) && s.meta[Dir(id)] != ""
    requires ParseTable(s.meta[Dir(id)]) == Some(t) && t.tableId == id && t.versions == []
    ensures Step(s, Reopen, s.(tables := map[id := t], nextPart := 1))
  {
    hide Dir, ParseTable, PartOf, Listed;
    assert Finds(s.meta, Dir(id), t);
  }

  lemma AliasedIdsLose(a: string, b: string, rows: Rows, later: Rows) returns (states: seq<Store>, events: seq<Event>, v: VersionMeta)
    requires a != b && Dir(a) == Dir(b) && Listed(Dir(b)) && |rows| <= INT64_MAX && |later| <= INT64_MAX && rows != later
    ensures Run(states, events) && states[0] == EMPTY && Registered(events) == {a, b}
    ensures |states| == 13 && Lost(states, 6, 12, a, v)
  {
    hide PrintTable, ParseTable, Fresh, First, Dir, Run, Step, Lost, Registered, Listed;
    v := First(a, rows);
    states, events := AppendRun(a, rows);
    var s6 := states[6];
    var states1, events1 := RegisterSecond(s6, a, b);
    var s9 := states1[3];
    var s10 := s9.(tables := map[b := Fresh(b)], nextPart := 1);
    FreshRoundTrip(b);
    assert s9.meta.Keys == {Dir(b)};
    ReopensOne(s9, b, Fresh(b));
    OneStep(s9, Reopen, s10);
    var states2, events2 := WriteRun(s10, b, later);
    JoinRuns(states1, events1, [s9, s10], [Reopen]);
    JoinRuns(states1 + [s9, s10][1..], events1 + [Reopen], states2, events2);
    var states3, events3 := states1 + [s9, s10][1..] + states2[1..], events1 + [Reopen] + events2;
    JoinRuns(states, events, states3, events3);
    RegistersBoth(events, events3, a, b);
    states, events := states + states3[1..], events + events3;
    assert states[6] == s6 && states[12] == states2[2];
    OverwritingLoses(states, 12, a, rows, later);
  }

  lemma RegistersBoth(events: seq<Event>, events': seq<Event>, a: string, b: string)
    requires Registered(events) == {a} && Register(b, "", 0) in events' && forall e | e in events' && e.Register? :: e.id == b
    ensures Registered(events + events') == {a, b}
  {
    assert forall e :: e in events + events' <==> e in events || e in events';
    assert forall e | e in events && e.Register? :: e.id in Registered(events);
    assert a in Registered(events) && Register(b, "", 0).id == b;
  }

  /** A table without versions is read back whatever its id. */
  lemma FreshRoundTrip(id: string)
    ensures PrintTable(Fresh(id)) != "" && ParseTable(PrintTable(Fresh(id))) == Some(Fresh(id))
    ensures Fresh(id).tableId == id && Fresh(id).versions == []
  {
    hide PrintTable, ParseTable, SchemaHash;
    PrintNotEmpty(Fresh(id));
    TableRoundTrip(Fresh(id));
  }
}
