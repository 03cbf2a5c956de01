/** The table store as a step machine: part numbers, part files and metadata files, with a crash
    possible between any two steps. What is on disk is text, and reopening parses it. */
module ObjectStore {
  import opened Common
  import opened Paths
  import opened MetadataText
  import opened MetadataRoundTrip
  import opened MetadataConverse

  type Rows = seq<string>
  type PartKey = (Location, int)   // the directory of the table and the part number

  /** The directory of all tables; it may be anywhere. */
  const TABLES: Location

  function Dir(id: string): Location { Resolve(TABLES, id) }

  // ---------------------------------------------------------------- names and hashes

  function HexDigit(d: nat): (c: char)
    requires d < 16
    ensures IsDigit(c) || 'a' <= c <= 'f'
  {
    "0123456789abcdef"[d]
  }

  function PrintHex(n: nat): (s: string)
    ensures NoBrackets(s)
  {
    if n < 16 then [HexDigit(n)] else PrintHex(n / 16) + [HexDigit(n % 16)]
  }

  function Mixed(h: bv64, c: char): bv64 { (h ^ ((c as int % 256) as bv64)) * 0x100000001b3 }

  /** FNV-1a over the bytes of the schema text, in 64-bit arithmetic. */
  function Fnv(s: string, h: bv64): bv64 {
    if s == "" then h else Fnv(s[1..], Mixed(h, s[0]))
  }

  function SchemaHash(schemaJson: string): (s: string)
    ensures NoBrackets(s)
  {
    PrintHex(Fnv(schemaJson, 0xcbf29ce484222325) as nat)
  }

  function VersionId(part: int): string { "v_" + PrintInt(part) }

  function AfterUnderscore(s: string): Option<string> {
    if s == "" then None else if s[0] == '_' then Some(s[1..]) else AfterUnderscore(s[1..])
  }

  /** The part number that reloading reads out of a version id. */
  function PartOf(versionId: string): Option<int64> {
    match AfterUnderscore(versionId)
    case None => None
    case Some(digits) => Stoll(digits)
  }

  lemma PartOfVersionId(part: int64)
    ensures PartOf(VersionId(part)) == Some(part) && NoBrackets(VersionId(part))
  {
    StollPrintInt(part);
    var s := VersionId(part);
    assert s[1..][1..] == PrintInt(part);
    assert AfterUnderscore(s) == AfterUnderscore(s[1..]);
    forall i | 0 <= i < |s| ensures s[i] != '[' && s[i] != ']' {
      if i >= 2 { assert s[i] in PrintInt(part); }
    }
  }

  /** The reload looks at the directories directly below the one of all tables. */
  predicate Listed(at: Location) { OneBelow(TABLES, at) }

  /** A table id whose directory the reload finds and whose versions it can parse back. */
  predicate Storable(id: string) { Listed(Dir(id)) && Balanced(id) }

  /** No two of these ids mean one directory. */
  predicate Apart(ids: set<string>) { forall a, b | a in ids && b in ids && Dir(a) == Dir(b) :: a == b }

  predicate SafeIds(ids: set<string>) { Apart(ids) && forall id | id in ids :: Storable(id) }

  /** Ids without slashes are safe when they are plain names with nested brackets. */
  lemma PlainIdsAreSafe(ids: set<string>)
    requires forall id | id in ids :: NoSlash(id)
    ensures SafeIds(ids) <==> forall id | id in ids :: Plain(id) && Balanced(id)
  {
    forall id | id in ids ensures Storable(id) <==> Plain(id) && Balanced(id) {
      ResolveNoSlash(TABLES, id);
    }
    if forall id | id in ids :: Plain(id) {
      forall a, b | a in ids && b in ids && Dir(a) == Dir(b) ensures a == b {
        ResolveNoSlash(TABLES, a);
        ResolveNoSlash(TABLES, b);
        assert (TABLES + [a])[|TABLES|] == (TABLES + [b])[|TABLES|];
      }
    }
  }

  // ---------------------------------------------------------------- the machine

  datatype Phase =
    | Idle
    | Taken(id: string, part: int64, rows: Rows)     // the part number is drawn
    | Written(id: string, part: int64, rows: Rows)   // the part file is complete
    | Flushing(todo: set<string>)                    // metadata files still to be replaced

  /** `meta` and `parts` are on disk; the rest is lost in a crash. */
  datatype Store = Store(meta: map<Location, string>, parts: map<PartKey, Rows>,
                         tables: map<string, TableMetadata>, nextPart: int64, phase: Phase)

  datatype Event =
    | Register(id: string, schemaJson: string, now: int64)
    | Begin(id: string, rows: Rows)
    | Tear(partial: Rows)
    | WritePart
    | GiveUp
    | Record(now: int64)
    | FlushOne(id: string)
    | Reopen

  function NewTable(id: string, schemaJson: string, now: int64): TableMetadata {
    TableMetadata(id, schemaJson, SchemaHash(schemaJson), now, [], [])
  }

  function NewVersion(t: TableMetadata, id: string, part: int64, rows: Rows, now: int64): VersionMeta
    requires |rows| <= INT64_MAX
  {
    VersionMeta(VersionId(part), id, now, |rows|, t.schemaHash)
  }

  /** Reloading finds the table `t` in the file of this directory. */
  predicate Finds(meta: map<Location, string>, at: Location, t: TableMetadata) {
    at in meta && Listed(at) && meta[at] != "" && ParseTable(meta[at]) == Some(t)
  }

  /** What reloading makes of the metadata files: tables under the ids written in them. */
  ghost predicate Loaded(meta: map<Location, string>, tables: map<string, TableMetadata>) {
    && (forall at | at in meta && Listed(at) && meta[at] != "" ::
          ParseTable(meta[at]).Some? && ParseTable(meta[at]).value.tableId in tables)
    && forall id | id in tables :: tables[id].tableId == id && exists at :: Finds(meta, at, tables[id])
  }

  /** The number after the largest part number in the files, or 1. */
  ghost predicate FollowsAllParts(meta: map<Location, string>, next: int64) {
    && next >= 1
    && (forall at, t, v | Finds(meta, at, t) && v in t.versions && PartOf(v.versionId).Some? ::
          PartOf(v.versionId).value < next)
    && (next == 1 || exists at, t, v :: Finds(meta, at, t) && v in t.versions && PartOf(v.versionId) == Some(next - 1))
  }

  ghost predicate Step(s: Store, e: Event, s': Store) {
    match e
    case Register(id, schemaJson, now) =>
      && s.phase == Idle && id !in s.tables
      && var tables := s.tables[id := NewTable(id, schemaJson, now)];
         s' == s.(tables := tables, phase := Flushing(tables.Keys))
    case Begin(id, rows) =>
      && s.phase == Idle && id in s.tables && s.nextPart < INT64_MAX && |rows| <= INT64_MAX
      && s' == s.(nextPart := s.nextPart + 1, phase := Taken(id, s.nextPart, rows))
    case Tear(partial) =>
      && s.phase.Taken?
      && s' == s.(parts := s.parts[(Dir(s.phase.id), s.phase.part as int) := partial])
    case WritePart =>
      && s.phase.Taken?
      && s' == s.(parts := s.parts[(Dir(s.phase.id), s.phase.part as int) := s.phase.rows],
                  phase := Written(s.phase.id, s.phase.part, s.phase.rows))
    case GiveUp =>
      && s.phase != Idle
      && s' == s.(phase := Idle)
    case Record(now) =>
      && s.phase.Written? && s.phase.id in s.tables && |s.phase.rows| <= INT64_MAX
      && var id, t := s.phase.id, s.tables[s.phase.id];
         var v := NewVersion(t, id, s.phase.part, s.phase.rows, now);
         s' == s.(tables := s.tables[id := t.(versions := t.versions + [v])], phase := Flushing(s.tables.Keys))
    case FlushOne(id) =>
      && s.phase.Flushing? && id in s.phase.todo && id in s.tables
      && var todo := s.phase.todo - {id};
         s' == s.(meta := s.meta[Dir(id) := PrintTable(s.tables[id])],
                  phase := if todo == {} then Idle else Flushing(todo))
    case Reopen =>
      && Loaded(s.meta, s'.tables) && FollowsAllParts(s.meta, s'.nextPart)
      && s'.meta == s.meta && s'.parts == s.parts && s'.phase == Idle
  }

  const EMPTY := Store(map[], map[], map[], 1, Idle)

  ghost predicate Run(states: seq<Store>, events: seq<Event>) {
    && |states| == |events| + 1
    && forall i | 0 <= i < |events| :: Step(states[i], events[i], states[i + 1])
  }

  // ---------------------------------------------------------------- what every step keeps

  predicate RecordedOk(v: VersionMeta, id: string, next: int64) {
    && PartOf(v.versionId).Some?
    && 1 <= PartOf(v.versionId).value < next
    && v.tableId == id && NoBrackets(v.versionId) && NoBrackets(v.schemaHash)
  }

  function PartFile(at: Location, v: VersionMeta): PartKey
    requires PartOf(v.versionId).Some?
  {
    (at, PartOf(v.versionId).value as int)
  }

  function Key(id: string, v: VersionMeta): PartKey
    requires PartOf(v.versionId).Some?
  {
    PartFile(Dir(id), v)
  }

  predicate TableOk(t: TableMetadata, id: string, next: int64) {
    && Storable(id) && t.tableId == id && t.snapshots == [] && NoBrackets(t.schemaHash)
    && forall v | v in t.versions :: RecordedOk(v, id, next)
  }

  ghost predicate TablesOk(tables: map<string, TableMetadata>, next: int64) {
    forall id | id in tables :: TableOk(tables[id], id, next)
  }

  /** No part number is recorded twice, in one table or in two. */
  ghost predicate DistinctParts(tables: map<string, TableMetadata>) {
    forall id, i, id', i' | id in tables && id' in tables && 0 <= i < |tables[id].versions| &&
                            0 <= i' < |tables[id'].versions| && (id != id' || i != i') ::
      PartOf(tables[id].versions[i].versionId) != PartOf(tables[id'].versions[i'].versionId)
  }

  /** Every recorded version has its file, with as many rows as were recorded. */
  ghost predicate FilesIntact(tables: map<string, TableMetadata>, parts: map<PartKey, Rows>) {
    forall id, v | id in tables && v in tables[id].versions && PartOf(v.versionId).Some? ::
      Key(id, v) in parts && |parts[Key(id, v)]| == v.rowCount
  }

  /** `t` as it was when only its first `n` versions were recorded. */
  function Earlier(t: TableMetadata, n: nat): TableMetadata
    requires n <= |t.versions|
  {
    t.(versions := t.versions[..n])
  }

  /** The file of this directory holds the table as it was with its first `n` versions. */
  predicate LagsAt(meta: map<Location, string>, tables: map<string, TableMetadata>, at: Location, id: string, n: nat) {
    && at in meta && id in tables && Dir(id) == at && n <= |tables[id].versions|
    && meta[at] == PrintTable(Earlier(tables[id], n))
  }

  /** Each metadata file holds an earlier state of its table. */
  ghost predicate DiskLags(meta: map<Location, string>, tables: map<string, TableMetadata>) {
    forall at | at in meta :: exists id, n: nat :: LagsAt(meta, tables, at, id, n)
  }

  ghost predicate Unused(tables: map<string, TableMetadata>, part: int64) {
    forall id, v | id in tables && v in tables[id].versions :: PartOf(v.versionId) != Some(part)
  }

  ghost predicate PhaseOk(s: Store) {
    match s.phase
    case Idle => true
    case Taken(id, part, rows) =>
      id in s.tables && 1 <= part < s.nextPart && Unused(s.tables, part) && |rows| <= INT64_MAX
    case Written(id, part, rows) =>
      && id in s.tables && 1 <= part < s.nextPart && Unused(s.tables, part) && |rows| <= INT64_MAX
      && (Dir(id), part as int) in s.parts && s.parts[(Dir(id), part as int)] == rows
    case Flushing(todo) => todo <= s.tables.Keys
  }

  ghost predicate Inv(s: Store) {
    && s.nextPart >= 1
    && TablesOk(s.tables, s.nextPart) && Apart(s.tables.Keys)
    && DistinctParts(s.tables)
    && FilesIntact(s.tables, s.parts)
    && DiskLags(s.meta, s.tables)
    && PhaseOk(s)
  }

  // ---------------------------------------------------------------- reading a table back

  lemma {:induction false} NestRepeats(vs: seq<VersionMeta>, id: string, next: int64)
    requires Balanced(id) && forall v | v in vs :: RecordedOk(v, id, next)
    ensures Balanced(VersionStrings(vs))
  {
    if vs != [] {
      var v, rest := vs[0], VersionStrings(vs[1..]);
      assert v in vs;
      NestRepeats(vs[1..], id, next);
      NestPlain(v.schemaHash, 1);
      NestConcat(v.schemaHash, rest, 1);
      NestConcat(v.tableId, v.schemaHash + rest, 1);
      NestPlain(v.versionId, 1);
      NestConcat(v.versionId, v.tableId + (v.schemaHash + rest), 1);
    }
  }

  lemma EarlierRoundTrip(t: TableMetadata, id: string, next: int64, n: nat)
    requires TableOk(t, id, next) && n <= |t.versions|
    ensures ParseTable(PrintTable(Earlier(t, n))) == Some(Earlier(t, n))
  {
    NestRepeats(t.versions[..n], id, next);
    TableRoundTrip(Earlier(t, n));
  }

  lemma PrintNotEmpty(t: TableMetadata)
    ensures PrintTable(t) != ""
  {
  }

  // ---------------------------------------------------------------- steps keep the invariant

  /** The table to be registered is storable, and its directory is no other table's. */
  predicate Registrable(s: Store, id: string) {
    Storable(id) && forall other | other in s.tables :: Dir(other) != Dir(id)
  }

  lemma RegisterKeeps(s: Store, e: Event, s': Store)
    requires Inv(s) && e.Register? && Registrable(s, e.id) && Step(s, e, s')
    ensures Inv(s')
  {
    hide Dir, PrintTable, PartOf, SchemaHash, Storable;
    assert DiskLags(s'.meta, s'.tables) by {
      forall at | at in s'.meta ensures exists id, n: nat :: LagsAt(s'.meta, s'.tables, at, id, n) {
        var id, n: nat :| LagsAt(s.meta, s.tables, at, id, n);
        assert LagsAt(s'.meta, s'.tables, at, id, n);
      }
    }
    hide DiskLags, LagsAt;
  }

  lemma BeginKeeps(s: Store, e: Event, s': Store)
    requires Inv(s) && e.Begin? && Step(s, e, s')
    ensures Inv(s')
  {
    hide Dir, PrintTable;
  }

  lemma FileKeeps(s: Store, e: Event, s': Store)
    requires Inv(s) && (e.Tear? || e.WritePart?) && Step(s, e, s')
    ensures Inv(s')
  {
    hide Dir, PrintTable;
  }

  lemma RecordKeeps(s: Store, e: Event, s': Store)
    requires Inv(s) && e.Record? && Step(s, e, s')
    ensures Inv(s')
  {
    hide PrintTable, PartOf, VersionId, Storable, NoBrackets, Dir;
    var id, t := s.phase.id, s.tables[s.phase.id];
    var v := NewVersion(t, id, s.phase.part, s.phase.rows, e.now);
    PartOfVersionId(s.phase.part);
    assert RecordedOk(v, id, s.nextPart);
    assert DistinctParts(s'.tables) by {
      assert forall i | 0 <= i < |t.versions| :: s'.tables[id].versions[i] == t.versions[i] && t.versions[i] in t.versions;
      assert forall id | id in s.tables :: forall i | 0 <= i < |s.tables[id].versions| ::
          s.tables[id].versions[i] in s.tables[id].versions;
    }
    assert DiskLags(s'.meta, s'.tables) by { RecordLags(s, e, s'); }
    assert FilesIntact(s'.tables, s'.parts);
    assert s'.tables.Keys == s.tables.Keys;
  }

  lemma RecordLags(s: Store, e: Event, s': Store)
    requires Inv(s) && e.Record? && Step(s, e, s')
    ensures DiskLags(s'.meta, s'.tables)
  {
    hide PrintTable, TablesOk, DistinctParts, FilesIntact, Dir, Apart;
    forall at | at in s'.meta ensures exists id, n: nat :: LagsAt(s'.meta, s'.tables, at, id, n) {
      var id, n: nat :| LagsAt(s.meta, s.tables, at, id, n);
      assert s'.tables[id].versions[..n] == s.tables[id].versions[..n];
      assert Earlier(s'.tables[id], n) == Earlier(s.tables[id], n);
      assert LagsAt(s'.meta, s'.tables, at, id, n);
    }
  }

  lemma FlushKeeps(s: Store, e: Event, s': Store)
    requires Inv(s) && e.FlushOne? && Step(s, e, s')
    ensures Inv(s')
  {
    hide PrintTable, Dir, TablesOk, DistinctParts, FilesIntact, Apart;
    var t := s.tables[e.id];
    assert Earlier(t, |t.versions|) == t by { assert t.versions[..|t.versions|] == t.versions; }
    forall at | at in s'.meta ensures exists id, n: nat :: LagsAt(s'.meta, s'.tables, at, id, n) {
      if at == Dir(e.id) {
        assert LagsAt(s'.meta, s'.tables, at, e.id, |t.versions|);
      } else {
        var id, n: nat :| LagsAt(s.meta, s.tables, at, id, n);
        assert LagsAt(s'.meta, s'.tables, at, id, n);
      }
    }
  }

  /** The file of a directory, in a state that keeps the invariant. */
  lemma FileIsEarlier(s: Store, at: Location) returns (id: string, n: nat)
    requires Inv(s) && at in s.meta
    ensures LagsAt(s.meta, s.tables, at, id, n) && Finds(s.meta, at, Earlier(s.tables[id], n))
  {
    hide PrintTable, ParseTable, DistinctParts, FilesIntact, Dir;
    id, n :| LagsAt(s.meta, s.tables, at, id, n);
    EarlierRoundTrip(s.tables[id], id, s.nextPart, n);
    PrintNotEmpty(Earlier(s.tables[id], n));
    assert TableOk(s.tables[id], id, s.nextPart);
  }

  /** Reopening finds each table in the state its metadata file holds. */
  lemma ReopenReads(s: Store, s': Store)
    requires Inv(s) && Step(s, Reopen, s')
    ensures forall at | at in s.meta :: exists id :: id in s'.tables && Dir(id) == at
    ensures forall id | id in s'.tables :: exists n: nat :: ReadBack(s, s', id, n)
  {
    hide Inv, Step, Dir, ReadBack;
    forall at | at in s.meta ensures exists id :: id in s'.tables && Dir(id) == at {
      var id := ReopenFinds(s, s', at);
    }
    forall id | id in s'.tables ensures exists n: nat :: ReadBack(s, s', id, n) {
      var n := ReopenReadsOne(s, s', id);
    }
  }

  /** The table is found as it was with its first `n` versions. */
  predicate ReadBack(s: Store, s': Store, id: string, n: nat)
    requires id in s'.tables
  {
    LagsAt(s.meta, s.tables, Dir(id), id, n) && s'.tables[id] == Earlier(s.tables[id], n)
  }

  lemma ReopenFinds(s: Store, s': Store, at: Location) returns (id: string)
    requires Inv(s) && Step(s, Reopen, s') && at in s.meta
    ensures id in s'.tables && Dir(id) == at
  {
    hide Inv, PrintTable, ParseTable, PartOf, Dir, FollowsAllParts, Earlier;
    var n;
    id, n := FileIsEarlier(s, at);
    IdOf(s, id, n);
  }

  lemma ReopenReadsOne(s: Store, s': Store, id: string) returns (n: nat)
    requires Inv(s) && Step(s, Reopen, s') && id in s'.tables
    ensures ReadBack(s, s', id, n)
  {
    hide Inv, PrintTable, ParseTable, PartOf, Dir, FollowsAllParts, Earlier;
    var at :| Finds(s.meta, at, s'.tables[id]);
    var id';
    id', n := FileIsEarlier(s, at);
    IdOf(s, id', n);
  }

  lemma IdOf(s: Store, id: string, n: nat)
    requires Inv(s) && id in s.tables && n <= |s.tables[id].versions|
    ensures Earlier(s.tables[id], n).tableId == id
  {
    assert TableOk(s.tables[id], id, s.nextPart);
  }

  lemma ReopenLags(s: Store, s': Store)
    requires Inv(s) && Step(s, Reopen, s')
    ensures DiskLags(s'.meta, s'.tables)
  {
    hide PrintTable, ParseTable, TablesOk, DistinctParts, FilesIntact, Dir, Loaded, FollowsAllParts;
    ReopenReads(s, s');
    forall at | at in s'.meta ensures exists id, n: nat :: LagsAt(s'.meta, s'.tables, at, id, n) {
      var id :| id in s'.tables && Dir(id) == at;
      var n: nat :| ReadBack(s, s', id, n);
      var t := s'.tables[id];
      assert Earlier(t, |t.versions|) == t by { assert t.versions[..|t.versions|] == t.versions; }
      assert LagsAt(s'.meta, s'.tables, at, id, |t.versions|);
    }
  }

  lemma ReopenPrefixes(s: Store, s': Store)
    requires Inv(s) && Step(s, Reopen, s')
    ensures TablesOk(s'.tables, s'.nextPart) && Apart(s'.tables.Keys)
    ensures forall id | id in s'.tables :: id in s.tables && s'.tables[id].versions <= s.tables[id].versions
  {
    hide Step, TableOk, DistinctParts, FilesIntact, DiskLags, Dir;
    forall id | id in s'.tables
      ensures id in s.tables && TableOk(s'.tables[id], id, s'.nextPart) && s'.tables[id].versions <= s.tables[id].versions
    {
      ReopenPrefix(s, s', id);
    }
  }

  lemma ReopenPrefix(s: Store, s': Store, id: string)
    requires Inv(s) && Step(s, Reopen, s') && id in s'.tables
    ensures id in s.tables && TableOk(s'.tables[id], id, s'.nextPart) && s'.tables[id].versions <= s.tables[id].versions
  {
    hide PrintTable, ParseTable, Storable, PartOf, NoBrackets, DistinctParts, FilesIntact, DiskLags, Dir, Apart;
    var n := ReopenReadsOne(s, s', id);
    var at :| Finds(s.meta, at, s'.tables[id]);
    var t, t' := s.tables[id], s'.tables[id];
    assert TableOk(t, id, s.nextPart);
    forall v | v in t'.versions ensures RecordedOk(v, id, s'.nextPart) {
      assert v in t.versions && RecordedOk(v, id, s.nextPart);
    }
  }

  lemma ReopenKeeps(s: Store, s': Store)
    requires Inv(s) && Step(s, Reopen, s')
    ensures Inv(s')
  {
    hide PrintTable, ParseTable, PartOf, TablesOk, DiskLags, Dir, Apart, Loaded;
    ReopenPrefixes(s, s');
    ReopenLags(s, s');
    assert forall id | id in s'.tables :: forall i | 0 <= i < |s'.tables[id].versions| ::
        i < |s.tables[id].versions| && s'.tables[id].versions[i] == s.tables[id].versions[i];
    assert DistinctParts(s'.tables);
    assert FilesIntact(s'.tables, s'.parts) by {
      assert forall id, v | id in s'.tables && v in s'.tables[id].versions :: v in s.tables[id].versions;
    }
  }

  lemma StepKeeps(s: Store, e: Event, s': Store)
    requires Inv(s) && Step(s, e, s') && (e.Register? ==> Registrable(s, e.id))
    ensures Inv(s')
  {
    hide Registrable, PrintTable, Dir;
    match e
    case Register(_, _, _) => RegisterKeeps(s, e, s');
    case Begin(_, _) => BeginKeeps(s, e, s');
    case Tear(_) => FileKeeps(s, e, s');
    case WritePart => FileKeeps(s, e, s');
    case GiveUp =>
    case Record(_) => RecordKeeps(s, e, s');
    case FlushOne(_) => FlushKeeps(s, e, s');
    case Reopen => ReopenKeeps(s, s');
  }

  /** The ids that a run registers. */
  function Registered(events: seq<Event>): set<string> {
    set e | e in events && e.Register? :: e.id
  }

  /** A run from the empty store that registers only these ids. */
  ghost predicate RunOver(states: seq<Store>, events: seq<Event>, ids: set<string>) {
    Run(states, events) && states[0] == EMPTY && Registered(events) <= ids
  }

  lemma StepAddsRegistered(s: Store, e: Event, s': Store)
    requires Inv(s) && Step(s, e, s')
    ensures s'.tables.Keys <= s.tables.Keys + if e.Register? then {e.id} else {}
  {
    hide Inv, PrintTable, Dir;
    if e == Reopen {
      hide Step;
      ReopenPrefixes(s, s');
    }
  }

  lemma RegistersOne(ids: set<string>, s: Store, id: string)
    requires SafeIds(ids) && s.tables.Keys <= ids && id in ids && id !in s.tables
    ensures Registrable(s, id)
  {
    hide Dir, Storable;
  }

  /** Over every run with crashes anywhere that registers only safe ids, recorded versions have
      distinct part numbers below `nextPart`, and each has its complete file. */
  lemma {:induction false} RunKeeps(states: seq<Store>, events: seq<Event>, ids: set<string>, i: nat)
    requires RunOver(states, events, ids) && SafeIds(ids) && i < |states|
    ensures Inv(states[i]) && states[i].tables.Keys <= ids
  {
    if i > 0 {
      hide Inv, SafeIds, Registrable;
      RunKeeps(states, events, ids, i - 1);
      var s, e, s' := states[i - 1], events[i - 1], states[i];
      assert Step(s, e, s') && e in events;
      assert e.Register? ==> e.id in Registered(events);
      if e.Register? { RegistersOne(ids, s, e.id); }
      StepKeeps(s, e, s');
      StepAddsRegistered(s, e, s');
    }
  }

  // ---------------------------------------------------------------- what is on disk stays

  /** The metadata file of a directory lists the version `v`. */
  ghost predicate OnDisk(s: Store, at: Location, v: VersionMeta) {
    at in s.meta && ParseTable(s.meta[at]).Some? && v in ParseTable(s.meta[at]).value.versions
  }

  ghost predicate SameFile(s: Store, s': Store, at: Location, v: VersionMeta) {
    && PartOf(v.versionId).Some?
    && PartFile(at, v) in s.parts && PartFile(at, v) in s'.parts
    && s'.parts[PartFile(at, v)] == s.parts[PartFile(at, v)] && |s.parts[PartFile(at, v)]| == v.rowCount
  }

  /** No step writes to the file of a recorded version. */
  lemma StepKeepsFile(s: Store, e: Event, s': Store, id: string, v: VersionMeta)
    requires Inv(s) && Step(s, e, s')
    requires id in s.tables && v in s.tables[id].versions
    ensures SameFile(s, s', Dir(id), v)
  {
    hide PrintTable, Dir;
    assert RecordedOk(v, id, s.nextPart);
  }

  lemma StepKeepsOnDisk(s: Store, e: Event, s': Store, at: Location, v: VersionMeta)
    requires Inv(s) && Inv(s') && Step(s, e, s') && OnDisk(s, at, v)
    ensures OnDisk(s', at, v) && SameFile(s, s', at, v)
  {
    hide PrintTable, ParseTable, Inv, SameFile, PartOf, Dir;
    var id, n := FileIsEarlier(s, at);
    assert v in s.tables[id].versions;
    StepKeepsFile(s, e, s', id, v);
    if e.FlushOne? && Dir(e.id) == at {
      SameId(s, id, e.id);
      FlushWrites(s, e, s');
    }
  }

  lemma SameId(s: Store, a: string, b: string)
    requires Inv(s) && a in s.tables && b in s.tables && Dir(a) == Dir(b)
    ensures a == b
  {
    hide Dir;
  }

  lemma FlushWrites(s: Store, e: Event, s': Store)
    requires Inv(s) && e.FlushOne? && Step(s, e, s')
    ensures Dir(e.id) in s'.meta && ParseTable(s'.meta[Dir(e.id)]) == Some(s.tables[e.id])
  {
    hide PrintTable, ParseTable, Dir;
    var t := s.tables[e.id];
    assert Earlier(t, |t.versions|) == t by { assert t.versions[..|t.versions|] == t.versions; }
    EarlierRoundTrip(t, e.id, s.nextPart, |t.versions|);
  }

  /** A version on disk stays on disk, with the same file, over any crashes that follow. */
  lemma {:induction false} Durable(states: seq<Store>, events: seq<Event>, ids: set<string>, i: nat, j: nat,
                                   at: Location, v: VersionMeta)
    requires RunOver(states, events, ids) && SafeIds(ids)
    requires i <= j < |states| && OnDisk(states[i], at, v)
    ensures OnDisk(states[j], at, v) && SameFile(states[i], states[j], at, v)
    decreases j
  {
    hide Inv, Step, OnDisk, PartOf, SafeIds;
    RunKeeps(states, events, ids, j);
    if i == j {
      OnDiskHasFile(states[i], at, v);
    } else {
      Durable(states, events, ids, i, j - 1, at, v);
      RunKeeps(states, events, ids, j - 1);
      StepKeepsOnDisk(states[j - 1], events[j - 1], states[j], at, v);
    }
  }

  lemma OnDiskHasFile(s: Store, at: Location, v: VersionMeta)
    requires Inv(s) && OnDisk(s, at, v)
    ensures SameFile(s, s, at, v)
  {
    hide PrintTable, ParseTable, PartOf, Dir;
    var id, n := FileIsEarlier(s, at);
    assert v in s.tables[id].versions && RecordedOk(v, id, s.nextPart);
    assert Key(id, v) == PartFile(at, v);
  }

  // ---------------------------------------------------------------- scans after complete appends

  ghost function AllKeys(tables: map<string, TableMetadata>): set<PartKey> {
    set id, v | id in tables && v in tables[id].versions && PartOf(v.versionId).Some? :: Key(id, v)
  }

  ghost predicate Synced(s: Store, ids: set<string>) {
    forall id | id in ids && id in s.tables :: Dir(id) in s.meta && s.meta[Dir(id)] == PrintTable(s.tables[id])
  }

  /** The part files are those of the recorded versions, and of the append under way. */
  ghost predicate Exact(s: Store) {
    match s.phase
    case Idle => s.parts.Keys == AllKeys(s.tables) && Synced(s, s.tables.Keys)
    case Taken(id, part, _) =>
      && AllKeys(s.tables) <= s.parts.Keys <= AllKeys(s.tables) + {(Dir(id), part as int)}
      && Synced(s, s.tables.Keys)
    case Written(id, part, _) =>
      s.parts.Keys == AllKeys(s.tables) + {(Dir(id), part as int)} && Synced(s, s.tables.Keys)
    case Flushing(todo) => s.parts.Keys == AllKeys(s.tables) && Synced(s, s.tables.Keys - todo)
  }

  /** Nothing gives up, and the store is reopened only between operations. */
  ghost predicate Orderly(s: Store, e: Event) { e != GiveUp && (e == Reopen ==> s.phase == Idle) }

  lemma AllKeysAdds(tables: map<string, TableMetadata>, id: string, v: VersionMeta)
    requires id in tables && PartOf(v.versionId).Some?
    ensures var t := tables[id];
            AllKeys(tables[id := t.(versions := t.versions + [v])]) == AllKeys(tables) + {Key(id, v)}
  {
    hide PartOf, Dir;
    var t := tables[id];
    var after := tables[id := t.(versions := t.versions + [v])];
    assert forall w :: w in after[id].versions <==> w in t.versions || w == v;
  }

  lemma RecordExact(s: Store, e: Event, s': Store)
    requires Exact(s) && e.Record? && Step(s, e, s')
    ensures Exact(s')
  {
    hide PrintTable, PartOf, AllKeys, VersionId, Dir;
    var id := s.phase.id;
    var v := NewVersion(s.tables[id], id, s.phase.part, s.phase.rows, e.now);
    PartOfVersionId(s.phase.part);
    AllKeysAdds(s.tables, id, v);
  }

  lemma RegisterExact(s: Store, e: Event, s': Store)
    requires Exact(s) && e.Register? && Step(s, e, s')
    ensures Exact(s')
  {
    hide PrintTable, PartOf, SchemaHash, Dir;
    assert forall id | id in s'.tables && id != e.id :: s'.tables[id] == s.tables[id];
    assert AllKeys(s'.tables) == AllKeys(s.tables);
  }

  lemma ReopenExact(s: Store, s': Store)
    requires Inv(s) && Exact(s) && s.phase == Idle && Step(s, Reopen, s')
    ensures Exact(s') && s'.tables == s.tables
  {
    hide PrintTable, ParseTable, AllKeys, Inv, Loaded, FollowsAllParts, Dir;
    forall id | id in s.tables ensures id in s'.tables {
      ReopenKeepsTable(s, s', id);
    }
    forall id | id in s'.tables ensures id in s.tables && s'.tables[id] == s.tables[id] {
      ReopenSame(s, s', id);
    }
    assert s'.tables.Keys == s.tables.Keys;
    assert s'.tables == s.tables;
  }

  lemma ReopenKeepsTable(s: Store, s': Store, id: string)
    requires Inv(s) && Exact(s) && s.phase == Idle && Step(s, Reopen, s') && id in s.tables
    ensures id in s'.tables
  {
    hide PrintTable, AllKeys, Inv, Step, Dir;
    var other := ReopenFinds(s, s', Dir(id));
    var n := ReopenReadsOne(s, s', other);
    SameId(s, id, other);
  }

  lemma ReopenSame(s: Store, s': Store, id: string)
    requires Inv(s) && Exact(s) && s.phase == Idle && Step(s, Reopen, s') && id in s'.tables
    ensures id in s.tables && s'.tables[id] == s.tables[id]
  {
    hide PrintTable, ParseTable, AllKeys, DistinctParts, FilesIntact, DiskLags, TableOk, Dir, Step;
    var n := ReopenReadsOne(s, s', id);
    var t := s.tables[id];
    assert Earlier(t, |t.versions|) == t by { assert t.versions[..|t.versions|] == t.versions; }
    EarlierRoundTrip(t, id, s.nextPart, |t.versions|);
    EarlierRoundTrip(t, id, s.nextPart, n);
  }

  lemma FileExact(s: Store, e: Event, s': Store)
    requires Exact(s) && (e.Begin? || e.Tear? || e.WritePart?) && Step(s, e, s')
    ensures Exact(s')
  {
    hide PrintTable, AllKeys, Dir;
  }

  lemma FlushExact(s: Store, e: Event, s': Store)
    requires Inv(s) && Exact(s) && e.FlushOne? && Step(s, e, s')
    ensures Exact(s')
  {
    hide PrintTable, AllKeys, Dir, TablesOk, DistinctParts, FilesIntact, DiskLags;
    assert Synced(s', s.tables.Keys - (s.phase.todo - {e.id}));
    assert s.tables.Keys - {} == s.tables.Keys;
  }

  lemma StepKeepsExact(s: Store, e: Event, s': Store)
    requires Inv(s) && Exact(s) && Orderly(s, e) && Step(s, e, s')
    ensures Exact(s')
  {
    hide Exact, Inv, Step;
    match e
    case Register(_, _, _) => RegisterExact(s, e, s');
    case Begin(_, _) => FileExact(s, e, s');
    case Tear(_) => FileExact(s, e, s');
    case WritePart => FileExact(s, e, s');
    case GiveUp =>
    case Record(_) => RecordExact(s, e, s');
    case FlushOne(_) => FlushExact(s, e, s');
    case Reopen => ReopenExact(s, s');
  }

  lemma {:induction false} RunKeepsExact(states: seq<Store>, events: seq<Event>, ids: set<string>, i: nat)
    requires RunOver(states, events, ids) && SafeIds(ids) && i < |states|
    requires forall k | 0 <= k < |events| :: Orderly(states[k], events[k])
    ensures Exact(states[i])
  {
    hide Inv, Step, Orderly, SafeIds;
    if i > 0 {
      hide Exact;
      RunKeepsExact(states, events, ids, i - 1);
      RunKeeps(states, events, ids, i - 1);
      StepKeepsExact(states[i - 1], events[i - 1], states[i]);
    } else {
      assert AllKeys(EMPTY.tables) == {};
    }
  }

  /** The rows of a scan: the part files of the table, in whatever order the directory lists them. */
  function Scanned(s: Store, id: string, order: seq<int>): Rows
    requires forall i | 0 <= i < |order| :: (Dir(id), order[i]) in s.parts
  {
    if order == [] then [] else s.parts[(Dir(id), order[0])] + Scanned(s, id, order[1..])
  }

  ghost predicate Lists(s: Store, id: string, order: seq<int>) {
    && (forall i | 0 <= i < |order| :: (Dir(id), order[i]) in s.parts)
    && (forall p | (Dir(id), p) in s.parts :: p in order)
    && NoRepeats(order)
  }

  function RowTotal(vs: seq<VersionMeta>): int {
    if vs == [] then 0 else vs[0].rowCount + RowTotal(vs[1..])
  }

  function Sum(f: map<int, int>, ps: seq<int>): int
    requires forall i | 0 <= i < |ps| :: ps[i] in f
  {
    if ps == [] then 0 else f[ps[0]] + Sum(f, ps[1..])
  }

  predicate NoRepeats(ps: seq<int>) { forall i, j | 0 <= i < j < |ps| :: ps[i] != ps[j] }

  lemma {:induction false} SumWithout(f: map<int, int>, ps: seq<int>, k: nat)
    requires k < |ps| && forall i | 0 <= i < |ps| :: ps[i] in f
    ensures Sum(f, ps) == f[ps[k]] + Sum(f, ps[..k] + ps[k + 1..])
  {
    var rest := ps[..k] + ps[k + 1..];
    if k == 0 {
      assert rest == ps[1..];
    } else {
      SumWithout(f, ps[1..], k - 1);
      assert rest[1..] == ps[1..][..k - 1] + ps[1..][k..];
    }
  }

  lemma {:induction false} SameSum(f: map<int, int>, ps: seq<int>, qs: seq<int>)
    requires NoRepeats(ps) && NoRepeats(qs)
    requires (forall p | p in ps :: p in qs) && (forall p | p in qs :: p in ps)
    requires forall i | 0 <= i < |ps| :: ps[i] in f
    requires forall i | 0 <= i < |qs| :: qs[i] in f
    ensures Sum(f, ps) == Sum(f, qs)
  {
    if ps == [] {
      var q := if |qs| > 0 then qs[0] else 0;
      assert q in qs ==> q in ps;
    } else {
      var k :| 0 <= k < |qs| && qs[k] == ps[0] by { assert ps[0] in ps; }
      var rest := qs[..k] + qs[k + 1..];
      SumWithout(f, qs, k);
      forall p | p in ps[1..] ensures p in rest {
        var i :| 0 <= i < |qs| && qs[i] == p by { assert p in ps; }
        assert i != k;
        assert rest[if i < k then i else i - 1] == p;
      }
      forall p | p in rest ensures p in ps[1..] {
        assert p in qs && p in ps && p != ps[0];
      }
      SameSum(f, ps[1..], rest);
    }
  }

  function PartNumbers(vs: seq<VersionMeta>): seq<int>
    requires forall v | v in vs :: PartOf(v.versionId).Some?
  {
    seq(|vs|, i requires 0 <= i < |vs| => assert vs[i] in vs; PartOf(vs[i].versionId).value as int)
  }

  lemma {:induction false} RowTotalIsSum(f: map<int, int>, vs: seq<VersionMeta>)
    requires forall v | v in vs :: PartOf(v.versionId).Some?
    requires forall v | v in vs :: PartOf(v.versionId).value in f && f[PartOf(v.versionId).value] == v.rowCount
    requires forall i | 0 <= i < |PartNumbers(vs)| :: PartNumbers(vs)[i] in f
    ensures Sum(f, PartNumbers(vs)) == RowTotal(vs)
  {
    if vs != [] {
      assert vs[0] in vs;
      assert PartNumbers(vs)[1..] == PartNumbers(vs[1..]);
      RowTotalIsSum(f, vs[1..]);
    }
  }

  lemma {:induction false} ScannedIsSum(s: Store, id: string, order: seq<int>, f: map<int, int>)
    requires forall i | 0 <= i < |order| :: (Dir(id), order[i]) in s.parts
    requires forall i | 0 <= i < |order| :: order[i] in f && f[order[i]] == |s.parts[(Dir(id), order[i])]|
    ensures |Scanned(s, id, order)| == Sum(f, order)
  {
    if order != [] {
      ScannedIsSum(s, id, order[1..], f);
    }
  }

  /** The listed part numbers that no version of these records. */
  function Orphans(order: seq<int>, recorded: seq<int>): (ps: seq<int>)
    ensures forall p :: p in ps <==> p in order && p !in recorded
  {
    if order == [] then []
    else if order[0] in recorded then Orphans(order[1..], recorded)
    else [order[0]] + Orphans(order[1..], recorded)
  }

  /** The listed part numbers that some version records. */
  function Adopted(order: seq<int>, recorded: seq<int>): (ps: seq<int>)
    ensures forall p :: p in ps <==> p in order && p in recorded
  {
    if order == [] then []
    else if order[0] in recorded then [order[0]] + Adopted(order[1..], recorded)
    else Adopted(order[1..], recorded)
  }

  lemma {:induction false} AdoptedDiffer(order: seq<int>, recorded: seq<int>)
    requires NoRepeats(order)
    ensures NoRepeats(Adopted(order, recorded))
  {
    if order != [] {
      AdoptedDiffer(order[1..], recorded);
      assert order[0] !in order[1..];
    }
  }

  lemma {:induction false} SumSplits(f: map<int, int>, order: seq<int>, recorded: seq<int>)
    requires forall i | 0 <= i < |order| :: order[i] in f
    ensures (forall i | 0 <= i < |Adopted(order, recorded)| :: Adopted(order, recorded)[i] in f)
    ensures (forall i | 0 <= i < |Orphans(order, recorded)| :: Orphans(order, recorded)[i] in f)
    ensures Sum(f, order) == Sum(f, Adopted(order, recorded)) + Sum(f, Orphans(order, recorded))
  {
    if order != [] {
      SumSplits(f, order[1..], recorded);
    }
  }

  lemma NumbersDiffer(s: Store, id: string)
    requires Inv(s) && id in s.tables && forall v | v in s.tables[id].versions :: PartOf(v.versionId).Some?
    ensures NoRepeats(PartNumbers(s.tables[id].versions))
  {
    hide PartOf, TablesOk, FilesIntact, DiskLags, Dir, Apart;
    var vs := s.tables[id].versions;
    forall i, j | 0 <= i < j < |vs| ensures PartNumbers(vs)[i] != PartNumbers(vs)[j] {
      assert PartOf(vs[i].versionId) != PartOf(vs[j].versionId);
      assert vs[i] in vs && vs[j] in vs;
    }
  }

  /** The recorded part files in the directory of a table are those of its versions. */
  lemma KeysOfTable(s: Store, id: string, p: int)
    requires Inv(s) && id in s.tables && forall v | v in s.tables[id].versions :: PartOf(v.versionId).Some?
    ensures (Dir(id), p) in AllKeys(s.tables) <==> p in PartNumbers(s.tables[id].versions)
  {
    hide PartOf, TablesOk, FilesIntact, DiskLags, Dir, DistinctParts;
    var vs := s.tables[id].versions;
    var ps := PartNumbers(vs);
    if (Dir(id), p) in AllKeys(s.tables) {
      var id', v :| id' in s.tables && v in s.tables[id'].versions && PartOf(v.versionId).Some? && Key(id', v) == (Dir(id), p);
      assert id' == id;
      var i :| 0 <= i < |vs| && vs[i] == v;
      assert ps[i] == p;
    }
    if p in ps {
      var i :| 0 <= i < |ps| && ps[i] == p;
      assert vs[i] in vs && Key(id, vs[i]) in AllKeys(s.tables);
    }
  }

  /** At any time a scan returns as many rows as the recorded versions of the table count together
      and, on top of them, the rows of the part files that no version records. */
  lemma ScanExceeds(s: Store, id: string, order: seq<int>)
    requires Inv(s) && id in s.tables && Lists(s, id, order)
    requires forall v | v in s.tables[id].versions :: PartOf(v.versionId).Some?
    ensures var vs := s.tables[id].versions;
            var orphans := Orphans(order, PartNumbers(vs));
            (forall i | 0 <= i < |orphans| :: (Dir(id), orphans[i]) in s.parts) &&
            |Scanned(s, id, order)| == RowTotal(vs) + |Scanned(s, id, orphans)|
  {
    hide Inv, PartOf, Sum, Scanned, RowTotal, Dir;
    var vs, f := s.tables[id].versions, RowCounts(s, id);
    var ps := PartNumbers(vs);
    var adopted, orphans := Adopted(order, ps), Orphans(order, ps);
    RecordedFiles(s, id);
    NumbersDiffer(s, id);
    AdoptedDiffer(order, ps);
    forall p | p in ps ensures p in order {
      var i :| 0 <= i < |ps| && ps[i] == p;
      assert vs[i] in vs && Key(id, vs[i]) in s.parts;
    }
    forall p | p in orphans ensures (Dir(id), p) in s.parts { assert p in order; }
    ScannedIsSum(s, id, order, f);
    ScannedIsSum(s, id, orphans, f);
    SumSplits(f, order, ps);
    RowTotalIsSum(f, vs);
    SameSum(f, adopted, ps);
  }

  /** When every append completed, a scan between operations returns as many rows as the recorded
      versions of the table count together, whatever the order of the directory. */
  lemma ScanCountsRows(states: seq<Store>, events: seq<Event>, ids: set<string>, i: nat, id: string, order: seq<int>)
    requires RunOver(states, events, ids) && SafeIds(ids) && i < |states|
    requires forall k | 0 <= k < |events| :: Orderly(states[k], events[k])
    requires states[i].phase == Idle && id in states[i].tables && Lists(states[i], id, order)
    ensures |Scanned(states[i], id, order)| == RowTotal(states[i].tables[id].versions)
  {
    hide Inv, Exact, PartOf, Scanned, RowTotal, Dir, RunOver;
    RunKeeps(states, events, ids, i);
    RunKeepsExact(states, events, ids, i);
    RecordedFiles(states[i], id);
    ScanExceeds(states[i], id, order);
    NoOrphans(states[i], id, order);
    NothingScanned(states[i], id);
  }

  lemma NothingScanned(s: Store, id: string)
    ensures Scanned(s, id, []) == []
  {
  }

  lemma NoOrphans(s: Store, id: string, order: seq<int>)
    requires Inv(s) && Exact(s) && s.phase == Idle && id in s.tables && Lists(s, id, order)
    requires forall v | v in s.tables[id].versions :: PartOf(v.versionId).Some?
    ensures Orphans(order, PartNumbers(s.tables[id].versions)) == []
  {
    hide PartOf, Synced, Dir, Inv, AllKeys;
    var ps := PartNumbers(s.tables[id].versions);
    var orphans := Orphans(order, ps);
    if orphans != [] {
      var p := orphans[0];
      assert p in order;
      assert (Dir(id), p) in s.parts by {
        var i :| 0 <= i < |order| && order[i] == p;
      }
      KeysOfTable(s, id, p);
      assert false;
    }
  }

  function RowCounts(s: Store, id: string): (f: map<int, int>)
    ensures forall p | (Dir(id), p) in s.parts :: p in f && f[p] == |s.parts[(Dir(id), p)]|
  {
    hide Dir;
    var f := map k | k in s.parts && k.0 == Dir(id) :: k.1 := |s.parts[k]|;
    assert forall p | (Dir(id), p) in s.parts :: (Dir(id), p).1 == p && p in f;
    f
  }

  lemma RecordedFiles(s: Store, id: string)
    requires Inv(s) && id in s.tables
    ensures forall v | v in s.tables[id].versions ::
              PartOf(v.versionId).Some? && Key(id, v) in s.parts && |s.parts[Key(id, v)]| == v.rowCount
  {
    hide PartOf, Dir;
    assert forall v | v in s.tables[id].versions :: RecordedOk(v, id, s.nextPart);
  }
}
