/** The table store in the form the program has it: an object over a disk, with loops over tables
    and versions. Failing writes are inputs. Each operation is proved to be a run of the machine in
    `ObjectStore`, so what holds over runs holds of every sequence of calls. */
module ObjectStoreBackend {
  import opened Common
  import opened Paths
  import opened MetadataText
  import opened MetadataParser
  import opened ObjectStore

  /** Some run of `events` leads from `s` to `s'`. */
  ghost predicate Reaches(s: Store, events: seq<Event>, s': Store)
    decreases |events|
  {
    if events == [] then s == s'
    else
      var n := |events| - 1;
      exists m :: Reaches(s, events[..n], m) && Step(m, events[n], s')
  }

  lemma {:induction false} ReachesRun(s: Store, events: seq<Event>, s': Store) returns (states: seq<Store>)
    requires Reaches(s, events, s')
    ensures Run(states, events) && states[0] == s && states[|states| - 1] == s'
    decreases |events|
  {
    hide Step;
    if events == [] {
      states := [s];
    } else {
      var n := |events| - 1;
      var m :| Reaches(s, events[..n], m) && Step(m, events[n], s');
      var before := ReachesRun(s, events[..n], m);
      states := before + [s'];
      forall i | 0 <= i < |events| ensures Step(states[i], events[i], states[i + 1]) {
        if i < n { assert Step(before[i], events[..n][i], before[i + 1]); }
      }
    }
  }

  lemma Extend(s: Store, events: seq<Event>, m: Store, e: Event, s': Store)
    requires Reaches(s, events, m) && Step(m, e, s')
    ensures Reaches(s, events + [e], s')
  {
    hide Step;
    assert (events + [e])[..|events|] == events;
  }

  ghost predicate NoGiveUp(events: seq<Event>) { GiveUp !in events && Reopen !in events }

  // ---------------------------------------------------------------- reloading

  /** The largest part number recorded in `vs`, or 0. */
  function LargestPart(vs: seq<VersionMeta>): (m: int64)
    ensures m >= 0
    ensures forall v | v in vs && PartOf(v.versionId).Some? :: PartOf(v.versionId).value <= m
    ensures m == 0 || exists v :: v in vs && PartOf(v.versionId) == Some(m)
  {
    if vs == [] then 0
    else
      assert forall v :: v in vs <==> v in vs[..|vs| - 1] || v == vs[|vs| - 1];
      var m, part := LargestPart(vs[..|vs| - 1]), PartOf(vs[|vs| - 1].versionId);
      if part.Some? && part.value >= m then part.value else m
  }

  method MaxPart(vs: seq<VersionMeta>) returns (maxPart: int64)
    ensures maxPart == LargestPart(vs)
  {
    hide PartOf;
    maxPart := 0;
    for i := 0 to |vs|
      invariant maxPart == LargestPart(vs[..i])
    {
      assert vs[..i + 1][..i] == vs[..i];
      var part := PartOf(vs[i].versionId);
      if part.Some? && part.value >= maxPart {
        maxPart := part.value;
      }
    }
    assert vs[..|vs|] == vs;
  }

  /** The tables that the files of these directories give, read one after the other; an empty file
      gives none, and of two tables with one id the later stays. */
  function TablesFrom(meta: map<Location, string>, order: seq<Location>): map<string, TableMetadata>
    requires forall i | 0 <= i < |order| :: order[i] in meta
  {
    if order == [] then map[]
    else
      var tables, json := TablesFrom(meta, order[..|order| - 1]), meta[order[|order| - 1]];
      if json == "" || ParseTable(json) == None then tables
      else tables[ParseTable(json).value.tableId := ParseTable(json).value]
  }

  function NextFrom(meta: map<Location, string>, order: seq<Location>): (next: int)
    requires forall i | 0 <= i < |order| :: order[i] in meta
    ensures next >= 1
  {
    if order == [] then 1
    else
      var next, json := NextFrom(meta, order[..|order| - 1]), meta[order[|order| - 1]];
      if json == "" || ParseTable(json) == None then next
      else
        var m := LargestPart(ParseTable(json).value.versions);
        if m >= next then m + 1 else next
  }

  lemma OneMoreFile(meta: map<Location, string>, order: seq<Location>, i: nat)
    requires i < |order| && forall k | 0 <= k < |order| :: order[k] in meta
    ensures var json, tables, next := meta[order[i]], TablesFrom(meta, order[..i]), NextFrom(meta, order[..i]);
            if json == "" || ParseTable(json) == None then
              TablesFrom(meta, order[..i + 1]) == tables && NextFrom(meta, order[..i + 1]) == next
            else
              var t := ParseTable(json).value;
              && TablesFrom(meta, order[..i + 1]) == tables[t.tableId := t]
              && NextFrom(meta, order[..i + 1]) == if LargestPart(t.versions) >= next then LargestPart(t.versions) + 1 else next
  {
    hide ParseTable, LargestPart;
    assert order[..i + 1][..i] == order[..i];
  }

  lemma NothingYet(meta: map<Location, string>)
    ensures TablesFrom(meta, []) == map[] && NextFrom(meta, []) == 1
  {
  }

  /** The directories that the reload goes through, each once, in some order. */
  predicate ListsDirs(meta: map<Location, string>, order: seq<Location>) {
    && (forall i | 0 <= i < |order| :: order[i] in meta && Listed(order[i]))
    && forall at | at in meta && Listed(at) :: at in order
  }

  predicate Parses(meta: map<Location, string>, at: Location)
    requires at in meta
  {
    meta[at] != "" ==> ParseTable(meta[at]).Some?
  }

  /** No version of the file carries the largest 64-bit part number, which has no successor. */
  predicate PartsBelowMax(json: string) {
    json != "" && ParseTable(json).Some? ==> LargestPart(ParseTable(json).value.versions) < INT64_MAX
  }

  /** Where the tables read so far come from. */
  ghost predicate ReadFrom(meta: map<Location, string>, order: seq<Location>, tables: map<string, TableMetadata>) {
    && (forall at | at in order && at in meta && meta[at] != "" ::
          ParseTable(meta[at]).Some? && ParseTable(meta[at]).value.tableId in tables)
    && forall id | id in tables :: tables[id].tableId == id && exists at :: at in order && Finds(meta, at, tables[id])
  }

  lemma {:induction false} TablesAreRead(meta: map<Location, string>, order: seq<Location>)
    requires forall i | 0 <= i < |order| :: order[i] in meta && Listed(order[i]) && Parses(meta, order[i])
    ensures ReadFrom(meta, order, TablesFrom(meta, order))
    decreases |order|
  {
    hide ParseTable, Listed;
    if order != [] {
      var n := |order| - 1;
      TablesAreRead(meta, order[..n]);
      var before, after := TablesFrom(meta, order[..n]), TablesFrom(meta, order);
      assert forall at :: at in order <==> at in order[..n] || at == order[n];
      assert Parses(meta, order[n]);
      forall id | id in after ensures after[id].tableId == id && exists at :: at in order && Finds(meta, at, after[id]) {
        if id in before && after[id] == before[id] {
          var at :| at in order[..n] && Finds(meta, at, before[id]);
        } else {
          assert Finds(meta, order[n], after[id]);
        }
      }
    }
  }

  ghost predicate NextIs(meta: map<Location, string>, order: seq<Location>, next: int) {
    && (forall at, t, v | at in order && Finds(meta, at, t) && v in t.versions && PartOf(v.versionId).Some? ::
          PartOf(v.versionId).value < next)
    && (next == 1 || exists at, t, v :: Finds(meta, at, t) && v in t.versions && PartOf(v.versionId) == Some(next - 1))
  }

  lemma {:induction false} NextIsAfterAll(meta: map<Location, string>, order: seq<Location>)
    requires forall i | 0 <= i < |order| :: order[i] in meta && Listed(order[i])
    ensures NextIs(meta, order, NextFrom(meta, order))
    decreases |order|
  {
    hide ParseTable, Listed, PartOf;
    if order != [] {
      var n := |order| - 1;
      NextIsAfterAll(meta, order[..n]);
      assert forall at :: at in order <==> at in order[..n] || at == order[n];
      var json, before, next := meta[order[n]], NextFrom(meta, order[..n]), NextFrom(meta, order);
      if json != "" && ParseTable(json).Some? {
        var t := ParseTable(json).value;
        assert Finds(meta, order[n], t);
        if next != before {
          var v :| v in t.versions && PartOf(v.versionId) == Some(next - 1);
          assert Finds(meta, order[n], t) && v in t.versions;
        }
      }
    }
  }

  /** A reload that reads every file loads the tables and the next part number of the machine. */
  lemma CompleteReload(meta: map<Location, string>, order: seq<Location>)
    requires ListsDirs(meta, order) && forall i | 0 <= i < |order| :: Parses(meta, order[i])
    ensures Loaded(meta, TablesFrom(meta, order))
    ensures NextFrom(meta, order) <= INT64_MAX ==> FollowsAllParts(meta, NextFrom(meta, order))
  {
    hide ParseTable, Listed, PartOf, TablesFrom, NextFrom;
    TablesAreRead(meta, order);
    NextIsAfterAll(meta, order);
  }

  /** In every state that a run over safe ids reaches the metadata files are such as reloading expects. */
  lemma ReachedFilesReload(s: Store, at: Location)
    requires Inv(s) && at in s.meta
    ensures PartsBelowMax(s.meta[at]) && ParseTable(s.meta[at]).Some? && s.meta[at] != ""
  {
    hide PrintTable, ParseTable, DistinctParts, FilesIntact, Storable, PartOf, Dir, Listed, LargestPart;
    var id, n := FileIsEarlier(s, at);
    var t := Earlier(s.tables[id], n);
    assert TableOk(s.tables[id], id, s.nextPart);
    forall v | v in t.versions ensures PartOf(v.versionId) != Some(INT64_MAX) {
      assert v in s.tables[id].versions && RecordedOk(v, id, s.nextPart);
    }
    assert LargestPart(t.versions) != INT64_MAX;
  }

  // ---------------------------------------------------------------- steps of the methods

  lemma Stays(s: Store)
    ensures Reaches(s, [], s)
  {
  }

  lemma GivesUp(s: Store, events: seq<Event>, m: Store)
    requires Reaches(s, events, m) && m.phase != Idle
    ensures Reaches(s, events + [GiveUp], m.(phase := Idle))
  {
    Extend(s, events, m, GiveUp, m.(phase := Idle));
  }

  lemma FlushesOne(s: Store, events: seq<Event>, m: Store, id: string)
    requires Reaches(s, events, m) && m.phase.Flushing? && id in m.phase.todo && id in m.tables
    ensures var todo := m.phase.todo - {id};
            Reaches(s, events + [FlushOne(id)],
                    m.(meta := m.meta[Dir(id) := PrintTable(m.tables[id])],
                       phase := if todo == {} then Idle else Flushing(todo)))
  {
    hide PrintTable, Reaches;
    var todo := m.phase.todo - {id};
    Extend(s, events, m, FlushOne(id),
           m.(meta := m.meta[Dir(id) := PrintTable(m.tables[id])], phase := if todo == {} then Idle else Flushing(todo)));
  }

  lemma Registers(s: Store, id: string, schemaJson: string, now: int64)
    requires s.phase == Idle && id !in s.tables
    ensures var tables := s.tables[id := NewTable(id, schemaJson, now)];
            Reaches(s, [Register(id, schemaJson, now)], s.(tables := tables, phase := Flushing(tables.Keys)))
  {
    hide Reaches, NewTable;
    Stays(s);
    var tables := s.tables[id := NewTable(id, schemaJson, now)];
    Extend(s, [], s, Register(id, schemaJson, now), s.(tables := tables, phase := Flushing(tables.Keys)));
    assert [] + [Register(id, schemaJson, now)] == [Register(id, schemaJson, now)];
  }

  lemma Begins(s: Store, id: string, rows: Rows)
    requires s.phase == Idle && id in s.tables && s.nextPart < INT64_MAX && |rows| <= INT64_MAX
    ensures Reaches(s, [Begin(id, rows)], s.(nextPart := s.nextPart + 1, phase := Taken(id, s.nextPart, rows)))
  {
    hide Reaches;
    Stays(s);
    Extend(s, [], s, Begin(id, rows), s.(nextPart := s.nextPart + 1, phase := Taken(id, s.nextPart, rows)));
    assert [] + [Begin(id, rows)] == [Begin(id, rows)];
  }

  lemma Tears(s: Store, id: string, rows: Rows, written: Rows)
    requires s.phase == Idle && id in s.tables && s.nextPart < INT64_MAX && |rows| <= INT64_MAX
    ensures Reaches(s, [Begin(id, rows), Tear(written), GiveUp],
                    s.(nextPart := s.nextPart + 1, parts := s.parts[(Dir(id), s.nextPart as int) := written]))
  {
    hide Reaches;
    Begins(s, id, rows);
    var taken := s.(nextPart := s.nextPart + 1, phase := Taken(id, s.nextPart, rows));
    var torn := taken.(parts := s.parts[(Dir(id), s.nextPart as int) := written]);
    Extend(s, [Begin(id, rows)], taken, Tear(written), torn);
    GivesUp(s, [Begin(id, rows)] + [Tear(written)], torn);
    assert [Begin(id, rows)] + [Tear(written)] + [GiveUp] == [Begin(id, rows), Tear(written), GiveUp];
  }

  lemma Records(s: Store, id: string, rows: Rows, now: int64)
    requires s.phase == Idle && id in s.tables && s.nextPart < INT64_MAX && |rows| <= INT64_MAX
    ensures var t := s.tables[id];
            var after := t.(versions := t.versions + [NewVersion(t, id, s.nextPart, rows, now)]);
            Reaches(s, [Begin(id, rows), WritePart, Record(now)],
                    s.(nextPart := s.nextPart + 1, parts := s.parts[(Dir(id), s.nextPart as int) := rows],
                       tables := s.tables[id := after], phase := Flushing(s.tables.Keys)))
  {
    hide Reaches, VersionId;
    Begins(s, id, rows);
    var taken := s.(nextPart := s.nextPart + 1, phase := Taken(id, s.nextPart, rows));
    var complete := taken.(parts := s.parts[(Dir(id), s.nextPart as int) := rows], phase := Written(id, s.nextPart, rows));
    var t := s.tables[id];
    var after := t.(versions := t.versions + [NewVersion(t, id, s.nextPart, rows, now)]);
    Extend(s, [Begin(id, rows)], taken, WritePart, complete);
    Extend(s, [Begin(id, rows)] + [WritePart], complete, Record(now),
           complete.(tables := s.tables[id := after], phase := Flushing(s.tables.Keys)));
    assert [Begin(id, rows)] + [WritePart] + [Record(now)] == [Begin(id, rows), WritePart, Record(now)];
  }

  class Backend {
    var meta: map<Location, string>
    var parts: map<PartKey, Rows>
    var tables: map<string, TableMetadata>
    var nextPart: int64

    ghost function State(phase: Phase): Store
      reads this
    {
      Store(meta, parts, tables, nextPart, phase)
    }

    /** The file in the directory of this table holds the table, or another of the same directory. */
    ghost predicate OnFile(id: string)
      requires id in tables
      reads this
    {
      Dir(id) in meta && exists other :: other in tables && Dir(other) == Dir(id) && meta[Dir(id)] == PrintTable(tables[other])
    }

    /** With directories of their own, that is the table itself. */
    lemma OwnFile(id: string)
      requires id in tables && OnFile(id) && Apart(tables.Keys)
      ensures meta[Dir(id)] == PrintTable(tables[id])
    {
      hide Dir, PrintTable;
    }

    constructor Empty()
      ensures State(Idle) == EMPTY
    {
      meta, parts, tables, nextPart := map[], map[], map[], 1;
    }

    /** Replaces the metadata files one by one; only the first `writable` replacements succeed. */
    method Flush(writable: nat, ghost s: Store, ghost events0: seq<Event>)
      returns (ok: bool, ghost events: seq<Event>)
      requires tables.Keys != {}
      requires Reaches(s, events0, State(Flushing(tables.Keys)))
      modifies this`meta
      ensures Reaches(s, events, State(Idle))
      ensures ok == (|tables.Keys| <= writable)
      ensures events0 <= events && (ok && NoGiveUp(events0) ==> NoGiveUp(events))
      ensures forall e | e in events :: e in events0 || e.FlushOne? || e == GiveUp
      ensures ok ==> forall id | id in tables :: OnFile(id)
      ensures ok && Apart(tables.Keys) ==> Synced(State(Idle), tables.Keys)
    {
      hide PrintTable, Step, Reaches, Dir;
      var todo, left := tables.Keys, writable;
      events := events0;
      while todo != {}
        invariant todo <= tables.Keys && 0 <= left && left + (|tables.Keys| - |todo|) == writable
        invariant Reaches(s, events, State(if todo == {} then Idle else Flushing(todo)))
        invariant events0 <= events && (NoGiveUp(events0) ==> NoGiveUp(events))
        invariant forall e | e in events :: e in events0 || e.FlushOne? || e == GiveUp
        invariant forall id | id in tables && id !in todo :: OnFile(id)
        decreases |todo|
      {
        ghost var before := State(Flushing(todo));
        assert |todo| > 0;
        if left == 0 {
          GivesUp(s, events, before);
          return false, events + [GiveUp];
        }
        var id :| id in todo;
        var text := SerializeTableMetadata(tables[id]);
        meta := meta[Dir(id) := text];
        todo, left := todo - {id}, left - 1;
        FlushesOne(s, events, before, id);
        events := events + [FlushOne(id)];
      }
      assert |todo| == 0;
      ok := true;
      if Apart(tables.Keys) {
        forall id | id in tables ensures meta[Dir(id)] == PrintTable(tables[id]) { OwnFile(id); }
      }
    }

    method RegisterTable(id: string, schemaJson: string, now: int64, writable: nat)
      returns (ok: bool, ghost events: seq<Event>)
      modifies this
      ensures Reaches(old(State(Idle)), events, State(Idle))
      ensures parts == old(parts) && nextPart == old(nextPart)
      ensures id in old(tables) ==> !ok && State(Idle) == old(State(Idle)) && events == []
      ensures id !in old(tables) ==>
                && tables == old(tables)[id := NewTable(id, schemaJson, now)]
                && events != [] && events[0] == Register(id, schemaJson, now)
                && (ok ==> NoGiveUp(events) && OnFile(id))
    {
      hide PrintTable, Step, Reaches, Dir, OnFile, SchemaHash, VersionId;
      events := [];
      assert Reaches(State(Idle), [], State(Idle)) by { Stays(State(Idle)); }
      if id in tables {
        return false, events;
      }
      ghost var s := State(Idle);
      tables := tables[id := NewTable(id, schemaJson, now)];
      Registers(s, id, schemaJson, now);
      assert id in tables.Keys;
      ok, events := Flush(writable, s, [Register(id, schemaJson, now)]);
    }

    /** `written` is what the writer leaves in the part file: all of `rows`, or less if it fails. */
    method Append(id: string, rows: Rows, written: Rows, now: int64, writable: nat)
      returns (ok: bool, ghost events: seq<Event>)
      requires nextPart < INT64_MAX && |rows| <= INT64_MAX
      modifies this
      ensures Reaches(old(State(Idle)), events, State(Idle))
      ensures forall e | e in events :: !e.Register?
      ensures id !in old(tables) ==> !ok && State(Idle) == old(State(Idle)) && events == []
      ensures id in old(tables) ==>
                && nextPart == old(nextPart) + 1
                && parts == old(parts)[(Dir(id), old(nextPart) as int) := written]
                && tables == (if written != rows then old(tables) else
                     var t := old(tables)[id];
                     var v := NewVersion(t, id, old(nextPart), rows, now);
                     old(tables)[id := t.(versions := t.versions + [v])])
      ensures ok ==> written == rows && NoGiveUp(events) && OnFile(id)
      ensures id in old(tables) ==> [Begin(id, rows)] <= events
      ensures forall e | e in events && e.Begin? :: e == Begin(id, rows)
    {
      hide PrintTable, Step, Reaches, Dir, OnFile, SchemaHash, VersionId;
      events := [];
      assert Reaches(State(Idle), [], State(Idle)) by { Stays(State(Idle)); }
      if id !in tables {
        return false, events;
      }
      ghost var s := State(Idle);
      var part := nextPart;
      nextPart := nextPart + 1;
      parts := parts[(Dir(id), part as int) := written];
      if written != rows {
        events := [Begin(id, rows), Tear(written), GiveUp];
        Tears(s, id, rows, written);
        return false, events;
      }
      var t := tables[id];
      tables := tables[id := t.(versions := t.versions + [NewVersion(t, id, part, rows, now)])];
      Records(s, id, rows, now);
      assert tables.Keys == s.tables.Keys;
      ok, events := Flush(writable, s, [Begin(id, rows), WritePart, Record(now)]);
    }

    /** Reads the metadata files again in the order of the listing, up to one that cannot be opened
        or does not parse; what was read before it stays loaded. */
    method Reload(order: seq<Location>, readable: set<Location>) returns (ok: bool, ghost done: nat)
      requires ListsDirs(meta, order) && forall at | at in meta :: PartsBelowMax(meta[at])
      modifies this`tables, this`nextPart
      ensures done <= |order| && (forall i | 0 <= i < |order| :: order[i] in meta)
      ensures tables == TablesFrom(meta, order[..done]) && nextPart == NextFrom(meta, order[..done])
      ensures ok <==> done == |order|
      ensures !ok ==> order[done] !in readable || !Parses(meta, order[done])
      ensures ok ==> Loaded(meta, tables) && FollowsAllParts(meta, nextPart)
    {
      NothingYet(meta);
      hide ParseTable, PartOf, Loaded, FollowsAllParts, Listed, TablesFrom, NextFrom, LargestPart;
      assert order[..0] == [];
      tables, nextPart, done := map[], 1, 0;
      for i := 0 to |order|
        invariant done == i && tables == TablesFrom(meta, order[..i]) && nextPart == NextFrom(meta, order[..i])
        invariant forall k | 0 <= k < i :: Parses(meta, order[k])
      {
        OneMoreFile(meta, order, i);
        var at := order[i];
        if at !in readable {
          return false, i;
        }
        if meta[at] != "" {
          var parsed := ParseTableMetadata(meta[at]);
          if parsed == None {
            return false, i;
          }
          var maxPart := MaxPart(parsed.value.versions);
          assert maxPart < INT64_MAX by { assert PartsBelowMax(meta[at]); }
          tables := tables[parsed.value.tableId := parsed.value];
          if maxPart >= nextPart {
            nextPart := maxPart + 1;
          }
        }
        done := i + 1;
      }
      assert order[..|order|] == order;
      CompleteReload(meta, order);
      ok := true;
    }

    /** The rows of the part files of a table, read in the order the directory lists them. */
    method Scan(id: string, order: seq<int>) returns (rows: Option<Rows>)
      requires Lists(State(Idle), id, order)
      ensures rows == if id in tables then Some(Scanned(State(Idle), id, order)) else None
    {
      if id !in tables {
        return None;
      }
      var out: Rows := [];
      assert order[0..] == order;
      for i := 0 to |order|
        invariant Scanned(State(Idle), id, order) == out + Scanned(State(Idle), id, order[i..])
      {
        assert order[i..][1..] == order[i + 1..];
        out := out + parts[(Dir(id), order[i])];
      }
      assert order[|order|..] == [] && out + [] == out;
      rows := Some(out);
    }
  }
}
