/** What a scan returns, said of the rows that were appended: the rows of each recorded append stand
    together in their order, next to those of part files that no version records. */
module ObjectStoreScans {
  import opened Common
  import opened Paths
  import opened MetadataText
  import opened ObjectStore

  // ---------------------------------------------------------------- the appends behind the versions

  predicate AppendTo(e: Event, id: string) { e.Begin? && e.id == id }

  /** The versions recorded for this table, oldest first. */
  function Recorded(s: Store, id: string): seq<VersionMeta> {
    if id in s.tables then s.tables[id].versions else []
  }

  /** The version `v` of the table `id` has a file, which holds these rows. */
  predicate Holds(s: Store, id: string, v: VersionMeta, rows: Rows) {
    PartOf(v.versionId).Some? && Key(id, v) in s.parts && s.parts[Key(id, v)] == rows
  }

  /** `from` lists, for each recorded version in turn, the append that its rows come from; all lie
      among the first `n` events. */
  ghost predicate ComesFrom(s: Store, events: seq<Event>, n: nat, id: string, from: seq<nat>) {
    && n <= |events| && |from| == |Recorded(s, id)|
    && (forall j, k | 0 <= j < k < |from| :: from[j] < from[k])
    && forall k | 0 <= k < |from| ::
         from[k] < n && AppendTo(events[from[k]], id) && Holds(s, id, Recorded(s, id)[k], events[from[k]].rows)
  }

  predicate Appending(p: Phase) { p.Taken? || p.Written? }

  /** The append under way began with event `b`, after all those of `from`. */
  ghost predicate UnderWay(p: Phase, events: seq<Event>, n: nat, from: seq<nat>, b: nat) {
    Appending(p) ==> b < n <= |events| && events[b] == Begin(p.id, p.rows) && forall k | 0 <= k < |from| :: from[k] < b
  }

  /** No append to the table is missing, except for the one under way. */
  ghost predicate AllThere(p: Phase, events: seq<Event>, n: nat, id: string, from: seq<nat>, b: nat)
    requires n <= |events|
  {
    forall a: nat | a < n && AppendTo(events[a], id) :: a in from || (Appending(p) && a == b)
  }

  lemma FilesStay(s: Store, e: Event, s': Store, events: seq<Event>, n: nat, id: string, from: seq<nat>)
    requires Inv(s) && Step(s, e, s') && n < |events| && ComesFrom(s, events, n, id, from)
    requires Recorded(s', id) <= Recorded(s, id)
    ensures ComesFrom(s', events, n + 1, id, from[..|Recorded(s', id)|])
  {
    hide Step, Inv, PartOf, Dir;
    var vs := Recorded(s', id);
    forall k | 0 <= k < |vs| ensures Holds(s', id, vs[k], events[from[k]].rows) {
      assert vs[k] in s.tables[id].versions;
      StepKeepsFile(s, e, s', id, vs[k]);
    }
  }

  lemma FewerRecorded(s: Store, e: Event, s': Store, id: string)
    requires Inv(s) && Step(s, e, s') && (e.Record? ==> s.phase.id != id)
    ensures Recorded(s', id) <= Recorded(s, id)
    ensures e.Reopen? && Exact(s) && s.phase == Idle ==> Recorded(s', id) == Recorded(s, id)
    ensures !e.Reopen? ==> Recorded(s', id) == Recorded(s, id)
  {
    hide Inv, PrintTable, Dir, VersionId, SchemaHash;
    if e == Reopen {
      hide Step, Exact;
      ReopenPrefixes(s, s');
      if Exact(s) && s.phase == Idle { ReopenExact(s, s'); }
    }
  }

  /** A recorded version has the number of the append under way, and so its file. */
  lemma RecordHolds(s: Store, e: Event, s': Store) returns (v: VersionMeta)
    requires Inv(s) && Step(s, e, s') && e.Record?
    ensures s.phase.Written? && s'.parts == s.parts
    ensures Recorded(s', s.phase.id) == Recorded(s, s.phase.id) + [v] && Holds(s', s.phase.id, v, s.phase.rows)
  {
    hide PrintTable, PartOf, Dir, VersionId, SchemaHash, TablesOk, DistinctParts, FilesIntact, DiskLags, Apart;
    PartOfVersionId(s.phase.part);
    v := NewVersion(s.tables[s.phase.id], s.phase.id, s.phase.part, s.phase.rows, e.now);
  }

  /** Recording a version adds the append under way. */
  lemma RecordAdds(s: Store, e: Event, s': Store, events: seq<Event>, n: nat, id: string, from: seq<nat>, b: nat)
    requires Inv(s) && Step(s, e, s') && e.Record? && s.phase.id == id && n < |events|
    requires ComesFrom(s, events, n, id, from) && UnderWay(s.phase, events, n, from, b)
    ensures ComesFrom(s', events, n + 1, id, from + [b])
  {
    hide PartOf, Dir, Step, Inv;
    var v := RecordHolds(s, e, s');
    assert forall w, rows :: Holds(s, id, w, rows) ==> Holds(s', id, w, rows);
    hide Holds;
  }

  /** What the recorded versions hold comes from appends, in their order; and from all of them, while
      nothing gives up and the store is reopened only between operations. */
  lemma {:induction false} VersionsComeFromAppends(states: seq<Store>, events: seq<Event>, ids: set<string>, n: nat, id: string)
    returns (from: seq<nat>, b: nat)
    requires RunOver(states, events, ids) && SafeIds(ids) && n < |states|
    ensures ComesFrom(states[n], events, n, id, from) && UnderWay(states[n].phase, events, n, from, b)
    ensures (forall k | 0 <= k < n :: Orderly(states[k], events[k])) ==> AllThere(states[n].phase, events, n, id, from, b)
  {
    hide Inv, SafeIds, Orderly, Holds;
    if n == 0 {
      from, b := [], 0;
    } else {
      var s, e, s' := states[n - 1], events[n - 1], states[n];
      from, b := VersionsComeFromAppends(states, events, ids, n - 1, id);
      RunKeeps(states, events, ids, n - 1);
      assert Step(s, e, s');
      OrderlyExact(states, events, ids, n);
      from, b := OneMoreEvent(s, e, s', events, n - 1, id, from, b);
    }
  }

  lemma OrderlyExact(states: seq<Store>, events: seq<Event>, ids: set<string>, n: nat)
    requires RunOver(states, events, ids) && SafeIds(ids) && 0 < n < |states|
    ensures (forall k | 0 <= k < n :: Orderly(states[k], events[k])) ==> Exact(states[n - 1])
  {
    hide Exact, Orderly, SafeIds, Step;
    if forall k | 0 <= k < n :: Orderly(states[k], events[k]) {
      var some, es := states[..n + 1], events[..n];
      assert RunOver(some, es, ids) by {
        forall i | 0 <= i < n ensures Step(some[i], es[i], some[i + 1]) { assert Step(states[i], events[i], states[i + 1]); }
        assert forall x | x in es :: x in events;
      }
      RunKeepsExact(some, es, ids, n - 1);
    }
  }

  lemma OneMoreEvent(s: Store, e: Event, s': Store, events: seq<Event>, n: nat, id: string, from: seq<nat>, b: nat)
    returns (from': seq<nat>, b': nat)
    requires Inv(s) && Step(s, e, s') && n < |events| && events[n] == e
    requires ComesFrom(s, events, n, id, from) && UnderWay(s.phase, events, n, from, b)
    ensures ComesFrom(s', events, n + 1, id, from') && UnderWay(s'.phase, events, n + 1, from', b')
    ensures Orderly(s, e) && Exact(s) && AllThere(s.phase, events, n, id, from, b) ==>
              AllThere(s'.phase, events, n + 1, id, from', b')
  {
    hide Inv, Exact, PrintTable, Dir, VersionId, SchemaHash, Holds, NewTable, NewVersion, Loaded, FollowsAllParts;
    if e.Record? && s.phase.id == id {
      RecordAdds(s, e, s', events, n, id, from, b);
      from', b' := from + [b], b;
    } else {
      FewerRecorded(s, e, s', id);
      FilesStay(s, e, s', events, n, id, from);
      from', b' := from[..|Recorded(s', id)|], if e.Begin? then n else b;
    }
  }

  // ---------------------------------------------------------------- what a scan returns

  function Concat(parts: seq<Rows>): Rows {
    if parts == [] then [] else parts[0] + Concat(parts[1..])
  }

  /** All these are appends to the table among the first `n` events. */
  predicate Appends(events: seq<Event>, n: nat, id: string, from: seq<nat>) {
    n <= |events| && forall k | 0 <= k < |from| :: from[k] < n && AppendTo(events[from[k]], id)
  }

  /** The rows of these appends, one piece for each. */
  function Pieces(events: seq<Event>, id: string, from: seq<nat>): (ps: seq<Rows>)
    requires Appends(events, |events|, id, from)
    ensures |ps| == |from| && forall k | 0 <= k < |from| :: ps[k] == events[from[k]].rows
  {
    seq(|from|, k requires 0 <= k < |from| => events[from[k]].rows)
  }

  lemma {:induction false} ScannedInPieces(s: Store, id: string, order: seq<int>, pieces: seq<Rows>)
    requires |pieces| == |order|
    requires forall j | 0 <= j < |order| :: (Dir(id), order[j]) in s.parts && s.parts[(Dir(id), order[j])] == pieces[j]
    ensures Scanned(s, id, order) == Concat(pieces)
  {
    if order != [] {
      ScannedInPieces(s, id, order[1..], pieces[1..]);
    }
  }

  predicate HasNumber(v: VersionMeta, part: int) {
    PartOf(v.versionId).Some? && PartOf(v.versionId).value as int == part
  }

  predicate InListing(v: VersionMeta, order: seq<int>) { exists j :: 0 <= j < |order| && HasNumber(v, order[j]) }

  /** The file of each version holds the rows of its append, the file of no version what is in it. */
  ghost predicate Arranged(s: Store, events: seq<Event>, id: string, order: seq<int>, from: seq<nat>, pieces: seq<Rows>) {
    var vs := Recorded(s, id);
    && |from| == |vs| && |pieces| == |order|
    && (forall j, k | 0 <= j < k < |from| :: from[j] < from[k])
    && Appends(events, |events|, id, from)
    && (forall k | 0 <= k < |vs| :: InListing(vs[k], order))
    && (forall j, k | 0 <= j < |order| && 0 <= k < |vs| && HasNumber(vs[k], order[j]) :: pieces[j] == events[from[k]].rows)
    && forall j | 0 <= j < |order| && (forall v | v in vs :: !HasNumber(v, order[j])) ::
         (Dir(id), order[j]) in s.parts && pieces[j] == s.parts[(Dir(id), order[j])]
  }

  /** Over every run with safe ids, whatever failed or crashed: a scan returns, file by file in the
      order of the listing, the rows of the append that the version of the file comes from, and the
      rows of files that no version records. */
  lemma ScanReturnsAppends(states: seq<Store>, events: seq<Event>, ids: set<string>, i: nat, id: string, order: seq<int>)
    returns (from: seq<nat>, pieces: seq<Rows>)
    requires RunOver(states, events, ids) && SafeIds(ids) && i < |states|
    requires id in states[i].tables && Lists(states[i], id, order)
    ensures Arranged(states[i], events, id, order, from, pieces) && Appends(events, i, id, from)
    ensures Scanned(states[i], id, order) == Concat(pieces)
    ensures (forall k | 0 <= k < i :: Orderly(states[k], events[k])) && states[i].phase == Idle ==>
              forall a: nat | a < i && AppendTo(events[a], id) :: a in from
  {
    hide Inv, PartOf, Dir, SafeIds, Orderly, Scanned;
    var b;
    from, b := VersionsComeFromAppends(states, events, ids, i, id);
    var s := states[i];
    pieces := seq(|order|, j requires 0 <= j < |order| => s.parts[(Dir(id), order[j])]);
    ScannedInPieces(s, id, order, pieces);
    var vs := Recorded(s, id);
    assert |from| == |vs| && |pieces| == |order| && Appends(events, i, id, from) && Appends(events, |events|, id, from);
    forall k | 0 <= k < |vs| ensures InListing(vs[k], order) {
      assert Holds(s, id, vs[k], events[from[k]].rows);
      var p := PartOf(vs[k].versionId).value as int;
      var j :| 0 <= j < |order| && order[j] == p;
      assert HasNumber(vs[k], order[j]);
    }
    forall j, k | 0 <= j < |order| && 0 <= k < |vs| && HasNumber(vs[k], order[j]) ensures pieces[j] == events[from[k]].rows {
      assert Holds(s, id, vs[k], events[from[k]].rows);
    }
  }

  // ---------------------------------------------------------------- scans after complete appends

  /** All rows appended to the table, each as often as it was. */
  function RowsAppended(events: seq<Event>, id: string): multiset<string> {
    if events == [] then multiset{}
    else
      var e := events[|events| - 1];
      RowsAppended(events[..|events| - 1], id) + if AppendTo(e, id) then multiset(e.rows) else multiset{}
  }

  lemma {:induction false} ConcatWithout(ps: seq<Rows>, k: nat)
    requires k < |ps|
    ensures multiset(Concat(ps)) == multiset(ps[k]) + multiset(Concat(ps[..k] + ps[k + 1..]))
  {
    var rest := ps[..k] + ps[k + 1..];
    if k == 0 {
      assert rest == ps[1..];
    } else {
      ConcatWithout(ps[1..], k - 1);
      assert rest[0] == ps[0] && rest[1..] == ps[1..][..k - 1] + ps[1..][k..];
    }
  }

  predicate NoneTwice(from: seq<nat>) { forall j, k | 0 <= j < k < |from| :: from[j] != from[k] }

  /** The pieces of all appends so far, in any order, hold all rows appended so far. */
  lemma {:induction false} PiecesOfAll(events: seq<Event>, i: nat, id: string, from: seq<nat>)
    requires NoneTwice(from) && Appends(events, i, id, from)
    requires forall a: nat | a < i && AppendTo(events[a], id) :: a in from
    ensures multiset(Concat(Pieces(events, id, from))) == RowsAppended(events[..i], id)
  {
    hide Pieces, Concat;
    if i == 0 {
      if from != [] {
        HasFirst(from);
        assert false;
      }
      ConcatNothing();
    } else {
      assert events[..i][..i - 1] == events[..i - 1];
      if AppendTo(events[i - 1], id) {
        var k, rest := WithoutLast(events, i, id, from);
        PiecesOfAll(events, i - 1, id, rest);
        PiecesWithout(events, id, from, k);
        ConcatWithout(Pieces(events, id, from), k);
      } else {
        assert Appends(events, i - 1, id, from);
        PiecesOfAll(events, i - 1, id, from);
      }
    }
  }

  lemma HasFirst(from: seq<nat>)
    requires from != []
    ensures exists a: nat :: a in from
  {
    assert from[0] in from;
  }

  lemma ConcatNothing()
    ensures Concat([]) == []
  {
  }

  lemma PiecesWithout(events: seq<Event>, id: string, from: seq<nat>, k: nat)
    requires k < |from| && Appends(events, |events|, id, from)
    ensures Appends(events, |events|, id, from[..k] + from[k + 1..])
    ensures Pieces(events, id, from[..k] + from[k + 1..]) == Pieces(events, id, from)[..k] + Pieces(events, id, from)[k + 1..]
  {
    var rest := from[..k] + from[k + 1..];
    assert forall j | 0 <= j < |rest| :: rest[j] == from[if j < k then j else j + 1];
  }

  lemma WithoutLast(events: seq<Event>, i: nat, id: string, from: seq<nat>) returns (k: nat, rest: seq<nat>)
    requires 0 < i && NoneTwice(from) && Appends(events, i, id, from) && AppendTo(events[i - 1], id)
    requires forall a: nat | a < i && AppendTo(events[a], id) :: a in from
    ensures k < |from| && from[k] == i - 1 && NoneTwice(rest) && Appends(events, i - 1, id, rest)
    ensures forall a: nat | a < i - 1 && AppendTo(events[a], id) :: a in rest
    ensures rest == from[..k] + from[k + 1..]
  {
    k :| 0 <= k < |from| && from[k] == i - 1;
    rest := from[..k] + from[k + 1..];
    hide AppendTo;
    AllButOne(from, k);
    forall j | 0 <= j < |rest| ensures rest[j] < i - 1 && AppendTo(events[rest[j]], id) {
      assert rest[j] in rest && rest[j] in from && rest[j] != i - 1;
    }
  }

  lemma AllButOne(from: seq<nat>, k: nat)
    requires NoneTwice(from) && k < |from|
    ensures var rest := from[..k] + from[k + 1..]; NoneTwice(rest) && forall a :: a in rest <==> a in from && a != from[k]
  {
    var rest := from[..k] + from[k + 1..];
    assert forall j | 0 <= j < |rest| :: rest[j] == from[if j < k then j else j + 1];
    forall a | a in from && a != from[k] ensures a in rest {
      var j :| 0 <= j < |from| && from[j] == a;
      assert rest[if j < k then j else j - 1] == a;
    }
  }

  /** Between operations, when every append completed, a scan returns every append to the table once
      and nothing else: the rows of each stand together in their order, and the appends in the order
      of the listing. So it has exactly the rows appended, each as often as it was. */
  lemma ScanReturnsAll(states: seq<Store>, events: seq<Event>, ids: set<string>, i: nat, id: string, order: seq<int>)
    returns (which: seq<nat>)
    requires RunOver(states, events, ids) && SafeIds(ids) && i < |states|
    requires forall k | 0 <= k < |events| :: Orderly(states[k], events[k])
    requires states[i].phase == Idle && id in states[i].tables && Lists(states[i], id, order)
    ensures NoneTwice(which) && Appends(events, |events|, id, which)
    ensures forall a: nat :: a in which <==> a < i && AppendTo(events[a], id)
    ensures Scanned(states[i], id, order) == Concat(Pieces(events, id, which))
    ensures multiset(Scanned(states[i], id, order)) == RowsAppended(events[..i], id)
  {
    hide Inv, PartOf, Dir, SafeIds, Orderly, Scanned, Exact, Step, Lists, Arranged;
    var from, pieces := ScanReturnsAppends(states, events, ids, i, id, order);
    RunKeeps(states, events, ids, i);
    RunKeepsExact(states, events, ids, i);
    which := Reordered(states[i], events, id, order, from, pieces);
    assert Pieces(events, id, which) == pieces;
    forall k | 0 <= k < |which| ensures which[k] < i {
      assert which[k] in which && which[k] in from;
    }
    forall a: nat ensures a in which <==> a < i && AppendTo(events[a], id) {
      assert a in which <==> a in from;
    }
    PiecesOfAll(events, i, id, which);
  }

  /** Every listed file belongs to a version. */
  lemma ListedIsRecorded(s: Store, id: string, order: seq<int>) returns (at: seq<nat>)
    requires Inv(s) && Exact(s) && s.phase == Idle && id in s.tables && Lists(s, id, order)
    ensures |at| == |order| && forall j | 0 <= j < |order| :: at[j] < |Recorded(s, id)| && HasNumber(Recorded(s, id)[at[j]], order[j])
    ensures forall j, k | 0 <= j < |order| && 0 <= k < |Recorded(s, id)| && HasNumber(Recorded(s, id)[k], order[j]) :: at[j] == k
    ensures NoneTwice(at)
  {
    hide PartOf, Dir, Inv, Exact;
    var vs := Recorded(s, id);
    RecordedFiles(s, id);
    NoOrphans(s, id, order);
    NumbersDiffer(s, id);
    var ps := PartNumbers(vs);
    forall j | 0 <= j < |order| ensures order[j] in ps {
      assert order[j] in order && order[j] !in Orphans(order, ps);
    }
    at := seq(|order|, j requires 0 <= j < |order| => Position(ps, order[j]));
    assert forall k | 0 <= k < |vs| :: vs[k] in vs && ps[k] == PartOf(vs[k].versionId).value as int;
    assert forall j | 0 <= j < |order| :: ps[at[j]] == order[j];
  }

  /** The appends in the order in which the listing names their files. */
  lemma Reordered(s: Store, events: seq<Event>, id: string, order: seq<int>, from: seq<nat>, pieces: seq<Rows>)
    returns (which: seq<nat>)
    requires Inv(s) && Exact(s) && s.phase == Idle && id in s.tables && Lists(s, id, order)
    requires Arranged(s, events, id, order, from, pieces)
    ensures |which| == |order| == |pieces| && NoneTwice(which) && Appends(events, |events|, id, which)
    ensures (forall a: nat :: a in which <==> a in from) && forall k | 0 <= k < |which| :: pieces[k] == events[which[k]].rows
  {
    hide Inv, Exact, Lists, HasNumber, Dir;
    var at := ListedIsRecorded(s, id, order);
    which := seq(|order|, j requires 0 <= j < |order| => from[at[j]]);
    forall k: nat | k < |from| ensures k in at {
      assert InListing(Recorded(s, id)[k], order);
      var j :| 0 <= j < |order| && HasNumber(Recorded(s, id)[k], order[j]);
      assert at[j] == k;
    }
    hide InListing;
    Permuted(from, at, which);
  }

  lemma Permuted(from: seq<nat>, at: seq<nat>, which: seq<nat>)
    requires NoneTwice(at) && |which| == |at| && (forall j, k | 0 <= j < k < |from| :: from[j] < from[k])
    requires (forall j | 0 <= j < |at| :: at[j] < |from| && which[j] == from[at[j]]) && forall k: nat | k < |from| :: k in at
    ensures NoneTwice(which) && forall a: nat :: a in which <==> a in from
  {
    forall a: nat | a in from ensures a in which {
      var k: nat :| k < |from| && from[k] == a;
      assert k in at;
      var j :| 0 <= j < |at| && at[j] == k;
      assert which[j] == a;
    }
    forall a: nat | a in which ensures a in from {
      var j :| 0 <= j < |which| && which[j] == a;
    }
  }

  function Position(ps: seq<int>, p: int): (k: nat)
    requires p in ps
    ensures k < |ps| && ps[k] == p
  {
    if ps[0] == p then 0 else 1 + Position(ps[1..], p)
  }

  // ---------------------------------------------------------------- what is recorded

  /** The table was registered with this schema text and time. */
  ghost predicate RegisteredAs(t: TableMetadata, id: string, events: seq<Event>, n: nat)
    requires n <= |events|
  {
    exists a: nat :: a < n && events[a].Register? && events[a].id == id
      && t.tableId == id && t.schemaJson == events[a].schemaJson && t.createdAt == events[a].now
      && t.schemaHash == SchemaHash(events[a].schemaJson)
  }

  /** The version was recorded at this time, with the hash of its table. */
  ghost predicate RecordedAs(v: VersionMeta, t: TableMetadata, events: seq<Event>, n: nat)
    requires n <= |events|
  {
    v.tableId == t.tableId && v.schemaHash == t.schemaHash && exists a: nat :: a < n && events[a].Record? && events[a].now == v.createdAt
  }

  ghost predicate MadeAs(t: TableMetadata, id: string, events: seq<Event>, n: nat)
    requires n <= |events|
  {
    RegisteredAs(t, id, events, n) && forall v | v in t.versions :: RecordedAs(v, t, events, n)
  }

  /** Over every run with safe ids each table is as it was registered, and each of its versions as it
      was recorded. */
  lemma {:induction false} TablesAreAsRegistered(states: seq<Store>, events: seq<Event>, ids: set<string>, n: nat, id: string)
    requires RunOver(states, events, ids) && SafeIds(ids) && n < |states| && id in states[n].tables
    ensures MadeAs(states[n].tables[id], id, events, n)
  {
    hide Inv, SafeIds, MadeAs, PrintTable, ParseTable, Dir, SchemaHash, VersionId, Loaded, FollowsAllParts;
    if n > 0 {
      var s, e, s' := states[n - 1], events[n - 1], states[n];
      RunKeeps(states, events, ids, n - 1);
      assert Step(s, e, s');
      if e == Reopen {
        var k := ReopenReadsOne(s, s', id);
        TablesAreAsRegistered(states, events, ids, n - 1, id);
        Shorter(s.tables[id], k, id, events, n - 1);
      } else if e.Register? && e.id == id {
        NewlyRegistered(id, events, n);
      } else {
        TablesAreAsRegistered(states, events, ids, n - 1, id);
        if e.Record? && s.phase.id == id {
          OneMoreRecorded(s.tables[id], id, s.phase.part, s.phase.rows, events, n);
        } else {
          LaterMade(s.tables[id], id, events, n - 1);
        }
      }
    }
  }

  lemma Shorter(t: TableMetadata, k: nat, id: string, events: seq<Event>, n: nat)
    requires n < |events| && k <= |t.versions| && MadeAs(t, id, events, n)
    ensures MadeAs(Earlier(t, k), id, events, n + 1)
  {
    hide SchemaHash;
    LaterMade(t, id, events, n);
    forall v | v in t.versions[..k] ensures RecordedAs(v, Earlier(t, k), events, n + 1) {
      assert v in t.versions && RecordedAs(v, t, events, n + 1);
    }
  }

  lemma LaterMade(t: TableMetadata, id: string, events: seq<Event>, n: nat)
    requires n < |events| && MadeAs(t, id, events, n)
    ensures MadeAs(t, id, events, n + 1)
  {
    hide SchemaHash;
    var a: nat :| a < n && events[a].Register? && events[a].id == id
      && t.tableId == id && t.schemaJson == events[a].schemaJson && t.createdAt == events[a].now
      && t.schemaHash == SchemaHash(events[a].schemaJson);
    assert a < n + 1;
    forall v | v in t.versions ensures RecordedAs(v, t, events, n + 1) {
      assert RecordedAs(v, t, events, n);
      var b: nat :| b < n && events[b].Record? && events[b].now == v.createdAt;
      assert b < n + 1;
    }
  }

  lemma NewlyRegistered(id: string, events: seq<Event>, n: nat)
    requires 0 < n <= |events| && events[n - 1].Register? && events[n - 1].id == id
    ensures MadeAs(NewTable(id, events[n - 1].schemaJson, events[n - 1].now), id, events, n)
  {
    hide SchemaHash;
    assert n - 1 < n;
  }

  lemma OneMoreRecorded(t: TableMetadata, id: string, part: int64, rows: Rows, events: seq<Event>, n: nat)
    requires 0 < n <= |events| && events[n - 1].Record? && |rows| <= INT64_MAX && MadeAs(t, id, events, n - 1)
    ensures MadeAs(t.(versions := t.versions + [NewVersion(t, id, part, rows, events[n - 1].now)]), id, events, n)
  {
    hide SchemaHash, VersionId;
    LaterMade(t, id, events, n - 1);
    var v := NewVersion(t, id, part, rows, events[n - 1].now);
    var t' := t.(versions := t.versions + [v]);
    forall w | w in t'.versions ensures RecordedAs(w, t', events, n) {
      if w in t.versions { assert RecordedAs(w, t, events, n); }
    }
  }

  // ---------------------------------------------------------------- the schema hash

  function HexOf(c: char): nat {
    if '0' <= c <= '9' then c as nat - '0' as nat else if 'a' <= c <= 'f' then c as nat - 'a' as nat + 10 else 0
  }

  function HexValue(s: string): nat { if s == "" then 0 else 16 * HexValue(s[..|s| - 1]) + HexOf(s[|s| - 1]) }

  /** Numbers are printed in base sixteen, without leading zeros. */
  lemma {:induction false} PrintedHex(n: nat)
    ensures HexValue(PrintHex(n)) == n && PrintHex(n) != "" && (n > 0 ==> PrintHex(n)[0] != '0')
  {
    if n >= 16 {
      PrintedHex(n / 16);
      var s := PrintHex(n);
      assert s[..|s| - 1] == PrintHex(n / 16);
    } else {
      assert PrintHex(n)[..0] == "";
    }
  }

  /** The hash takes in one character after the other: the next one is mixed into the hash of those
      before it. */
  lemma {:induction false} FnvAppends(s: string, c: char, h: bv64)
    ensures Fnv(s + [c], h) == Mixed(Fnv(s, h), c)
  {
    hide Mixed;
    if s == "" {
      assert s + [c] == [c] && [c][1..] == "";
    } else {
      assert (s + [c])[1..] == s[1..] + [c];
      FnvAppends(s[1..], c, Mixed(h, s[0]));
    }
  }
}
