/** The chain of model versions: an append-only map of versions whose parents form a forest. New
    identifiers and creation times are inputs. */
module VersionChain {
  import opened Common

  type Id = string

  datatype Details = Details(createdBy: string, dataRange: string, fidelity: real, rows: int,
                             custom: map<string, string>)

  datatype Version = Version(id: Id, model: string, parent: Id, createdAt: int, isImmutable: bool, details: Details)

  datatype ChainError = InvalidArgument | ParentNotFound | VersionChainCycle | VersionNotFound | ImmutableViolation

  datatype Outcome = Created(version: Version) | Failed(error: ChainError)

  datatype Chain = Chain(versions: map<Id, Version>, byModel: map<string, seq<Id>>)

  // ---------------------------------------------------------------- walks

  function ParentOf(versions: map<Id, Version>, id: Id): Id {
    if id == "" || id !in versions then "" else versions[id].parent
  }

  /** Where `n` steps from child to parent lead; the walk stays at "" once it gets there. */
  function Node(versions: map<Id, Version>, id: Id, n: nat): Id {
    if n == 0 then id else ParentOf(versions, Node(versions, id, n - 1))
  }

  ghost predicate Ends(versions: map<Id, Version>, id: Id) {
    exists n: nat :: Node(versions, id, n) == ""
  }

  ghost predicate Meets(versions: map<Id, Version>, id: Id, other: Id) {
    exists n: nat :: Node(versions, id, n) == other
  }

  /** A version `newId` under `parent` closes a cycle, or the walk from `parent` never ends. */
  ghost predicate Cyclic(versions: map<Id, Version>, newId: Id, parent: Id) {
    (newId != "" && Meets(versions, parent, newId)) || !Ends(versions, parent)
  }

  lemma {:induction false} StaysEnded(versions: map<Id, Version>, id: Id, n: nat, m: nat)
    requires Node(versions, id, n) == "" && n <= m
    ensures Node(versions, id, m) == ""
    decreases m
  {
    if n < m {
      StaysEnded(versions, id, n, m - 1);
    }
  }

  /** After a node is met again nothing new comes. */
  lemma {:induction false} Repeats(versions: map<Id, Version>, id: Id, j: nat, k: nat, n: nat)
    requires j < k && Node(versions, id, j) == Node(versions, id, k)
    ensures exists i: nat :: i < k && Node(versions, id, i) == Node(versions, id, n)
    decreases n
  {
    if n >= k {
      Shifts(versions, id, j, k, n - k);
      Repeats(versions, id, j, k, j + (n - k));
    }
  }

  lemma {:induction false} Shifts(versions: map<Id, Version>, id: Id, j: nat, k: nat, d: nat)
    requires Node(versions, id, j) == Node(versions, id, k)
    ensures Node(versions, id, j + d) == Node(versions, id, k + d)
  {
    if d > 0 {
      Shifts(versions, id, j, k, d - 1);
    }
  }

  // ---------------------------------------------------------------- creating

  function IdsOf(c: Chain, model: string): seq<Id> {
    if model in c.byModel then c.byModel[model] else []
  }

  function NewVersion(model: string, parent: Id, details: Details, id: Id, now: int): Version {
    Version(id, model, parent, now, true,
            details.(createdBy := if details.createdBy == "" then "user" else details.createdBy))
  }

  function Added(c: Chain, v: Version): Chain {
    Chain(c.versions[v.id := v], c.byModel[v.model := IdsOf(c, v.model) + [v.id]])
  }

  ghost function CreateOn(c: Chain, model: string, parent: Id, details: Details, id: Id, now: int): (Outcome, Chain) {
    if model == "" then (Failed(InvalidArgument), c)
    else if parent != "" && parent !in c.versions then (Failed(ParentNotFound), c)
    else if parent != "" && c.versions[parent].model != model then (Failed(InvalidArgument), c)
    else if Cyclic(c.versions, id, parent) then (Failed(VersionChainCycle), c)
    else
      var v := NewVersion(model, parent, details, id, now);
      (Created(v), Added(c, v))
  }

  // ---------------------------------------------------------------- the invariant

  predicate EntryOk(versions: map<Id, Version>, ids: seq<Id>, model: string, i: nat)
    requires i < |ids|
  {
    && ids[i] != "" && ids[i] in versions
    && var v := versions[ids[i]];
    && v.id == ids[i] && v.model == model && v.isImmutable
    && (v.parent == "" || v.parent in ids[..i])
    && ids[i] !in ids[..i]
  }

  predicate LineOk(versions: map<Id, Version>, ids: seq<Id>, model: string) {
    model != "" && forall i: nat | i < |ids| :: EntryOk(versions, ids, model, i)
  }

  /** Each version is listed once under its model, after its parent if it has one. */
  ghost predicate Inv(c: Chain) {
    && (forall m | m in c.byModel :: LineOk(c.versions, c.byModel[m], m))
    && forall id | id in c.versions :: c.versions[id].model in c.byModel && id in c.byModel[c.versions[id].model]
  }

  predicate Extends(c: Chain, c': Chain) {
    && (forall id | id in c.versions :: id in c'.versions && c'.versions[id] == c.versions[id])
    && forall m | m in c.byModel :: IdsOf(c, m) <= IdsOf(c', m)
  }

  lemma LineStays(c: Chain, v: Version, ids: seq<Id>, model: string)
    requires LineOk(c.versions, ids, model) && v.id !in c.versions
    ensures LineOk(c.versions[v.id := v], ids, model)
  {
    var versions := c.versions[v.id := v];
    forall i: nat | i < |ids| ensures EntryOk(versions, ids, model, i) {
      assert EntryOk(c.versions, ids, model, i);
    }
  }

  lemma LineGrows(c: Chain, v: Version)
    requires Inv(c) && v.id != "" && v.id !in c.versions && v.model != "" && v.isImmutable
    requires v.parent != "" ==> v.parent in c.versions && c.versions[v.parent].model == v.model
    ensures LineOk(c.versions[v.id := v], IdsOf(c, v.model) + [v.id], v.model)
  {
    var ids := IdsOf(c, v.model);
    var ids' := ids + [v.id];
    var versions := c.versions[v.id := v];
    LineStays(c, v, ids, v.model);
    forall i: nat | i < |ids'| ensures EntryOk(versions, ids', v.model, i) {
      if i < |ids| {
        assert EntryOk(versions, ids, v.model, i);
        assert ids'[..i] == ids[..i];
      } else {
        assert ids'[..i] == ids;
        forall j: nat | j < |ids| ensures ids[j] != v.id {
          assert EntryOk(c.versions, ids, v.model, j);
        }
      }
    }
  }

  lemma AddedKeeps(c: Chain, v: Version)
    requires Inv(c) && v.id != "" && v.id !in c.versions && v.model != "" && v.isImmutable
    requires v.parent != "" ==> v.parent in c.versions && c.versions[v.parent].model == v.model
    ensures Inv(Added(c, v)) && Extends(c, Added(c, v))
  {
    hide LineOk;
    LineGrows(c, v);
    var c' := Added(c, v);
    forall m | m in c'.byModel ensures LineOk(c'.versions, c'.byModel[m], m) {
      if m != v.model {
        LineStays(c, v, c.byModel[m], m);
      }
    }
  }

  /** Every walk from a stored version ends at a root, through earlier versions of its model. */
  lemma {:induction false} WalkEnds(c: Chain, model: string, i: nat) returns (n: nat)
    requires Inv(c) && model in c.byModel && i < |c.byModel[model]|
    ensures n <= i + 1 && Node(c.versions, c.byModel[model][i], n) == ""
    ensures forall k: nat | k < n :: Node(c.versions, c.byModel[model][i], k) in c.byModel[model][..i + 1]
    decreases i
  {
    var ids := c.byModel[model];
    assert EntryOk(c.versions, ids, model, i);
    var p := c.versions[ids[i]].parent;
    assert Node(c.versions, ids[i], 1) == p by {
      assert Node(c.versions, ids[i], 0) == ids[i];
    }
    if p == "" {
      n := 1;
    } else {
      var j: nat :| j < i && ids[j] == p;
      var m := WalkEnds(c, model, j);
      n := m + 1;
      forall k: nat | k <= m ensures Node(c.versions, ids[i], k + 1) == Node(c.versions, p, k) {
        NodeFromParent(c.versions, ids[i], k);
      }
      forall k: nat | k < n ensures Node(c.versions, ids[i], k) in ids[..i + 1] {
        if k > 0 {
          assert Node(c.versions, p, k - 1) in ids[..j + 1];
          assert Node(c.versions, ids[i], k - 1 + 1) == Node(c.versions, p, k - 1);
        }
      }
    }
  }

  lemma {:induction false} NodeFromParent(versions: map<Id, Version>, id: Id, k: nat)
    ensures Node(versions, id, k + 1) == Node(versions, ParentOf(versions, id), k)
  {
    if k > 0 {
      NodeFromParent(versions, id, k - 1);
    } else {
      assert Node(versions, id, 0) == id;
    }
  }

  /** From any stored parent the walk ends, and meets only stored versions of one model on the way. */
  lemma WalkFrom(c: Chain, parent: Id) returns (n: nat)
    requires Inv(c) && (parent != "" ==> parent in c.versions)
    ensures Node(c.versions, parent, n) == ""
    ensures forall k: nat | k < n :: Node(c.versions, parent, k) in c.versions && parent in c.versions
                                     && c.versions[Node(c.versions, parent, k)].model == c.versions[parent].model
  {
    if parent == "" {
      n := 0;
    } else {
      var model := c.versions[parent].model;
      var ids := c.byModel[model];
      var i: nat :| i < |ids| && ids[i] == parent;
      n := WalkEnds(c, model, i);
      forall k: nat | k < n ensures Node(c.versions, parent, k) in c.versions && c.versions[Node(c.versions, parent, k)].model == model {
        var j: nat :| j < i + 1 && ids[j] == Node(c.versions, parent, k);
        assert EntryOk(c.versions, ids, model, j);
      }
    }
  }

  /** A fresh identifier never closes a cycle. */
  lemma FreshIsAcyclic(c: Chain, id: Id, parent: Id)
    requires Inv(c) && id != "" && id !in c.versions && (parent != "" ==> parent in c.versions)
    ensures !Cyclic(c.versions, id, parent)
  {
    var n := WalkFrom(c, parent);
    forall k: nat ensures Node(c.versions, parent, k) != id {
      if k >= n {
        StaysEnded(c.versions, parent, n, k);
      }
    }
  }

  /** The version as it was asked for, made now. */
  predicate Describes(v: Version, model: string, parent: Id, details: Details, id: Id, now: int) {
    && v.id == id && v.model == model && v.parent == parent && v.createdAt == now && v.isImmutable
    && v.details.dataRange == details.dataRange && v.details.fidelity == details.fidelity
    && v.details.rows == details.rows && v.details.custom == details.custom
    && v.details.createdBy == (if details.createdBy == "" then "user" else details.createdBy)
  }

  /** Creating under a fresh identifier fails only for a bad model or parent, keeps the invariant
      and changes no stored version. */
  lemma CreateKeeps(c: Chain, model: string, parent: Id, details: Details, id: Id, now: int)
    requires Inv(c) && id != "" && id !in c.versions
    ensures var (r, c') := CreateOn(c, model, parent, details, id, now);
            && Inv(c') && Extends(c, c')
            && (r.Created? <==> model != "" && (parent == "" || (parent in c.versions && c.versions[parent].model == model)))
            && (r.Failed? ==> c' == c && r.error != VersionChainCycle)
            && (r.Created? ==> id in c'.versions && c'.versions[id] == r.version && Describes(r.version, model, parent, details, id, now))
  {
    hide Cyclic, LineOk;
    if model != "" && (parent == "" || (parent in c.versions && c.versions[parent].model == model)) {
      FreshIsAcyclic(c, id, parent);
      AddedKeeps(c, NewVersion(model, parent, details, id, now));
    } else if parent in c.versions {
      assert c.versions[parent].model != model || model == "";
    }
  }

  /** Without a fresh identifier the stored version of that name is lost, unless it is the same one. */
  lemma ReusedIdOverwrites(c: Chain, model: string, parent: Id, details: Details, id: Id, now: int)
    requires id in c.versions && CreateOn(c, model, parent, details, id, now).0.Created?
    ensures Extends(c, CreateOn(c, model, parent, details, id, now).1) <==>
            Describes(c.versions[id], model, parent, details, id, now)
  {
  }

  // ---------------------------------------------------------------- listing

  function VersionsOf(versions: map<Id, Version>, ids: seq<Id>): seq<Version> {
    if ids == [] then []
    else VersionsOf(versions, ids[..|ids| - 1])
         + (if ids[|ids| - 1] in versions then [versions[ids[|ids| - 1]]] else [])
  }

  predicate NewestFirst(vs: seq<Version>) {
    forall i, j | 0 <= i < j < |vs| :: vs[i].createdAt >= vs[j].createdAt
  }

  predicate OldestFirst(vs: seq<Version>) {
    forall i, j | 0 <= i < j < |vs| :: vs[i].createdAt <= vs[j].createdAt
  }

  /** The first `limit` versions of some newest-first order; equal times may come in any order. */
  ghost predicate Listing(vs: seq<Version>, all: seq<Version>, limit: nat) {
    exists full: seq<Version> ::
      && NewestFirst(full) && multiset(full) == multiset(all)
      && vs == full[..if |full| > limit then limit else |full|]
  }

  lemma {:induction false} ListedAt(c: Chain, model: string, n: nat)
    requires Inv(c) && n <= |IdsOf(c, model)|
    ensures var vs := VersionsOf(c.versions, IdsOf(c, model)[..n]);
            |vs| == n && forall i: nat | i < n :: vs[i].id == IdsOf(c, model)[i] && vs[i].model == model
                                                 && vs[i].id in c.versions && vs[i] == c.versions[vs[i].id]
  {
    if n > 0 {
      ListedAt(c, model, n - 1);
      var ids := IdsOf(c, model);
      assert EntryOk(c.versions, ids, model, n - 1);
      assert ids[..n][..n - 1] == ids[..n - 1];
    }
  }

  /** `vs` lists versions of one model that the chain stores. */
  predicate Stored(c: Chain, model: string, vs: seq<Version>) {
    forall v | v in vs :: v.model == model && v.id in c.versions && c.versions[v.id] == v
  }

  /** All versions of a model in the order of creation. */
  lemma ListsAll(c: Chain, model: string)
    requires Inv(c)
    ensures var vs := VersionsOf(c.versions, IdsOf(c, model));
            && Stored(c, model, vs)
            && (forall id | id in c.versions && c.versions[id].model == model :: c.versions[id] in vs)
            && (forall i, j | 0 <= i < j < |vs| :: vs[i].id != vs[j].id)
  {
    var ids := IdsOf(c, model);
    ListedAt(c, model, |ids|);
    assert ids[..|ids|] == ids;
    var vs := VersionsOf(c.versions, ids);
    forall id | id in c.versions && c.versions[id].model == model ensures c.versions[id] in vs {
      var i: nat :| i < |ids| && ids[i] == id;
      assert vs[i] == c.versions[id];
    }
    forall i, j | 0 <= i < j < |vs| ensures vs[i].id != vs[j].id {
      assert EntryOk(c.versions, ids, model, j);
      assert ids[i] in ids[..j];
    }
  }

  lemma SameElements(a: seq<Version>, b: seq<Version>)
    requires multiset(a) == multiset(b)
    ensures |a| == |b| && forall v :: v in a <==> v in b
  {
    assert |multiset(a)| == |multiset(b)|;
    forall v ensures v in a <==> v in b {
      assert v in multiset(a) <==> v in multiset(b);
    }
  }

  /** A listing leaves out only versions that are no newer than each of those listed. */
  lemma ListingIsNewest(vs: seq<Version>, all: seq<Version>, limit: nat)
    requires Listing(vs, all, limit)
    ensures NewestFirst(vs) && (forall v | v in vs :: v in all)
    ensures |vs| == if |all| > limit then limit else |all|
    ensures |all| <= limit ==> multiset(vs) == multiset(all)
    ensures forall v, w | v in all && v !in vs && w in vs :: v.createdAt <= w.createdAt
  {
    var full: seq<Version> :|
      && NewestFirst(full) && multiset(full) == multiset(all)
      && vs == full[..if |full| > limit then limit else |full|];
    SameElements(full, all);
    if |all| <= limit {
      assert vs == full;
    }
    assert forall k: nat | k < |vs| :: full[k] == vs[k];
    forall v, w | v in all && v !in vs && w in vs ensures v.createdAt <= w.createdAt {
      var i: nat :| i < |full| && full[i] == v;
      var j: nat :| j < |vs| && vs[j] == w;
      assert full[j] == w;
    }
  }

  // ---------------------------------------------------------------- runs of creations

  datatype Creation = Creation(model: string, parent: Id, details: Details, id: Id, now: int)

  ghost function After(ops: seq<Creation>): Chain
    decreases |ops|
  {
    if ops == [] then Chain(map[], map[])
    else var op := ops[|ops| - 1]; CreateOn(After(ops[..|ops| - 1]), op.model, op.parent, op.details, op.id, op.now).1
  }

  /** Every creation draws a new identifier. */
  predicate FreshIds(ops: seq<Creation>) {
    (forall i | 0 <= i < |ops| :: ops[i].id != "") && forall i, j | 0 <= i < j < |ops| :: ops[i].id != ops[j].id
  }

  /** Creation `i` is accepted: it names a model and, if it names a parent, an earlier accepted
      creation of the same model. */
  predicate Accepted(ops: seq<Creation>, i: nat)
    requires i < |ops|
    decreases i
  {
    ops[i].model != "" &&
    (ops[i].parent == "" || exists j: nat :: j < i && ops[j].id == ops[i].parent && ops[j].model == ops[i].model && Accepted(ops, j))
  }

  /** Version `v` was made by creation `i`. */
  predicate MadeBy(v: Version, ops: seq<Creation>, i: nat) {
    i < |ops| && Describes(v, ops[i].model, ops[i].parent, ops[i].details, ops[i].id, ops[i].now)
  }

  /** The accepted creations of the model among the first `n`, in their order. */
  function MadeFor(ops: seq<Creation>, model: string, n: nat): (made: seq<nat>)
    requires n <= |ops|
    ensures forall i: nat :: i in made <==> i < n && ops[i].model == model && Accepted(ops, i)
    ensures forall j, k | 0 <= j < k < |made| :: made[j] < made[k]
  {
    if n == 0 then []
    else if ops[n - 1].model == model && Accepted(ops, n - 1) then
      var before := MadeFor(ops, model, n - 1);
      assert forall j | 0 <= j < |before| :: before[j] in before;
      before + [n - 1]
    else MadeFor(ops, model, n - 1)
  }

  /** The versions are those of the accepted creations among the first `n`. */
  ghost predicate HoldsAccepted(versions: map<Id, Version>, ops: seq<Creation>, n: nat)
    requires n <= |ops|
  {
    && (forall id :: id in versions <==> exists i: nat :: i < n && ops[i].id == id && Accepted(ops, i))
    && forall i: nat | i < n && Accepted(ops, i) :: ops[i].id in versions && MadeBy(versions[ops[i].id], ops, i)
  }

  /** Each model lists its accepted creations in order. */
  ghost predicate ListsAccepted(c: Chain, ops: seq<Creation>, n: nat)
    requires n <= |ops|
  {
    forall model :: IdsAre(IdsOf(c, model), ops, MadeFor(ops, model, n))
  }

  ghost predicate Holds(c: Chain, ops: seq<Creation>, n: nat)
    requires n <= |ops|
  {
    HoldsAccepted(c.versions, ops, n) && ListsAccepted(c, ops, n)
  }

  predicate IdsAre(ids: seq<Id>, ops: seq<Creation>, made: seq<nat>) {
    |ids| == |made| && forall k | 0 <= k < |made| :: made[k] < |ops| && ids[k] == ops[made[k]].id
  }

  lemma CreationAccepted(c: Chain, ops: seq<Creation>, n: nat)
    requires n < |ops| && FreshIds(ops) && Holds(c, ops, n)
    ensures ops[n].id !in c.versions
    ensures Accepted(ops, n) <==> ops[n].model != "" && (ops[n].parent == "" || (ops[n].parent in c.versions && c.versions[ops[n].parent].model == ops[n].model))
  {
    hide IdsAre;
    var parent := ops[n].parent;
    if parent != "" && parent in c.versions {
      var j: nat :| j < n && ops[j].id == parent && Accepted(ops, j);
      assert MadeBy(c.versions[parent], ops, j);
    }
  }

  /** Over every run of creations with new identifiers the chain holds exactly the accepted ones, as
      they were asked for, in the order in which they were made. */
  lemma {:induction false} RunHolds(ops: seq<Creation>, n: nat)
    requires n <= |ops| && FreshIds(ops)
    ensures Inv(After(ops[..n])) && Holds(After(ops[..n]), ops, n)
  {
    if n == 0 {
      assert ops[..0] == [];
    } else {
      assert ops[..n][..n - 1] == ops[..n - 1];
      RunHolds(ops, n - 1);
      var c, op := After(ops[..n - 1]), ops[n - 1];
      CreationAccepted(c, ops, n - 1);
      CreateKeeps(c, op.model, op.parent, op.details, op.id, op.now);
      CreationHolds(c, ops, n - 1);
    }
  }

  lemma CreationAdds(c: Chain, ops: seq<Creation>, n: nat) returns (v: Version)
    requires n < |ops| && FreshIds(ops) && Inv(c) && Holds(c, ops, n)
    ensures var op := ops[n]; var c' := CreateOn(c, op.model, op.parent, op.details, op.id, op.now).1;
            if Accepted(ops, n) then c' == Added(c, v) && MadeBy(v, ops, n) else c' == c
  {
    hide Cyclic, Inv, Holds;
    var op := ops[n];
    CreationAccepted(c, ops, n);
    CreateKeeps(c, op.model, op.parent, op.details, op.id, op.now);
    v := NewVersion(op.model, op.parent, op.details, op.id, op.now);
  }

  lemma CreationHolds(c: Chain, ops: seq<Creation>, n: nat)
    requires n < |ops| && FreshIds(ops) && Inv(c) && Holds(c, ops, n)
    ensures var op := ops[n]; Holds(CreateOn(c, op.model, op.parent, op.details, op.id, op.now).1, ops, n + 1)
  {
    hide Inv, CreateOn, Accepted, MadeBy, Added, Holds;
    var v := CreationAdds(c, ops, n);
    if Accepted(ops, n) {
      CreationAccepted(c, ops, n);
      DescribedId(v, ops, n);
      AddedHolds(c, ops, n, v);
    } else {
      RejectedHolds(c, ops, n);
    }
  }

  lemma RejectedHolds(c: Chain, ops: seq<Creation>, n: nat)
    requires n < |ops| && Holds(c, ops, n) && !Accepted(ops, n)
    ensures Holds(c, ops, n + 1)
  {
    hide IdsAre, MadeBy, Accepted;
    forall model ensures IdsAre(IdsOf(c, model), ops, MadeFor(ops, model, n + 1)) {
      assert MadeFor(ops, model, n + 1) == MadeFor(ops, model, n);
      assert IdsAre(IdsOf(c, model), ops, MadeFor(ops, model, n));
    }
    hide MadeFor;
  }

  lemma AddedHolds(c: Chain, ops: seq<Creation>, n: nat, v: Version)
    requires n < |ops| && FreshIds(ops) && Holds(c, ops, n) && Accepted(ops, n) && MadeBy(v, ops, n) && v.id !in c.versions
    ensures Holds(Added(c, v), ops, n + 1)
  {
    hide HoldsAccepted, ListsAccepted;
    VersionAdded(c.versions, ops, n, v);
    IdAdded(c, ops, n, v);
  }

  lemma VersionAdded(versions: map<Id, Version>, ops: seq<Creation>, n: nat, v: Version)
    requires n < |ops| && FreshIds(ops) && HoldsAccepted(versions, ops, n) && Accepted(ops, n) && MadeBy(v, ops, n) && v.id !in versions
    ensures HoldsAccepted(versions[v.id := v], ops, n + 1)
  {
    var versions' := versions[v.id := v];
    assert v.id == ops[n].id;
    hide Accepted, MadeBy;
    forall id ensures id in versions' <==> exists i: nat :: i < n + 1 && ops[i].id == id && Accepted(ops, i) {
      if id != v.id && id in versions {
        var i: nat :| i < n && ops[i].id == id && Accepted(ops, i);
        assert i < n + 1;
      }
    }
  }

  lemma MadeForNext(ops: seq<Creation>, model: string, n: nat)
    requires n < |ops| && Accepted(ops, n)
    ensures MadeFor(ops, model, n + 1) == if model == ops[n].model then MadeFor(ops, model, n) + [n] else MadeFor(ops, model, n)
  {
    hide Accepted;
  }

  lemma IdAdded(c: Chain, ops: seq<Creation>, n: nat, v: Version)
    requires n < |ops| && ListsAccepted(c, ops, n) && Accepted(ops, n) && MadeBy(v, ops, n)
    ensures ListsAccepted(Added(c, v), ops, n + 1)
  {
    assert v.id == ops[n].id && v.model == ops[n].model;
    hide MadeFor, MadeBy, Accepted, FreshIds;
    forall model ensures IdsAre(IdsOf(Added(c, v), model), ops, MadeFor(ops, model, n + 1)) {
      assert IdsAre(IdsOf(c, model), ops, MadeFor(ops, model, n));
      MadeForNext(ops, model, n);
    }
  }

  // ---------------------------------------------------------------- listings over runs

  /** The clock moves on between creations. */
  predicate TimesIncrease(ops: seq<Creation>) { forall i, j | 0 <= i < j < |ops| :: ops[i].now < ops[j].now }

  predicate StrictlyNewestFirst(vs: seq<Version>) { forall i, j | 0 <= i < j < |vs| :: vs[i].createdAt > vs[j].createdAt }

  lemma SameNewest(a: seq<Version>, b: seq<Version>)
    requires a != [] && b != [] && NewestFirst(a) && StrictlyNewestFirst(b) && multiset(a) == multiset(b)
    ensures a[0] == b[0]
  {
    SameElements(a, b);
    assert b[0] in b && a[0] in a;
    var k: nat :| k < |a| && a[k] == b[0];
    var j: nat :| j < |b| && b[j] == a[0];
    assert a[0].createdAt >= a[k].createdAt by { assert k == 0 || k > 0; }
  }

  lemma OrderIsUnique(a: seq<Version>, b: seq<Version>)
    requires NewestFirst(a) && StrictlyNewestFirst(b) && multiset(a) == multiset(b)
    ensures a == b
    decreases |a|
  {
    SameElements(a, b);
    if a != [] {
      SameNewest(a, b);
      assert NewestFirst(a[1..]) && StrictlyNewestFirst(b[1..]);
      hide NewestFirst, StrictlyNewestFirst;
      SameTails(a, b);
      OrderIsUnique(a[1..], b[1..]);
    }
  }

  lemma SameTails(a: seq<Version>, b: seq<Version>)
    requires a != [] && b != [] && a[0] == b[0] && multiset(a) == multiset(b)
    ensures multiset(a[1..]) == multiset(b[1..])
    ensures a[1..] == b[1..] ==> a == b
  {
    assert a == [a[0]] + a[1..] && b == [b[0]] + b[1..];
    assert multiset(a) == multiset{a[0]} + multiset(a[1..]) && multiset(b) == multiset{b[0]} + multiset(b[1..]);
    assert multiset(a[1..]) == multiset(a) - multiset{a[0]} && multiset(b[1..]) == multiset(b) - multiset{b[0]};
  }

  lemma DescribedId(v: Version, ops: seq<Creation>, i: nat)
    requires MadeBy(v, ops, i)
    ensures v.id == ops[i].id
  {
  }

  /** Over every run of creations with new identifiers and increasing times, a listing shows the
      accepted creations of the model in the reverse order of creation, up to the limit; so the last
      one is listed first. */
  lemma ListingIsReverse(ops: seq<Creation>, model: string, limit: nat, listed: seq<Version>)
    requires FreshIds(ops) && TimesIncrease(ops)
    requires Listing(listed, VersionsOf(After(ops).versions, IdsOf(After(ops), model)), limit)
    ensures var made := MadeFor(ops, model, |ops|);
            && |listed| == (if |made| > limit then limit else |made|)
            && forall k | 0 <= k < |listed| :: MadeBy(listed[k], ops, made[|made| - 1 - k])
  {
    hide Inv, MadeBy, NewestFirst, Listing, Accepted, MadeFor, VersionsOf, Holds, StrictlyNewestFirst, After, FreshIds, TimesIncrease;
    var c, made := After(ops), MadeFor(ops, model, |ops|);
    assert ops[..|ops|] == ops;
    RunHolds(ops, |ops|);
    var all := VersionsOf(c.versions, IdsOf(c, model));
    MadeAt(c, ops, model);
    var reverse := seq(|all|, k requires 0 <= k < |all| => all[|all| - 1 - k]);
    ReverseElements(all, reverse);
    var full := FullListing(listed, all, limit);
    assert forall k | 0 <= k < |reverse| :: MadeBy(reverse[k], ops, made[|made| - 1 - k]);
    ReverseIsNewestFirst(ops, model, reverse);
    OrderIsUnique(full, reverse);
  }

  lemma ReverseIsNewestFirst(ops: seq<Creation>, model: string, reverse: seq<Version>)
    requires TimesIncrease(ops)
    requires var made := MadeFor(ops, model, |ops|);
             |reverse| == |made| && forall k | 0 <= k < |reverse| :: MadeBy(reverse[k], ops, made[|made| - 1 - k])
    ensures StrictlyNewestFirst(reverse)
  {
    hide Accepted, MadeBy;
    var made := MadeFor(ops, model, |ops|);
    forall i, j | 0 <= i < j < |reverse| ensures reverse[i].createdAt > reverse[j].createdAt {
      TimeOf(reverse[i], ops, made[|made| - 1 - i]);
      TimeOf(reverse[j], ops, made[|made| - 1 - j]);
    }
  }

  lemma FullListing(listed: seq<Version>, all: seq<Version>, limit: nat) returns (full: seq<Version>)
    requires Listing(listed, all, limit)
    ensures NewestFirst(full) && multiset(full) == multiset(all) && listed == full[..if |full| > limit then limit else |full|]
  {
    full :|
      && NewestFirst(full) && multiset(full) == multiset(all)
      && listed == full[..if |full| > limit then limit else |full|];
  }

  lemma TimeOf(v: Version, ops: seq<Creation>, i: nat)
    requires MadeBy(v, ops, i)
    ensures i < |ops| && v.createdAt == ops[i].now
  {
  }

  lemma MadeAt(c: Chain, ops: seq<Creation>, model: string)
    requires Inv(c) && Holds(c, ops, |ops|)
    ensures var vs, made := VersionsOf(c.versions, IdsOf(c, model)), MadeFor(ops, model, |ops|);
            |vs| == |made| && forall k | 0 <= k < |vs| :: made[k] < |ops| && MadeBy(vs[k], ops, made[k])
  {
    hide Inv, Accepted, MadeBy;
    var ids, made := IdsOf(c, model), MadeFor(ops, model, |ops|);
    ListedAt(c, model, |ids|);
    assert ids[..|ids|] == ids && IdsAre(ids, ops, made);
    forall k | 0 <= k < |made| ensures MadeBy(VersionsOf(c.versions, ids)[k], ops, made[k]) {
      assert made[k] in made;
    }
  }

  lemma {:induction false} ReverseElements(a: seq<Version>, b: seq<Version>)
    requires |a| == |b| && forall k | 0 <= k < |a| :: b[k] == a[|a| - 1 - k]
    ensures multiset(a) == multiset(b)
    decreases |a|
  {
    if a != [] {
      var n := |a| - 1;
      ReverseElements(a[..n], b[1..]);
      assert a == a[..n] + [a[n]] && b == [b[0]] + b[1..];
    }
  }
}
