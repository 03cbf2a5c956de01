/** Compaction on values: the versions of a model that nothing shields are merged into one new
    version, and over every run the chain keeps its parents and its stored versions. */
module Compaction {
  import opened Common
  import opened VersionChain

  const LISTED := 100000

  datatype CompactionResult = CompactionResult(compacted: seq<Id>, merged: Id)

  /** The identifiers of the last `keep` of these versions. */
  function Recent(order: seq<Version>, keep: int): set<Id> {
    set i | 0 <= i < |order| && i >= |order| - keep :: order[i].id
  }

  function Shielded(order: seq<Version>, shield: set<Id>, keep: int): set<Id> {
    shield + Recent(order, keep)
  }

  function Outside(vs: seq<Version>, ids: set<Id>): (rest: seq<Version>)
    ensures forall v :: v in rest <==> v in vs && v.id !in ids
  {
    if vs == [] then []
    else Outside(vs[..|vs| - 1], ids) + (if vs[|vs| - 1].id in ids then [] else [vs[|vs| - 1]])
  }

  function RowSum(vs: seq<Version>): int {
    if vs == [] then 0 else RowSum(vs[..|vs| - 1]) + vs[|vs| - 1].details.rows
  }

  function LowestFidelity(vs: seq<Version>): real
    requires vs != []
  {
    var last := vs[|vs| - 1].details.fidelity;
    if |vs| == 1 then last
    else var x := LowestFidelity(vs[..|vs| - 1]); if last < x then last else x
  }

  lemma {:induction false} LowestIsLeast(vs: seq<Version>)
    requires vs != []
    ensures exists v :: v in vs && v.details.fidelity == LowestFidelity(vs)
    ensures forall v | v in vs :: LowestFidelity(vs) <= v.details.fidelity
  {
    var n := |vs| - 1;
    assert forall v :: v in vs <==> v in vs[..n] || v == vs[n];
    if n > 0 {
      LowestIsLeast(vs[..n]);
    }
  }

  /** The custom metadata of all, the later overwriting the earlier. */
  function MergedCustom(vs: seq<Version>): map<string, string> {
    if vs == [] then map[] else MergedCustom(vs[..|vs| - 1]) + vs[|vs| - 1].details.custom
  }

  function MergedDetails(vs: seq<Version>): Details
    requires vs != []
  {
    Details("auto_compact", vs[0].details.dataRange, LowestFidelity(vs), RowSum(vs), MergedCustom(vs))
  }

  /** Compaction of the versions in `order`, oldest first. */
  ghost function CompactOn(c: Chain, order: seq<Version>, shield: set<Id>, keep: int, id: Id, now: int)
    : (Option<Outcome>, Chain)
  {
    var rest := Outside(order, Shielded(order, shield, keep));
    if |rest| < 2 then (None, c)
    else
      var (r, c') := CreateOn(c, rest[0].model, rest[0].parent, MergedDetails(rest), id, now);
      (Some(r), c')
  }

  /** What one more version adds to each of the sums. */
  lemma OneMore(vs: seq<Version>, n: nat, ids: set<Id>)
    requires n < |vs|
    ensures RowSum(vs[..n + 1]) == RowSum(vs[..n]) + vs[n].details.rows
    ensures MergedCustom(vs[..n + 1]) == MergedCustom(vs[..n]) + vs[n].details.custom
    ensures n == 0 ==> LowestFidelity(vs[..n + 1]) == vs[n].details.fidelity
    ensures n > 0 ==> LowestFidelity(vs[..n + 1]) ==
                      if vs[n].details.fidelity < LowestFidelity(vs[..n]) then vs[n].details.fidelity else LowestFidelity(vs[..n])
    ensures |Outside(vs[..n + 1], ids)| == |Outside(vs[..n], ids)| + if vs[n].id in ids then 0 else 1
  {
    assert vs[..n + 1][..n] == vs[..n];
  }

  // ---------------------------------------------------------------- order does not matter

  function FreeRows(vs: seq<Version>, ids: set<Id>): int { RowSum(Outside(vs, ids)) }

  lemma {:induction false} OutsideConcat(a: seq<Version>, b: seq<Version>, ids: set<Id>)
    ensures Outside(a + b, ids) == Outside(a, ids) + Outside(b, ids)
    decreases |b|
  {
    if b == [] {
      assert a + b == a;
    } else {
      assert (a + b)[..|a + b| - 1] == a + b[..|b| - 1];
      OutsideConcat(a, b[..|b| - 1], ids);
    }
  }

  /** The sum of no versions is zero, that of one is its rows, and sums add up. */
  lemma {:induction false} RowSumConcat(a: seq<Version>, b: seq<Version>)
    ensures RowSum(a + b) == RowSum(a) + RowSum(b)
    ensures a == [] ==> RowSum(a) == 0
    ensures |a| == 1 ==> RowSum(a) == a[0].details.rows
    decreases |b|
  {
    if b == [] {
      assert a + b == a;
    } else {
      assert (a + b)[..|a + b| - 1] == a + b[..|b| - 1];
      RowSumConcat(a, b[..|b| - 1]);
    }
  }

  lemma FreeRowsConcat(a: seq<Version>, b: seq<Version>, ids: set<Id>)
    ensures FreeRows(a + b, ids) == FreeRows(a, ids) + FreeRows(b, ids)
  {
    hide Outside, RowSum;
    OutsideConcat(a, b, ids);
    RowSumConcat(Outside(a, ids), Outside(b, ids));
  }

  /** A version taken out anywhere takes its own rows. */
  lemma FreeRowsWithout(vs: seq<Version>, ids: set<Id>, i: nat)
    requires i < |vs|
    ensures FreeRows(vs, ids) == FreeRows(vs[..i] + vs[i + 1..], ids) + FreeRows([vs[i]], ids)
  {
    hide FreeRows;
    assert vs == (vs[..i] + [vs[i]]) + vs[i + 1..];
    FreeRowsConcat(vs[..i] + [vs[i]], vs[i + 1..], ids);
    FreeRowsConcat(vs[..i], [vs[i]], ids);
    FreeRowsConcat(vs[..i], vs[i + 1..], ids);
  }

  lemma WithoutElement(vs: seq<Version>, i: nat)
    requires i < |vs|
    ensures multiset(vs[..i] + vs[i + 1..]) == multiset(vs) - multiset{vs[i]}
  {
    assert vs == vs[..i] + [vs[i]] + vs[i + 1..];
  }

  lemma {:induction false} FreeRowsOfAnyOrder(a: seq<Version>, b: seq<Version>, ids: set<Id>)
    requires multiset(a) == multiset(b)
    ensures FreeRows(a, ids) == FreeRows(b, ids)
    decreases |a|
  {
    hide FreeRows;
    SameElements(a, b);
    if a != [] {
      assert a[0] in b;
      var i: nat :| i < |b| && b[i] == a[0];
      FreeRowsWithout(a, ids, 0);
      FreeRowsWithout(b, ids, i);
      WithoutElement(a, 0);
      WithoutElement(b, i);
      FreeRowsOfAnyOrder(a[..0] + a[1..], b[..i] + b[i + 1..], ids);
    }
  }

  lemma {:induction false} LastValueWins(vs: seq<Version>, key: string)
    ensures key in MergedCustom(vs) <==> exists i :: 0 <= i < |vs| && key in vs[i].details.custom
    ensures key in MergedCustom(vs) ==>
              exists i :: && 0 <= i < |vs| && key in vs[i].details.custom && MergedCustom(vs)[key] == vs[i].details.custom[key]
                          && forall j | i < j < |vs| :: key !in vs[j].details.custom
  {
    if vs != [] {
      var n := |vs| - 1;
      LastValueWins(vs[..n], key);
      if key in vs[n].details.custom {
        assert MergedCustom(vs)[key] == vs[n].details.custom[key];
      } else if key in MergedCustom(vs) {
        var i :| && 0 <= i < n && key in vs[..n][i].details.custom && MergedCustom(vs[..n])[key] == vs[..n][i].details.custom[key]
                 && forall j | i < j < n :: key !in vs[..n][j].details.custom;
        assert vs[i] == vs[..n][i];
        forall j | i < j < |vs| ensures key !in vs[j].details.custom {
          assert j < n ==> vs[j] == vs[..n][j];
        }
      }
    }
  }

  // ---------------------------------------------------------------- compaction

  /** The newest versions up to the listing limit, oldest first; equal times may come in any order. */
  ghost predicate Arranged(order: seq<Version>, all: seq<Version>) {
    OldestFirst(order) && exists list :: Listing(list, all, LISTED) && multiset(order) == multiset(list)
  }

  lemma ArrangedIsNewest(order: seq<Version>, all: seq<Version>)
    requires Arranged(order, all)
    ensures forall v | v in order :: v in all
    ensures |all| <= LISTED ==> multiset(order) == multiset(all)
  {
    var list :| Listing(list, all, LISTED) && multiset(order) == multiset(list);
    ListingIsNewest(list, all, LISTED);
    SameElements(order, list);
  }

  lemma ListedAreStored(c: Chain, model: string, order: seq<Version>)
    requires Inv(c) && forall v | v in order :: v in VersionsOf(c.versions, IdsOf(c, model))
    ensures Stored(c, model, order)
  {
    ListsAll(c, model);
  }

  lemma ParentIsStored(c: Chain, v: Version)
    requires Inv(c) && v.id in c.versions && c.versions[v.id] == v
    ensures v.model != ""
    ensures v.parent == "" || (v.parent in c.versions && c.versions[v.parent].model == v.model)
  {
    var ids := c.byModel[v.model];
    var i: nat :| i < |ids| && ids[i] == v.id;
    assert EntryOk(c.versions, ids, v.model, i);
    if v.parent != "" {
      var j: nat :| j < i && ids[j] == v.parent;
      assert EntryOk(c.versions, ids, v.model, j);
    }
  }

  /** `v` takes the place of the oldest of `rest` in the forest and sums up all of `rest`. */
  ghost predicate SumsUp(v: Version, model: string, rest: seq<Version>)
    requires rest != []
  {
    && v.model == model && v.parent == rest[0].parent
    && v.details.createdBy == "auto_compact" && v.details.dataRange == rest[0].details.dataRange
    && v.details.custom == MergedCustom(rest) && v.details.rows == RowSum(rest)
    && (exists w :: w in rest && v.details.fidelity == w.details.fidelity)
    && forall w | w in rest :: v.details.fidelity <= w.details.fidelity
  }

  /** Compaction under a fresh identifier never fails. It adds nothing, or exactly one version,
      which sums up the unshielded versions. */
  lemma CompactMerges(c: Chain, model: string, order: seq<Version>, shield: set<Id>, keep: int, id: Id, now: int)
    requires Inv(c) && Stored(c, model, order) && id != "" && id !in c.versions
    ensures var (r, c') := CompactOn(c, order, shield, keep, id, now);
            var rest := Outside(order, Shielded(order, shield, keep));
            && Inv(c') && Extends(c, c')
            && (|rest| < 2 ==> r == None && c' == c)
            && (|rest| >= 2 ==>
                  && c'.versions.Keys == c.versions.Keys + {id}
                  && r == Some(Created(c'.versions[id])) && SumsUp(c'.versions[id], model, rest)
                  && c'.versions[id].id == id && c'.versions[id].createdAt == now)
  {
    hide Inv, Extends, Outside, RowSum, MergedCustom, LowestFidelity, Cyclic;
    var rest := Outside(order, Shielded(order, shield, keep));
    if |rest| >= 2 {
      assert rest[0] in rest;
      ParentIsStored(c, rest[0]);
      LowestIsLeast(rest);
      CreateKeeps(c, model, rest[0].parent, MergedDetails(rest), id, now);
    } else {
      ExtendsItself(c);
    }
  }

  /** For a model within the listing limit the sort order is immaterial: rows and fidelity are
      those of all its unshielded versions, whichever way ties were sorted. */
  lemma CompactSumsModel(c: Chain, model: string, order: seq<Version>, shield: set<Id>, keep: int, id: Id, now: int)
    requires Inv(c) && id != "" && id !in c.versions
    requires |VersionsOf(c.versions, IdsOf(c, model))| <= 100000
    requires Arranged(order, VersionsOf(c.versions, IdsOf(c, model)))
    requires |Outside(order, Shielded(order, shield, keep))| >= 2
    ensures var (r, c') := CompactOn(c, order, shield, keep, id, now);
            var all := VersionsOf(c.versions, IdsOf(c, model));
            var free := set v | v in all && v.id !in Shielded(order, shield, keep);
            && id in c'.versions
            && c'.versions[id].details.rows == RowSum(Outside(all, Shielded(order, shield, keep)))
            && (exists v :: v in free && v.details.fidelity == c'.versions[id].details.fidelity)
            && (forall v | v in free :: c'.versions[id].details.fidelity <= v.details.fidelity)
  {
    hide RowSum, CompactOn, MergedCustom, LowestFidelity;
    var all := VersionsOf(c.versions, IdsOf(c, model));
    ArrangedIsNewest(order, all);
    SameElements(order, all);
    ListedAreStored(c, model, order);
    CompactMerges(c, model, order, shield, keep, id, now);
    FreeRowsOfAnyOrder(order, all, Shielded(order, shield, keep));
  }

  /** Merged is exactly what nothing shields and what has at least `keep` versions behind it in the
      order of time, none of them older. */
  lemma ShieldedStay(order: seq<Version>, shield: set<Id>, keep: int, k: nat)
    requires OldestFirst(order) && k < |order| && DistinctIds(order)
    ensures order[k] in Outside(order, Shielded(order, shield, keep)) <==> order[k].id !in shield && |order| - 1 - k >= keep
    ensures forall i | k < i < |order| :: order[k].createdAt <= order[i].createdAt
  {
    assert order[k].id in Recent(order, keep) <==> k >= |order| - keep;
  }

  predicate DistinctIds(order: seq<Version>) { forall i, j | 0 <= i < j < |order| :: order[i].id != order[j].id }

  lemma {:induction false} OccursOnce(vs: seq<Version>, v: Version)
    requires DistinctIds(vs)
    ensures multiset(vs)[v] <= 1
    decreases |vs|
  {
    if vs != [] {
      var n := |vs| - 1;
      assert vs == vs[..n] + [vs[n]];
      OccursOnce(vs[..n], v);
      if v == vs[n] { assert v !in vs[..n]; }
    }
  }

  lemma OccursTwice(vs: seq<Version>, i: nat, j: nat)
    requires i < j < |vs| && vs[i] == vs[j]
    ensures multiset(vs)[vs[i]] >= 2
  {
    assert vs == vs[..j] + vs[j..] && vs[i] in vs[..j] && vs[j] in vs[j..];
  }

  /** The versions that a compaction works on have different identifiers. */
  lemma ArrangedAreDistinct(c: Chain, model: string, order: seq<Version>)
    requires Inv(c) && Arranged(order, VersionsOf(c.versions, IdsOf(c, model)))
    ensures DistinctIds(order)
  {
    hide Inv, VersionsOf;
    var all := VersionsOf(c.versions, IdsOf(c, model));
    ListsAll(c, model);
    ArrangedIsNewest(order, all);
    var list :| Listing(list, all, LISTED) && multiset(order) == multiset(list);
    var full := FullListing(list, all, LISTED);
    assert full == list + full[|list|..];
    assert forall v :: multiset(order)[v] <= multiset(all)[v];
    forall i, j | 0 <= i < j < |order| ensures order[i].id != order[j].id {
      assert order[i] in order && order[j] in order;
      if order[i].id == order[j].id {
        OccursTwice(order, i, j);
        OccursOnce(all, order[i]);
        assert false;
      }
    }
  }

  lemma OneMoreRecent(order: seq<Version>, n: nat)
    requires DistinctIds(order) && 0 < n <= |order|
    ensures var id := order[|order| - n].id; Recent(order, n) == Recent(order, n - 1) + {id} && id !in Recent(order, n - 1)
  {
    var first := |order| - n;
    forall id ensures id in Recent(order, n) <==> id in Recent(order, n - 1) || id == order[first].id {
      if id in Recent(order, n) {
        var i :| 0 <= i < |order| && i >= first && order[i].id == id;
        assert i == first || id in Recent(order, n - 1);
      }
    }
  }

  /** The number of versions kept for being recent is `keep`, as far as there are any. */
  lemma {:induction false} RecentAreAsMany(order: seq<Version>, keep: nat)
    requires DistinctIds(order)
    ensures |Recent(order, keep)| == if keep < |order| then keep else |order|
    decreases keep
  {
    if keep > |order| {
      assert Recent(order, keep) == Recent(order, keep - 1);
      hide Recent, DistinctIds;
      RecentAreAsMany(order, keep - 1);
    } else if keep > 0 {
      OneMoreRecent(order, keep);
      hide Recent, DistinctIds;
      RecentAreAsMany(order, keep - 1);
    } else {
      assert Recent(order, keep) == {};
    }
  }

  // ---------------------------------------------------------------- runs

  datatype Op =
    | Create(model: string, parent: Id, details: Details, id: Id, now: int)
    | Modify(target: Id)
    | Compact(model: string, order: seq<Version>, shield: set<Id>, keep: int, id: Id, now: int)

  ghost function Step(c: Chain, op: Op): Chain {
    match op
    case Create(model, parent, details, id, now) => CreateOn(c, model, parent, details, id, now).1
    case Modify(_) => c
    case Compact(model, order, shield, keep, id, now) => CompactOn(c, order, shield, keep, id, now).1
  }

  /** The identifier is fresh, and a compaction works on a listing of the model, oldest first. */
  ghost predicate Fits(c: Chain, op: Op) {
    match op
    case Create(_, _, _, id, _) => id != "" && id !in c.versions
    case Modify(_) => true
    case Compact(model, order, _, _, id, _) =>
      id != "" && id !in c.versions && Arranged(order, VersionsOf(c.versions, IdsOf(c, model)))
  }

  ghost function Run(ops: seq<Op>): Chain {
    if ops == [] then Chain(map[], map[]) else Step(Run(ops[..|ops| - 1]), ops[|ops| - 1])
  }

  ghost predicate RunFits(ops: seq<Op>) {
    ops != [] ==> RunFits(ops[..|ops| - 1]) && Fits(Run(ops[..|ops| - 1]), ops[|ops| - 1])
  }

  lemma StepKeeps(c: Chain, op: Op)
    requires Inv(c) && Fits(c, op)
    ensures Inv(Step(c, op)) && Extends(c, Step(c, op))
  {
    hide Inv, Extends, CreateOn, CompactOn;
    match op
    case Create(model, parent, details, id, now) => CreateKeeps(c, model, parent, details, id, now);
    case Modify(_) => ExtendsItself(c);
    case Compact(model, order, shield, keep, id, now) =>
      ArrangedIsNewest(order, VersionsOf(c.versions, IdsOf(c, model)));
      ListedAreStored(c, model, order);
      CompactMerges(c, model, order, shield, keep, id, now);
  }

  lemma ExtendsItself(c: Chain)
    ensures Extends(c, c)
  {
  }

  /** Over every run the parents stay earlier versions of the same model. */
  lemma {:induction false} RunKeeps(ops: seq<Op>)
    requires RunFits(ops)
    ensures Inv(Run(ops))
    decreases |ops|
  {
    if ops != [] {
      RunKeeps(ops[..|ops| - 1]);
      StepKeeps(Run(ops[..|ops| - 1]), ops[|ops| - 1]);
    }
  }

  /** No stored version is ever changed or lost, and the versions of a model keep their order. */
  lemma {:induction false} NothingChanges(ops: seq<Op>, n: nat)
    requires RunFits(ops) && n <= |ops|
    ensures Extends(Run(ops[..n]), Run(ops))
    decreases |ops|
  {
    if n < |ops| {
      hide Extends;
      var before := ops[..|ops| - 1];
      assert before[..n] == ops[..n];
      NothingChanges(before, n);
      RunKeeps(before);
      StepKeeps(Run(before), ops[|ops| - 1]);
      ExtendsMore(Run(ops[..n]), Run(before), Run(ops));
    } else {
      assert ops[..n] == ops;
    }
  }

  lemma ExtendsMore(a: Chain, b: Chain, c: Chain)
    requires Extends(a, b) && Extends(b, c)
    ensures Extends(a, c)
  {
    forall m | m in a.byModel ensures IdsOf(a, m) <= IdsOf(c, m) {
      if m !in b.byModel {
        assert IdsOf(b, m) == [] && IdsOf(a, m) == [];
      }
    }
  }

  /** Over every run each parent walk ends at a root, and passes only stored versions of one model. */
  lemma RunWalksEnd(ops: seq<Op>, id: Id) returns (n: nat)
    requires RunFits(ops) && id in Run(ops).versions
    ensures n > 0 && Node(Run(ops).versions, id, n) == ""
    ensures forall k: nat | k < n :: Node(Run(ops).versions, id, k) in Run(ops).versions
                                     && Run(ops).versions[Node(Run(ops).versions, id, k)].model == Run(ops).versions[id].model
  {
    hide Inv, Run, RunFits;
    RunKeeps(ops);
    n := WalkFrom(Run(ops), id);
    StoredNotEmpty(Run(ops), id);
    assert Node(Run(ops).versions, id, 0) == id;
  }

  lemma StoredNotEmpty(c: Chain, id: Id)
    requires Inv(c) && id in c.versions
    ensures id != ""
  {
    var ids := c.byModel[c.versions[id].model];
    var i: nat :| i < |ids| && ids[i] == id;
    assert EntryOk(c.versions, ids, c.versions[id].model, i);
  }
}
