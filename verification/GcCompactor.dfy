/** The compactor as the program has it: protection sets, a progress flag, and a merge written back
    through the version chain. */
module GcCompactor {
  import opened Common
  import opened VersionChain
  import opened Compaction
  import M = ModelVersionChain

  class ProtectionChecker {
    var snapshotRefs: set<Id>
    var anchored: set<Id>

    constructor ()
      ensures Shield() == {}
    {
      snapshotRefs, anchored := {}, {};
    }

    ghost function Shield(): set<Id> reads this { snapshotRefs + anchored }

    predicate IsProtected(id: Id)
      reads this
      ensures IsProtected(id) <==> id in Shield()
    {
      id in snapshotRefs || id in anchored
    }

    method AddSnapshotRef(id: Id)
      modifies this`snapshotRefs
      ensures Shield() == old(Shield()) + {id} && snapshotRefs == old(snapshotRefs) + {id}
    {
      snapshotRefs := snapshotRefs + {id};
    }

    method RemoveSnapshotRef(id: Id)
      modifies this`snapshotRefs
      ensures Shield() == (if id in anchored then old(Shield()) else old(Shield()) - {id})
      ensures snapshotRefs == old(snapshotRefs) - {id}
    {
      snapshotRefs := snapshotRefs - {id};
    }

    method Anchor(id: Id)
      modifies this`anchored
      ensures Shield() == old(Shield()) + {id} && anchored == old(anchored) + {id}
    {
      anchored := anchored + {id};
    }

    method Unanchor(id: Id)
      modifies this`anchored
      ensures Shield() == (if id in snapshotRefs then old(Shield()) else old(Shield()) - {id})
      ensures anchored == old(anchored) - {id}
    {
      anchored := anchored - {id};
    }
  }

  datatype CompactOutcome =
    | InProgress
    | Nothing
    | Merged(result: CompactionResult)
    | MergeFailed(error: ChainError)

  datatype GcExplain = GcExplain(total: nat, shielded: nat, compactable: nat)

  function IdsIn(vs: seq<Version>): (ids: seq<Id>)
    ensures |ids| == |vs| && forall i | 0 <= i < |vs| :: ids[i] == vs[i].id
  {
    seq(|vs|, i requires 0 <= i < |vs| => vs[i].id)
  }

  class GcCompactor {
    const chain: M.ModelVersionChain
    const checker: ProtectionChecker
    const keepRecentN: int
    var inProgress: bool

    constructor (chain: M.ModelVersionChain, checker: ProtectionChecker, keepRecentN: int)
      ensures this.chain == chain && this.checker == checker && this.keepRecentN == keepRecentN && !inProgress
    {
      this.chain, this.checker, this.keepRecentN, inProgress := chain, checker, keepRecentN, false;
    }

    /** Versions of a model, oldest first. */
    method OldestOf(model: string) returns (order: seq<Version>)
      ensures Arranged(order, VersionsOf(chain.versions, IdsOf(chain.State(), model)))
    {
      var listed := chain.ListVersions(model, LISTED);
      var vs := listed.value;
      order := M.Sorted(vs, false);
      forall i, j | 0 <= i < j < |order| ensures order[i].createdAt <= order[j].createdAt {
        assert M.TimeKey(order[i], false) <= M.TimeKey(order[j], false);
      }
    }

    method RecentIds(order: seq<Version>) returns (ids: seq<Id>)
      ensures forall id :: id in ids <==> id in Recent(order, keepRecentN)
    {
      ids := [];
      var start: nat := if |order| - keepRecentN > 0 then |order| - keepRecentN else 0;
      var i := start;
      while i < |order|
        invariant start <= i
        invariant forall id :: id in ids <==> exists k :: start <= k < i && k < |order| && order[k].id == id
      {
        ids := ids + [order[i].id];
        i := i + 1;
      }
    }

    method CompactableOf(order: seq<Version>) returns (rest: seq<Version>)
      ensures rest == Outside(order, Shielded(order, checker.Shield(), keepRecentN))
    {
      hide Recent;
      var recent := RecentIds(order);
      ghost var ids := Shielded(order, checker.Shield(), keepRecentN);
      rest := [];
      for i := 0 to |order|
        invariant rest == Outside(order[..i], ids)
      {
        assert order[..i + 1][..i] == order[..i];
        var v := order[i];
        if v.id !in checker.snapshotRefs && v.id !in checker.anchored && v.id !in recent {
          rest := rest + [v];
        }
      }
      assert order[..|order|] == order;
    }

    method MergeVersions(versions: seq<Version>, id: Id, now: int) returns (r: Outcome)
      requires versions != []
      modifies chain
      ensures (r, chain.State()) ==
              CreateOn(old(chain.State()), versions[0].model, versions[0].parent, MergedDetails(versions), id, now)
    {
      hide CreateOn;
      var details := MergeDetails(versions);
      r := chain.CreateVersion(versions[0].model, versions[0].parent, details, id, now);
    }

    method MergeDetails(versions: seq<Version>) returns (details: Details)
      requires versions != []
      ensures details == MergedDetails(versions)
    {
      NothingToMerge();
      hide RowSum, MergedCustom, LowestFidelity;
      var fidelity, rows, custom := versions[0].details.fidelity, 0, map[];
      for i := 0 to |versions|
        invariant fidelity == if i == 0 then versions[0].details.fidelity else LowestFidelity(versions[..i])
        invariant rows == RowSum(versions[..i]) && custom == MergedCustom(versions[..i])
      {
        OneMore(versions, i, {});
        var d := versions[i].details;
        if d.fidelity < fidelity {
          fidelity := d.fidelity;
        }
        rows := rows + d.rows;
        custom := custom + d.custom;
      }
      assert versions[..|versions|] == versions;
      details := Details("auto_compact", versions[0].details.dataRange, fidelity, rows, custom);
    }

    /** `order` is the order in which the sort left the versions. */
    method Compact(model: string, id: Id, now: int) returns (r: CompactOutcome, ghost order: seq<Version>)
      modifies this`inProgress, chain
      ensures inProgress == old(inProgress)
      ensures old(inProgress) ==> r == InProgress && chain.State() == old(chain.State())
      ensures !old(inProgress) ==>
                && Arranged(order, old(VersionsOf(chain.versions, IdsOf(chain.State(), model))))
                && var (o, c') := CompactOn(old(chain.State()), order, checker.Shield(), keepRecentN, id, now);
                   var rest := Outside(order, Shielded(order, checker.Shield(), keepRecentN));
                   && chain.State() == c'
                   && r == (if o == None then Nothing
                            else if o.value.Failed? then MergeFailed(o.value.error)
                            else Merged(CompactionResult(IdsIn(rest), o.value.version.id)))
    {
      order := [];
      if inProgress {
        return InProgress, order;
      }
      hide MergedDetails, Recent, Outside, CreateOn, Arranged, IdsIn, VersionsOf, Shielded;
      inProgress := true;
      var versions := OldestOf(model);
      order := versions;
      if versions == [] {
        NothingOutside(Shielded(order, checker.Shield(), keepRecentN));
        inProgress := false;
        return Nothing, order;
      }
      var compactable := CompactableOf(versions);
      if |compactable| < 2 {
        inProgress := false;
        return Nothing, order;
      }
      var merged := MergeVersions(compactable, id, now);
      inProgress := false;
      if merged.Failed? {
        return MergeFailed(merged.error), order;
      }
      var ids := ReadIds(compactable);
      r := Merged(CompactionResult(ids, merged.version.id));
    }

    method ReadIds(vs: seq<Version>) returns (ids: seq<Id>)
      ensures ids == IdsIn(vs)
    {
      ids := [];
      for i := 0 to |vs|
        invariant ids == IdsIn(vs)[..i]
      {
        ids := ids + [vs[i].id];
      }
    }

    lemma NothingToMerge()
      ensures RowSum([]) == 0 && MergedCustom([]) == map[]
    {
    }

    lemma NothingOutside(ids: set<Id>)
      ensures Outside([], ids) == []
    {
    }

    /** Counts what a compaction would keep and merge. */
    method Explain(model: string) returns (e: GcExplain, ghost order: seq<Version>)
      ensures Arranged(order, VersionsOf(chain.versions, IdsOf(chain.State(), model)))
      ensures e.total == |order| == e.shielded + e.compactable
      ensures e.compactable == |Outside(order, Shielded(order, checker.Shield(), keepRecentN))|
    {
      hide Recent, Arranged, VersionsOf;
      var versions := OldestOf(model);
      order := versions;
      if versions == [] {
        NothingOutside(Shielded(order, checker.Shield(), keepRecentN));
        return GcExplain(0, 0, 0), order;
      }
      var shielded, compactable := CountShielded(versions);
      e := GcExplain(|versions|, shielded, compactable);
    }

    method CountShielded(versions: seq<Version>) returns (shielded: nat, compactable: nat)
      ensures shielded + compactable == |versions|
      ensures compactable == |Outside(versions, Shielded(versions, checker.Shield(), keepRecentN))|
    {
      hide Recent, Outside;
      var recent := RecentIds(versions);
      ghost var ids := Shielded(versions, checker.Shield(), keepRecentN);
      NothingOutside(ids);
      shielded, compactable := 0, 0;
      for i := 0 to |versions|
        invariant shielded + compactable == i && compactable == |Outside(versions[..i], ids)|
      {
        OneMore(versions, i, ids);
        var v := versions[i];
        if v.id in checker.snapshotRefs || v.id in checker.anchored || v.id in recent {
          shielded := shielded + 1;
        } else {
          compactable := compactable + 1;
        }
      }
      assert versions[..|versions|] == versions;
    }
  }
}
