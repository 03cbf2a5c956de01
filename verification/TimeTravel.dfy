/** Time travel: a query for an old version of a model gives that version's checkpoint, or falls
    back to the newest checkpoint that can still be loaded. */
module TimeTravel {
  import opened Common
  import V = VersionChain
  import M = ModelVersionChain
  import S = ModelStorage
  import L = ModelStorageLayer
  import P = Paths

  const LISTED := 100

  datatype BiasReport = BiasReport(requested: string, returned: string, reason: string, mergedFrom: seq<string>,
                                   dataRange: string, fidelityMin: real, fidelityMax: real, versionMismatch: bool)

  datatype QueryError = InvalidArgument | NoAvailableVersion

  datatype QueryResult =
    | Refused(error: QueryError)
    | Answer(data: string, version: V.Version, report: Option<BiasReport>, wasDegraded: bool)

  /** The files that can be opened for reading. */
  type Readable = set<P.Location>

  /** A load succeeds: the file is there, and is cached or can be read. */
  ghost predicate Loads(l: S.Layer, readable: Readable, model: string, id: string) {
    var path := S.CheckpointPath(model, id);
    S.Exists(l.tree, model, id) && path !in l.tree.dirs && (path in readable || S.Find(l.cache, S.CacheKey(model, id)).Some?)
  }

  function ReportOf(requested: string, v: V.Version): BiasReport {
    BiasReport(requested, v.id, "compacted", [v.id], v.details.dataRange, v.details.fidelity, v.details.fidelity, v.id != requested)
  }

  // ---------------------------------------------------------------- loading

  /** A load that works gives the content of the file; one that fails leaves the others as they are. */
  lemma LoadGives(l: S.Layer, names: set<S.Name>, readable: Readable, model: string, id: string)
    requires S.Inv(l, names) && S.Corresponding(names) && (model, id) in names
    ensures var (r, l') := S.LoadWith(l, model, id, S.CheckpointPath(model, id) in readable);
            && S.Inv(l', names) && l'.tree == l.tree
            && (r.Data? <==> Loads(l, readable, model, id))
            && (r.Data? ==> r.data == l.tree.files[S.CheckpointPath(model, id)])
  {
    hide S.CheckpointPath, S.UpdateCache, S.Remember, S.Distinct;
    var key, path := S.CacheKey(model, id), S.CheckpointPath(model, id);
    S.FindIn(l.cache, key);
    S.WithoutKeys(l.cache, key);
    S.LoadIsRead(l, names, model, id);
  }

  lemma FailedLoadSpares(l: S.Layer, readable: Readable, model: string, id: string, other: string)
    requires S.LoadWith(l, model, id, S.CheckpointPath(model, id) in readable).0.Failed?
    ensures Loads(S.LoadWith(l, model, id, S.CheckpointPath(model, id) in readable).1, readable, model, other)
            <==> Loads(l, readable, model, other)
  {
    hide S.CheckpointPath, S.Way, S.UpdateCache, S.Remember;
    var key := S.CacheKey(model, id);
    if other != id {
      assert S.CacheKey(model, other) != key by {
        assert key[|model| + 1..] == id && S.CacheKey(model, other)[|model| + 1..] == other;
      }
      FindWithout(l.cache, key, S.CacheKey(model, other));
    }
  }

  lemma {:induction false} FindWithout(c: S.Cache, key: string, other: string)
    requires key != other
    ensures S.Find(S.Without(c, key), other) == S.Find(c, other)
  {
    if c != [] && c[0].0 != key {
      FindWithout(c[1..], key, other);
    }
  }

  // ---------------------------------------------------------------- what a query returns

  /** `answer` is right for a query on these versions and files. */
  ghost predicate Right(answer: QueryResult, c: V.Chain, l: S.Layer, readable: Readable, model: string, id: string) {
    if model == "" || id == "" then answer == Refused(InvalidArgument)
    else if id in c.versions && Loads(l, readable, model, id) then
      answer == Answer(l.tree.files[S.CheckpointPath(model, id)], c.versions[id], None, false)
    else
      exists list: seq<V.Version> ::
        && V.Listing(list, V.VersionsOf(c.versions, V.IdsOf(c, model)), LISTED)
        && FirstLoadable(answer, list, l, readable, model, id)
  }

  ghost predicate FirstLoadable(answer: QueryResult, list: seq<V.Version>, l: S.Layer, readable: Readable, model: string, id: string) {
    if forall v | v in list :: !Loads(l, readable, model, v.id) then answer == Refused(NoAvailableVersion)
    else exists i: nat :: i < |list| && FoundAt(answer, list, l, readable, model, id, i)
  }

  ghost predicate FoundAt(answer: QueryResult, list: seq<V.Version>, l: S.Layer, readable: Readable, model: string, id: string, i: nat)
    requires i < |list|
  {
    && Loads(l, readable, model, list[i].id)
    && (forall j: nat | j < i :: !Loads(l, readable, model, list[j].id))
    && answer == Answer(l.tree.files[S.CheckpointPath(model, list[i].id)], list[i], Some(ReportOf(id, list[i])), true)
  }

  /** What the caller of a query can rely on: an exact answer is the requested version; a degraded
      one is always flagged as a mismatch, and no version of the model that loads is newer; and a
      query with names fails exactly when the requested version does not load and none of the
      newest listed ones does. */
  lemma AnswerIsNewest(answer: QueryResult, c: V.Chain, l: S.Layer, readable: Readable, model: string, id: string)
    requires V.Inv(c) && Right(answer, c, l, readable, model, id) && model != "" && id != ""
    ensures answer.Answer? && !answer.wasDegraded <==> id in c.versions && Loads(l, readable, model, id)
    ensures answer.Answer? && !answer.wasDegraded ==> answer.version.id == id && answer.report == None
    ensures answer.Answer? && answer.wasDegraded ==>
              && answer.report.Some? && answer.report.value.versionMismatch && answer.version.id != id
              && answer.report.value.requested == id && answer.report.value.returned == answer.version.id
              && answer.report.value.reason == "compacted" && answer.report.value.mergedFrom == [answer.version.id]
              && answer.report.value.dataRange == answer.version.details.dataRange
              && answer.report.value.fidelityMin == answer.report.value.fidelityMax == answer.version.details.fidelity
              && answer.version.model == model
              && forall other | other in c.versions && c.versions[other].model == model && Loads(l, readable, model, other) ::
                   c.versions[other].createdAt <= answer.version.createdAt
    ensures answer.Answer? && answer.wasDegraded ==>
              exists list: seq<V.Version> :: V.Listing(list, V.VersionsOf(c.versions, V.IdsOf(c, model)), 100) && answer.version in list
    ensures answer.Answer? ==>
              S.CheckpointPath(model, answer.version.id) in l.tree.files && answer.data == l.tree.files[S.CheckpointPath(model, answer.version.id)]
    ensures answer.Refused? ==>
              && answer.error == NoAvailableVersion
              && exists list: seq<V.Version> :: V.Listing(list, V.VersionsOf(c.versions, V.IdsOf(c, model)), 100)
                                && forall v | v in list :: !Loads(l, readable, model, v.id)
  {
    hide V.Listing, Loads, V.Inv, FirstLoadable, V.VersionsOf;
    if id in c.versions && Loads(l, readable, model, id) {
      StoredUnderItsId(c, id);
      LoadsFromFile(l, readable, model, id);
    } else {
      var list: seq<V.Version> :|
        && V.Listing(list, V.VersionsOf(c.versions, V.IdsOf(c, model)), 100)
        && FirstLoadable(answer, list, l, readable, model, id);
      FallbackIsNewest(answer, list, c, l, readable, model, id);
    }
  }

  lemma FallbackIsNewest(answer: QueryResult, list: seq<V.Version>, c: V.Chain, l: S.Layer, readable: Readable, model: string, id: string)
    requires V.Inv(c) && !(id in c.versions && Loads(l, readable, model, id))
    requires V.Listing(list, V.VersionsOf(c.versions, V.IdsOf(c, model)), LISTED) && FirstLoadable(answer, list, l, readable, model, id)
    ensures answer.Refused? ==> answer.error == NoAvailableVersion && forall v | v in list :: !Loads(l, readable, model, v.id)
    ensures answer.Answer? ==>
              && answer.wasDegraded && answer.report == Some(ReportOf(id, answer.version)) && answer.version.id != id
              && answer.version.model == model && answer.version in list
              && S.CheckpointPath(model, answer.version.id) in l.tree.files && answer.data == l.tree.files[S.CheckpointPath(model, answer.version.id)]
              && forall other | other in c.versions && c.versions[other].model == model && Loads(l, readable, model, other) ::
                   c.versions[other].createdAt <= answer.version.createdAt
  {
    hide V.Listing, Loads, V.Inv, V.VersionsOf, ReportOf;
    var all := V.VersionsOf(c.versions, V.IdsOf(c, model));
    V.ListsAll(c, model);
    V.ListingIsNewest(list, all, LISTED);
    if answer.Answer? {
      var i: nat :| i < |list| && FoundAt(answer, list, l, readable, model, id, i);
      assert list[i] in list && list[i] in all;
      LoadsFromFile(l, readable, model, list[i].id);
      forall other | other in c.versions && c.versions[other].model == model && Loads(l, readable, model, other)
        ensures c.versions[other].createdAt <= answer.version.createdAt
      {
        StoredUnderItsId(c, other);
        NoneNewerLoads(list, c.versions[other], l, readable, model, i);
      }
    }
  }

  lemma NoneNewerLoads(list: seq<V.Version>, v: V.Version, l: S.Layer, readable: Readable, model: string, i: nat)
    requires V.NewestFirst(list) && i < |list| && Loads(l, readable, model, v.id)
    requires forall j: nat | j < i :: !Loads(l, readable, model, list[j].id)
    requires v !in list ==> forall w | w in list :: v.createdAt <= w.createdAt
    ensures v.createdAt <= list[i].createdAt
  {
    hide Loads;
    if v in list {
      var k: nat :| k < |list| && list[k] == v;
      assert k >= i;
    }
  }

  lemma LoadsFromFile(l: S.Layer, readable: Readable, model: string, id: string)
    requires Loads(l, readable, model, id)
    ensures S.CheckpointPath(model, id) in l.tree.files
  {
  }

  lemma StoredUnderItsId(c: V.Chain, id: string)
    requires V.Inv(c) && id in c.versions
    ensures c.versions[id].id == id
  {
    var ids := c.byModel[c.versions[id].model];
    var i: nat :| i < |ids| && ids[i] == id;
    assert V.EntryOk(c.versions, ids, c.versions[id].model, i);
  }

  /** With at most one hundred versions a refusal means that no version of the model loads. */
  lemma RefusedMeansNone(answer: QueryResult, c: V.Chain, l: S.Layer, readable: Readable, model: string, id: string)
    requires V.Inv(c) && Right(answer, c, l, readable, model, id) && model != "" && id != ""
    requires |V.VersionsOf(c.versions, V.IdsOf(c, model))| <= 100
    ensures answer.Refused? ==>
              forall other | other in c.versions && c.versions[other].model == model :: !Loads(l, readable, model, other)
    ensures answer.Answer? ==> exists other :: other in c.versions && Loads(l, readable, model, other)
  {
    hide V.Listing, Loads, V.Inv;
    var all := V.VersionsOf(c.versions, V.IdsOf(c, model));
    V.ListsAll(c, model);
    if !(id in c.versions && Loads(l, readable, model, id)) {
      var list: seq<V.Version> :|
        V.Listing(list, all, LISTED) && FirstLoadable(answer, list, l, readable, model, id);
      V.ListingIsNewest(list, all, LISTED);
      V.SameElements(list, all);
      if answer.Refused? {
        forall other | other in c.versions && c.versions[other].model == model ensures !Loads(l, readable, model, other) {
          StoredUnderItsId(c, other);
          assert c.versions[other] in list;
        }
      } else {
        var v :| v in list && Loads(l, readable, model, v.id);
        assert v in all;
      }
    }
  }

  /** Every version of the chain, under this model name, is among the names. */
  predicate Covers(names: set<S.Name>, c: V.Chain, model: string) {
    forall id | id in c.versions :: (model, id) in names
  }

  // ---------------------------------------------------------------- the engine

  class TimeTravelEngine {
    const chain: M.ModelVersionChain
    const storage: L.StorageLayer

    constructor (chain: M.ModelVersionChain, storage: L.StorageLayer)
      ensures this.chain == chain && this.storage == storage
    {
      this.chain, this.storage := chain, storage;
    }

    method Load(model: string, id: string, readable: Readable, ghost names: set<S.Name>) returns (r: S.Loaded)
      requires storage.Valid() && S.Inv(storage.State(), names) && S.Corresponding(names) && (model, id) in names
      modifies storage, storage.lruList
      ensures storage.Valid() && S.Inv(storage.State(), names) && storage.State().tree == old(storage.State().tree)
      ensures r.Data? <==> old(Loads(storage.State(), readable, model, id))
      ensures r.Data? ==> r.data == storage.files[S.CheckpointPath(model, id)]
      ensures r.Failed? ==> forall other ::
                Loads(storage.State(), readable, model, other) <==> old(Loads(storage.State(), readable, model, other))
      ensures forall e | e in storage.lruList :: e in old(storage.lruList) || fresh(e)
    {
      hide S.Inv, S.Corresponding, S.LoadWith, Loads, S.CheckpointPath;
      ghost var l := storage.State();
      LoadGives(l, names, readable, model, id);
      r := storage.LoadModel(model, id, S.CheckpointPath(model, id) in readable);
      if r.Failed? {
        forall other ensures Loads(storage.State(), readable, model, other) <==> Loads(l, readable, model, other) {
          FailedLoadSpares(l, readable, model, id, other);
        }
      }
    }

    /** Tries the listed versions from the newest on. */
    method FindNearestAvailable(model: string, requested: string, readable: Readable, ghost names: set<S.Name>)
      returns (data: Option<string>, report: Option<BiasReport>, ghost list: seq<V.Version>, ghost at: nat)
      requires storage.Valid() && S.Inv(storage.State(), names) && S.Corresponding(names)
      requires V.Inv(chain.State()) && Covers(names, chain.State(), model)
      modifies storage, storage.lruList
      ensures storage.Valid() && S.Inv(storage.State(), names) && storage.State().tree == old(storage.State().tree)
      ensures V.Listing(list, V.VersionsOf(chain.versions, V.IdsOf(chain.State(), model)), LISTED)
      ensures at <= |list| && forall j: nat | j < at :: old(!Loads(storage.State(), readable, model, list[j].id))
      ensures at == |list| ==> data == None && report == None
      ensures at < |list| ==>
                && old(Loads(storage.State(), readable, model, list[at].id))
                && S.CheckpointPath(model, list[at].id) in storage.files
                && data == Some(storage.files[S.CheckpointPath(model, list[at].id)])
                && report == Some(ReportOf(requested, list[at]))
    {
      hide S.Inv, S.Corresponding, Loads, V.Inv, V.Listing, V.VersionsOf, Covers, ReportOf, S.CheckpointPath;
      var listed := chain.ListVersions(model, LISTED);
      var versions := listed.value;
      list, at := versions, 0;
      for i := 0 to |versions|
        invariant at == i && storage.Valid() && S.Inv(storage.State(), names) && storage.State().tree == old(storage.State().tree)
        invariant forall j: nat | j < i :: old(!Loads(storage.State(), readable, model, list[j].id))
        invariant forall other :: Loads(storage.State(), readable, model, other) <==> old(Loads(storage.State(), readable, model, other))
        invariant forall e | e in storage.lruList :: e in old(storage.lruList) || fresh(e)
      {
        ghost var l := storage.State();
        var v := versions[i];
        assert forall e | e in storage.lruList :: e in old(storage.lruList) || fresh(e);
        ListedIsCovered(chain.State(), model, list, i, names);
        var r := Load(model, v.id, readable, names);
        if r.Data? {
          LoadsFromFile(l, readable, model, v.id);
          return Some(r.data), Some(ReportOf(requested, v)), list, i;
        }
        at := i + 1;
      }
      return None, None, list, at;
    }

    method QueryAsOf(model: string, id: string, readable: Readable, ghost names: set<S.Name>) returns (answer: QueryResult)
      requires storage.Valid() && S.Inv(storage.State(), names) && S.Corresponding(names)
      requires V.Inv(chain.State()) && Covers(names, chain.State(), model)
      modifies storage, storage.lruList
      ensures storage.Valid() && S.Inv(storage.State(), names) && storage.State().tree == old(storage.State().tree)
      ensures Right(answer, chain.State(), old(storage.State()), readable, model, id)
    {
      hide S.Inv, S.Corresponding, Loads, V.Inv, V.Listing, V.VersionsOf, S.CheckpointPath;
      if model == "" || id == "" {
        return Refused(InvalidArgument);
      }
      ghost var c, l := chain.State(), storage.State();
      if id in chain.versions {
        var r := Load(model, id, readable, names);
        if r.Data? {
          return Answer(r.data, chain.versions[id], None, false);
        }
      }
      assert forall e | e in storage.lruList :: e in old(storage.lruList) || fresh(e);
      var data, report, list, at := FindNearestAvailable(model, id, readable, names);
      if data == None {
        answer := Refused(NoAvailableVersion);
        assert FirstLoadable(answer, list, l, readable, model, id);
        return;
      }
      ListedIsStored(c, model, list, at);
      var nearest := chain.GetVersion(report.value.returned);
      if nearest.Failed? {
        return Refused(NoAvailableVersion);
      }
      answer := Answer(data.value, nearest.version, report, true);
      assert FoundAt(answer, list, l, readable, model, id, at);
      assert FirstLoadable(answer, list, l, readable, model, id);
    }
  }

  lemma ListedIsCovered(c: V.Chain, model: string, list: seq<V.Version>, i: nat, names: set<S.Name>)
    requires V.Inv(c) && V.Listing(list, V.VersionsOf(c.versions, V.IdsOf(c, model)), LISTED) && i < |list|
    requires Covers(names, c, model)
    ensures (model, list[i].id) in names
  {
    ListedIsStored(c, model, list, i);
  }

  lemma ListedIsStored(c: V.Chain, model: string, list: seq<V.Version>, i: nat)
    requires V.Inv(c) && V.Listing(list, V.VersionsOf(c.versions, V.IdsOf(c, model)), LISTED) && i < |list|
    ensures list[i].id in c.versions && c.versions[list[i].id] == list[i]
  {
    V.ListsAll(c, model);
    V.ListingIsNewest(list, V.VersionsOf(c.versions, V.IdsOf(c, model)), LISTED);
    assert list[i] in list;
  }
}
