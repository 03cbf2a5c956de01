/** The version chain as the program keeps it: two maps that grow in place. */
module ModelVersionChain {
  import opened Common
  import opened VersionChain

  function TimeKey(v: Version, newest: bool): int { if newest then -v.createdAt else v.createdAt }

  predicate InOrder(vs: seq<Version>, newest: bool) {
    forall i, j | 0 <= i < j < |vs| :: TimeKey(vs[i], newest) <= TimeKey(vs[j], newest)
  }

  lemma Insertion(s: seq<Version>, i: nat, v: Version, newest: bool)
    requires i <= |s| && InOrder(s, newest)
    requires i > 0 ==> TimeKey(s[i - 1], newest) <= TimeKey(v, newest)
    requires forall j | i <= j < |s| :: TimeKey(s[j], newest) > TimeKey(v, newest)
    ensures InOrder(s[..i] + [v] + s[i..], newest)
  {
    hide TimeKey;
    var t := s[..i] + [v] + s[i..];
    assert forall k: nat | k < |t| :: t[k] == if k < i then s[k] else if k == i then v else s[k - 1];
    forall a, b | 0 <= a < b < |t| ensures TimeKey(t[a], newest) <= TimeKey(t[b], newest) {
      if a < i && b == i {
        assert a == i - 1 || TimeKey(s[a], newest) <= TimeKey(s[i - 1], newest);
      }
    }
  }

  lemma InsertionElements(s: seq<Version>, i: nat, v: Version)
    requires i <= |s|
    ensures multiset(s[..i] + [v] + s[i..]) == multiset(s) + multiset{v}
  {
    assert s == s[..i] + s[i..];
  }

  method Inserted(s: seq<Version>, v: Version, newest: bool) returns (t: seq<Version>)
    requires InOrder(s, newest)
    ensures multiset(t) == multiset(s) + multiset{v} && InOrder(t, newest)
  {
    hide TimeKey;
    var i := |s|;
    while i > 0 && TimeKey(s[i - 1], newest) > TimeKey(v, newest)
      invariant 0 <= i <= |s|
      invariant forall j | i <= j < |s| :: TimeKey(s[j], newest) > TimeKey(v, newest)
    {
      i := i - 1;
    }
    Insertion(s, i, v, newest);
    InsertionElements(s, i, v);
    t := s[..i] + [v] + s[i..];
  }

  method Sorted(vs: seq<Version>, newest: bool) returns (s: seq<Version>)
    ensures multiset(s) == multiset(vs) && InOrder(s, newest)
  {
    s := [];
    assert InOrder(s, newest);
    hide InOrder;
    for n := 0 to |vs|
      invariant multiset(s) == multiset(vs[..n]) && InOrder(s, newest)
    {
      assert vs[..n + 1] == vs[..n] + [vs[n]];
      s := Inserted(s, vs[n], newest);
    }
    assert vs[..|vs|] == vs;
  }

  class ModelVersionChain {
    var versions: map<Id, Version>
    var modelVersions: map<string, seq<Id>>

    ghost function State(): Chain reads this {
      Chain(versions, modelVersions)
    }

    constructor ()
      ensures State() == Chain(map[], map[]) && Inv(State())
    {
      versions, modelVersions := map[], map[];
    }

    /** Walks from the parent to the root, on any map of versions. */
    method HasCycle(newId: Id, parent: Id) returns (found: bool)
      ensures found <==> Cyclic(versions, newId, parent)
    {
      var current, visited: set<Id> := parent, {};
      ghost var n: nat := 0;
      while current != ""
        invariant current == Node(versions, parent, n) && visited <= versions.Keys
        invariant forall k: nat | k < n :: Node(versions, parent, k) !in {"", newId}
        invariant forall x | x in visited :: exists k: nat :: k < n && Node(versions, parent, k) == x
        decreases versions.Keys - visited
      {
        if current == newId {
          return true;
        }
        if current in visited {
          ghost var j: nat :| j < n && Node(versions, parent, j) == current;
          forall m: nat ensures Node(versions, parent, m) != "" {
            Repeats(versions, parent, j, n, m);
          }
          return true;
        }
        if current !in versions {
          assert Node(versions, parent, n + 1) == "";
          n := n + 1;
          break;
        }
        visited := visited + {current};
        current := versions[current].parent;
        n := n + 1;
      }
      forall m: nat ensures newId != "" ==> Node(versions, parent, m) != newId {
        if m > n {
          StaysEnded(versions, parent, n, m);
        }
      }
      return false;
    }

    /** `id` and `now` are the identifier and the time the version gets. */
    method CreateVersion(model: string, parent: Id, details: Details, id: Id, now: int) returns (r: Outcome)
      modifies this
      ensures (r, State()) == CreateOn(old(State()), model, parent, details, id, now)
    {
      hide Cyclic;
      if model == "" {
        return Failed(InvalidArgument);
      }
      if parent != "" {
        if parent !in versions {
          return Failed(ParentNotFound);
        }
        if versions[parent].model != model {
          return Failed(InvalidArgument);
        }
      }
      var cycle := HasCycle(id, parent);
      if cycle {
        return Failed(VersionChainCycle);
      }
      var v := NewVersion(model, parent, details, id, now);
      versions := versions[id := v];
      modelVersions := modelVersions[model := (if model in modelVersions then modelVersions[model] else []) + [id]];
      r := Created(v);
    }

    method GetVersion(id: Id) returns (r: Outcome)
      ensures r == if id in versions then Created(versions[id]) else Failed(VersionNotFound)
    {
      r := if id in versions then Created(versions[id]) else Failed(VersionNotFound);
    }

    /** `None` is the exception that cutting to a negative length throws. */
    method ListVersions(model: string, limit: int) returns (listed: Option<seq<Version>>)
      ensures listed == None <==> limit < 0 && model in modelVersions
      ensures limit < 0 && model !in modelVersions ==> listed == Some([])
      ensures limit >= 0 ==> Listing(listed.value, VersionsOf(versions, IdsOf(State(), model)), limit)
    {
      if model !in modelVersions {
        assert NewestFirst([]);
        return Some([]);
      }
      var ids := modelVersions[model];
      var found: seq<Version> := [];
      for i := 0 to |ids|
        invariant found == VersionsOf(versions, ids[..i])
      {
        assert ids[..i + 1][..i] == ids[..i];
        if ids[i] in versions {
          found := found + [versions[ids[i]]];
        }
      }
      assert ids[..|ids|] == ids;
      var vs := Sorted(found, true);
      ghost var full := vs;
      forall i, j | 0 <= i < j < |full| ensures full[i].createdAt >= full[j].createdAt {
        assert TimeKey(full[i], true) <= TimeKey(full[j], true);
      }
      if |vs| > limit {
        if limit < 0 {
          return None;
        }
        vs := vs[..limit];
      }
      assert NewestFirst(full) && vs == full[..if |full| > limit then limit else |full|];
      listed := Some(vs);
    }

    /** Versions are immutable: changing one is always refused. */
    method ModifyVersion(id: Id) returns (r: Outcome)
      ensures r == Failed(ImmutableViolation)
    {
      return Failed(ImmutableViolation);
    }
  }
}
