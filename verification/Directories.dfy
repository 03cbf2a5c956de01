/** The files and directories on disk, and the directories that a path passes through. */
module Directories {
  import opened Paths

  type Files = map<Location, string>

  datatype Tree = Tree(files: Files, dirs: set<Location>)

  function Parent(at: Location): Location
    requires at != []
  {
    at[..|at| - 1]
  }

  /** The root is a directory, everything else stands in one, and nothing is both a file and a directory. */
  ghost predicate Sane(t: Tree) {
    && [] in t.dirs && (forall d | d in t.dirs && d != [] :: Parent(d) in t.dirs)
    && forall f | f in t.files :: f != [] && Parent(f) in t.dirs && f !in t.dirs
  }

  // ---------------------------------------------------------------- what a path passes through

  /** `at` and all directories above it, from the root down. */
  function Prefixes(at: Location): (ds: seq<Location>) {
    seq(|at| + 1, i requires 0 <= i <= |at| => at[..i])
  }

  /** The places passed when these names are followed from `dir` on, both ends included. */
  function Trail(dir: Location, ps: seq<string>): (ds: seq<Location>)
    ensures ds != [] && ds[0] == dir && ds[|ds| - 1] == Walk(dir, ps)
    decreases |ps|
  {
    if ps == [] then [dir] else [dir] + Trail(Enter(dir, ps[0]), ps[1..])
  }

  /** The places that `text`, appended to `dir`, passes through, from the root to where it leads. */
  function WayTo(dir: Location, text: string): seq<Location> {
    Prefixes(From(dir, text)) + Trail(From(dir, text), Pieces(text))
  }

  function Elements(ds: seq<Location>): (s: set<Location>)
    ensures forall d :: d in s <==> d in ds
  {
    set d | d in ds
  }

  /** Each of these directories is the root or stands in an earlier one. */
  predicate Rooted(ds: seq<Location>) {
    forall i | 0 <= i < |ds| :: ds[i] == [] || Parent(ds[i]) in ds[..i]
  }

  /** With a directory the set holds those above it, and so the root. */
  ghost predicate Closed(ds: set<Location>) {
    [] in ds && forall d | d in ds && d != [] :: Parent(d) in ds
  }

  lemma {:induction false} TrailClimbs(above: set<Location>, dir: Location, ps: seq<string>, i: nat)
    requires (forall j | 0 <= j < |dir| :: dir[..j] in above) && i < |Trail(dir, ps)|
    ensures Trail(dir, ps)[i] == [] || Parent(Trail(dir, ps)[i]) in above + Elements(Trail(dir, ps)[..i])
    decreases |ps|
  {
    var trail := Trail(dir, ps);
    if i > 0 {
      var next := Enter(dir, ps[0]);
      var rest := Trail(next, ps[1..]);
      assert trail[i] == rest[i - 1] && trail[..i] == [dir] + rest[..i - 1];
      forall j | 0 <= j < |next| ensures next[..j] in above + {dir} {
        assert dir[..|dir|] == dir;
        if j < |dir| { assert next[..j] == dir[..j]; } else { assert next[..j] == dir; }
      }
      TrailClimbs(above + {dir}, next, ps[1..], i - 1);
    }
  }

  lemma WayIsRooted(dir: Location, text: string)
    ensures Rooted(WayTo(dir, text)) && WayTo(dir, text)[0] == []
  {
    hide Trail, Pieces;
    var start, ps := From(dir, text), Pieces(text);
    var above, trail, way := Prefixes(start), Trail(start, ps), WayTo(dir, text);
    forall i | 0 <= i < |way| ensures way[i] == [] || Parent(way[i]) in way[..i] {
      if i < |above| {
        if i > 0 { assert way[..i][i - 1] == start[..i - 1] == Parent(way[i]); }
      } else {
        forall j | 0 <= j < |start| ensures start[..j] in Elements(above) { assert above[j] == start[..j]; }
        TrailClimbs(Elements(above), start, ps, i - |above|);
        assert way[..i] == above + trail[..i - |above|];
      }
    }
  }

  lemma RootedIsClosed(ds: seq<Location>)
    requires Rooted(ds) && [] in ds
    ensures Closed(Elements(ds))
  {
    forall d | d in ds && d != [] ensures Parent(d) in ds {
      var i :| 0 <= i < |ds| && ds[i] == d;
      assert Parent(d) in ds[..i];
    }
  }

  /** What is above a place in a closed set is in the set. */
  lemma {:induction false} ClosedAbove(ds: set<Location>, at: Location, above: Location)
    requires Closed(ds) && at in ds && above <= at
    ensures above in ds
    decreases |at|
  {
    if above != at {
      assert above <= Parent(at);
      ClosedAbove(ds, Parent(at), above);
    }
  }

  /** Following names from a place in a closed set adds the trail to the set. */
  lemma TrailCloses(ds: set<Location>, dir: Location, ps: seq<string>)
    requires Closed(ds) && dir in ds
    ensures Closed(ds + Elements(Trail(dir, ps)))
  {
    hide Trail;
    var trail := Trail(dir, ps);
    forall d | d in trail && d != [] ensures Parent(d) in ds + Elements(trail) {
      var i :| 0 <= i < |trail| && trail[i] == d;
      forall j | 0 <= j < |dir| ensures dir[..j] in ds { ClosedAbove(ds, dir, dir[..j]); }
      TrailClimbs(ds, dir, ps, i);
    }
  }

  // ---------------------------------------------------------------- changing the tree

  /** Creates the directories in this order, up to a place where a file stands. */
  function MakeDirs(t: Tree, ds: seq<Location>): (r: (Tree, bool))
    ensures r.0.files == t.files && t.dirs <= r.0.dirs <= t.dirs + Elements(ds)
    ensures r.1 <==> forall d | d in ds :: d !in t.files
    ensures r.1 ==> r.0.dirs == t.dirs + Elements(ds)
    decreases |ds|
  {
    if ds == [] then (t, true)
    else if ds[0] in t.files then (t, false)
    else
      assert forall d :: d in ds <==> d == ds[0] || d in ds[1..];
      MakeDirs(t.(dirs := t.dirs + {ds[0]}), ds[1..])
  }

  /** Writes a file, new or over an old one. */
  function Put(t: Tree, at: Location, content: string): Tree { t.(files := t.files[at := content]) }

  /** Deletes a file, or a directory with all that is below it. */
  function Remove(t: Tree, at: Location): Tree {
    Tree(map f | f in t.files && !(at <= f) :: t.files[f], set d | d in t.dirs && (d == [] || !(at <= d)))
  }

  /** Only these directories, and no file. */
  function Bare(ds: set<Location>): Tree { Tree(map[], ds) }

  lemma {:induction false} MakeDirsSane(t: Tree, ds: seq<Location>)
    requires Sane(t) && forall i | 0 <= i < |ds| :: ds[i] == [] || Parent(ds[i]) in t.dirs + Elements(ds[..i])
    ensures Sane(MakeDirs(t, ds).0)
    decreases |ds|
  {
    if ds != [] && ds[0] !in t.files {
      var t' := t.(dirs := t.dirs + {ds[0]});
      assert Elements(ds[..0]) == {};
      forall i | 0 <= i < |ds| - 1 ensures ds[1..][i] == [] || Parent(ds[1..][i]) in t'.dirs + Elements(ds[1..][..i]) {
        assert ds[..i + 1] == [ds[0]] + ds[1..][..i];
      }
      MakeDirsSane(t', ds[1..]);
    }
  }

  lemma RootedSane(t: Tree, ds: seq<Location>, n: nat)
    requires Sane(t) && Rooted(ds) && n <= |ds|
    ensures Sane(MakeDirs(t, ds[..n]).0)
  {
    forall i | 0 <= i < n ensures ds[..n][i] == [] || Parent(ds[..n][i]) in t.dirs + Elements(ds[..n][..i]) {
      assert ds[..n][..i] == ds[..i];
    }
    MakeDirsSane(t, ds[..n]);
  }

  lemma PutSane(t: Tree, at: Location, content: string)
    requires Sane(t) && at != [] && Parent(at) in t.dirs && at !in t.dirs
    ensures Sane(Put(t, at, content))
  {
  }

  lemma RemoveSane(t: Tree, at: Location)
    requires Sane(t)
    ensures Sane(Remove(t, at))
  {
    var t' := Remove(t, at);
    forall d | d in t'.dirs && d != [] ensures Parent(d) in t'.dirs {
      assert at <= Parent(d) ==> at <= d;
    }
    forall f | f in t'.files ensures f != [] && Parent(f) in t'.dirs {
      assert at <= Parent(f) ==> at <= f;
    }
  }

  lemma WithoutSane(t: Tree, f: Location)
    requires Sane(t)
    ensures Sane(t.(files := t.files - {f}))
  {
  }

  lemma BareSane(ds: set<Location>)
    requires Closed(ds)
    ensures Sane(Bare(ds))
  {
  }

  lemma DirSane(t: Tree, at: Location)
    requires Sane(t) && at != [] && Parent(at) in t.dirs && at !in t.files
    ensures Sane(t.(dirs := t.dirs + {at}))
  {
  }
}
