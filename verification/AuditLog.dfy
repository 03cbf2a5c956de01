/** The hash-chained audit log. The hash is an arbitrary function to 64-character digests; what a
    chain guarantees is stated as a reduction: it holds, or two inputs that were hashed for the records at hand collide. */
module AuditLog {
  import opened Common

  type Hash = string -> string

  /** A digest is 64 characters, as the hexadecimal form of SHA-256 is. */
  ghost predicate Digests(h: Hash) { forall s :: |h(s)| == 64 }

  datatype Record = Record(recordId: string, operation: string, actor: string, timestamp: int64,
                           prevHash: string, contentHash: string, chainHash: string,
                           metadata: Metadata)

  type Metadata = seq<(string, string)>   // keys and values, as a map lists them

  /** The order of keys: that of their first difference, a beginning coming first. */
  predicate Before(a: string, b: string) {
    b != "" && (a == "" || a[0] < b[0] || (a[0] == b[0] && Before(a[1..], b[1..])))
  }

  /** What a map can hold: keys strictly in order, so none twice. */
  predicate Legal(metadata: Metadata) {
    forall i, j | 0 <= i < j < |metadata| :: Before(metadata[i].0, metadata[j].0)
  }

  function MetadataText(metadata: Metadata): string {
    if metadata == [] then ""
    else metadata[0].0 + "=" + metadata[0].1 + ";" + MetadataText(metadata[1..])
  }

  function Content(r: Record): string {
    r.operation + "|" + (r.actor + "|" + (PrintInt(r.timestamp) + "|" + MetadataText(r.metadata)))
  }

  function ChainInput(r: Record): string { r.prevHash + r.contentHash }

  ghost predicate Collision(h: Hash, x: string, y: string) { x != y && h(x) == h(y) }

  /** Two different texts that were hashed for these two records have the same hash. */
  ghost predicate Clash(h: Hash, r: Record, s: Record) {
    Collision(h, Content(r), Content(s)) || Collision(h, ChainInput(r), ChainInput(s))
  }

  // ---------------------------------------------------------------- what is verified

  predicate LinkOk(h: Hash, prev: Record, curr: Record) {
    && curr.prevHash == prev.chainHash
    && curr.contentHash == h(Content(curr))
    && curr.chainHash == h(curr.prevHash + curr.contentHash)
  }

  predicate LinkAt(h: Hash, records: seq<Record>, i: nat)
    requires 1 <= i < |records|
  {
    LinkOk(h, records[i - 1], records[i])
  }

  predicate Verified(h: Hash, records: seq<Record>) {
    forall i: nat | 1 <= i < |records| :: LinkAt(h, records, i)
  }

  /** How a log looks that only `create_genesis` and `append` have filled. */
  predicate Built(h: Hash, records: seq<Record>) {
    && (records != [] ==>
          && records[0].prevHash == "0" && records[0].contentHash == h(Content(records[0]))
          && records[0].chainHash == h(records[0].prevHash + records[0].contentHash))
    && Verified(h, records)
  }

  // ---------------------------------------------------------------- tamper evidence

  /** The link and the content of two records agree. */
  predicate SameLink(a: Record, b: Record) {
    && Content(a) == Content(b) && a.prevHash == b.prevHash
    && a.contentHash == b.contentHash && a.chainHash == b.chainHash
  }

  lemma SplitsAlike(p: string, c: string, p': string, c': string)
    requires p + c == p' + c' && |c| == |c'|
    ensures p == p' && c == c'
  {
    assert |p| == |p'|;
    assert p == (p + c)[..|p|] && p' == (p' + c')[..|p'|];
    assert c == (p + c)[|p|..] && c' == (p' + c')[|p'|..];
  }

  lemma VerifiedPrefix(h: Hash, records: seq<Record>, n: nat)
    requires Verified(h, records) && n <= |records|
    ensures Verified(h, records[..n])
  {
    hide LinkOk;
    forall k: nat | 1 <= k < n ensures LinkAt(h, records[..n], k) {
      assert LinkAt(h, records, k);
    }
  }

  /** The records at the same place agree in content and links, and the first ones in chain hash. */
  ghost predicate Agree(a: seq<Record>, b: seq<Record>)
    requires a != [] && |a| == |b|
  {
    a[0].chainHash == b[0].chainHash && forall i | 1 <= i < |a| :: SameLink(a[i], b[i])
  }

  /** Two logs of the same length that both verify and end in the same chain hash agree in every
      record after the first, and in the chain hash of the first, exactly when no two texts hashed
      for records at the same place collide. */
  lemma {:induction false} TamperEvident(h: Hash, a: seq<Record>, b: seq<Record>)
    requires Digests(h) && a != [] && |a| == |b| && Verified(h, a) && Verified(h, b)
    requires a[|a| - 1].chainHash == b[|b| - 1].chainHash
    ensures Agree(a, b) <==> forall i | 1 <= i < |a| :: !Clash(h, a[i], b[i])
    decreases |a|
  {
    hide Digests, Content, LinkOk, SameLink, Clash;
    var n := |a| - 1;
    if n > 0 {
      assert LinkAt(h, a, n) && LinkAt(h, b, n);
      LinksAgree(h, a[n - 1], a[n], b[n - 1], b[n]);
      if !Clash(h, a[n], b[n]) {
        VerifiedPrefix(h, a, n);
        VerifiedPrefix(h, b, n);
        TamperEvident(h, a[..n], b[..n]);
        assert forall i | 0 <= i < n :: a[..n][i] == a[i] && b[..n][i] == b[i];
      }
    }
  }

  /** Two links with the same chain hash agree in content and in what they are linked to, or what was
      hashed for them collides, but not both. */
  lemma LinksAgree(h: Hash, p: Record, r: Record, q: Record, s: Record)
    requires Digests(h) && LinkOk(h, p, r) && LinkOk(h, q, s) && r.chainHash == s.chainHash
    ensures Clash(h, r, s) <==> !SameLink(r, s)
    ensures SameLink(r, s) ==> p.chainHash == q.chainHash
  {
    hide Content;
    if ChainInput(r) == ChainInput(s) {
      SplitsAlike(r.prevHash, r.contentHash, s.prevHash, s.contentHash);
    }
  }

  /** The first record is never checked: another record can stand there exactly when nothing is
      linked to it or it has the same chain hash, and a log keeps verifying when records are cut off
      its front. */
  lemma FirstRecordUnchecked(h: Hash, records: seq<Record>, first: Record, k: nat)
    requires Verified(h, records) && k < |records|
    ensures Verified(h, [first] + records[1..]) <==> |records| == 1 || first.chainHash == records[0].chainHash
    ensures Verified(h, records[k..])
  {
    var forged, cut := [first] + records[1..], records[k..];
    forall i: nat | 2 <= i < |forged| ensures LinkAt(h, forged, i) {
      assert LinkAt(h, records, i);
    }
    if |records| > 1 {
      assert LinkAt(h, records, 1);
      assert LinkAt(h, forged, 1) <==> first.chainHash == records[0].chainHash;
    }
    forall i: nat | 1 <= i < |cut| ensures LinkAt(h, cut, i) {
      assert LinkAt(h, records, k + i);
    }
  }

  predicate Free(s: string, c: char) { forall i | 0 <= i < |s| :: s[i] != c }

  predicate NoBar(s: string) { Free(s, '|') }

  /** What stands in front of the first separator, and what behind it. */
  lemma FirstOf(c: char, a: string, rest: string, a': string, rest': string)
    requires Free(a, c) && Free(a', c) && a + [c] + rest == a' + [c] + rest'
    ensures a == a' && rest == rest'
  {
    var s, s' := a + [c] + rest, a' + [c] + rest';
    assert s[|a|] == c && s'[|a'|] == c;
    assert (forall i | 0 <= i < |a| :: s[i] == a[i]) && forall i | 0 <= i < |a'| :: s'[i] == a'[i];
    assert a == s[..|a|] && a' == s'[..|a'|];
    assert rest == s[|a| + 1..] && rest' == s'[|a'| + 1..];
  }

  /** The text starts with the operation, the actor and the time, in this order and behind bars, and
      ends with the metadata. */
  lemma ContentLayout(r: Record)
    ensures r.operation + "|" + r.actor + "|" + PrintInt(r.timestamp) + "|" + MetadataText(r.metadata) == Content(r)
    ensures forall key, value | r.metadata == [(key, value)] :: MetadataText(r.metadata) == key + "=" + value + ";"
  {
    forall key, value | r.metadata == [(key, value)] ensures MetadataText(r.metadata) == key + "=" + value + ";" {
      OneEntry((key, value));
    }
  }

  /** Equal content means equal fields when operations and actors hold no bar, and equal metadata
      when it can be read entry by entry. */
  lemma ContentGivesFields(r: Record, s: Record)
    requires Content(r) == Content(s)
    requires NoBar(r.operation) && NoBar(r.actor) && NoBar(s.operation) && NoBar(s.actor)
    ensures r.operation == s.operation && r.actor == s.actor && r.timestamp == s.timestamp
    ensures MetadataText(r.metadata) == MetadataText(s.metadata)
    ensures Separable(r.metadata) && Separable(s.metadata) ==> r.metadata == s.metadata
  {
    var rt, st := PrintInt(r.timestamp), PrintInt(s.timestamp);
    var rm, sm := MetadataText(r.metadata), MetadataText(s.metadata);
    FirstOf('|', r.operation, r.actor + "|" + (rt + "|" + rm), s.operation, s.actor + "|" + (st + "|" + sm));
    FirstOf('|', r.actor, rt + "|" + rm, s.actor, st + "|" + sm);
    assert NoBar(rt) by { forall i | 0 <= i < |rt| ensures rt[i] != '|' { assert rt[i] in rt; } }
    assert NoBar(st) by { forall i | 0 <= i < |st| ensures st[i] != '|' { assert st[i] in st; } }
    FirstOf('|', rt, rm, st, sm);
    StollPrintInt(r.timestamp);
    StollPrintInt(s.timestamp);
    if Separable(r.metadata) && Separable(s.metadata) {
      SeparableIsInjective(r.metadata, s.metadata);
    }
  }

  /** The content of a record fixes its operation and actor, given its time and metadata. */
  ghost predicate Unambiguous(r: Record) {
    forall s: Record | Content(s) == Content(r) && s.timestamp == r.timestamp && s.metadata == r.metadata ::
      s.operation == r.operation && s.actor == r.actor
  }

  /** It does so exactly for records without a bar in either. */
  lemma UnambiguousWithoutBars(r: Record)
    ensures Unambiguous(r) <==> NoBar(r.operation) && NoBar(r.actor)
  {
    if !NoBar(r.operation) || !NoBar(r.actor) {
      var s := Twin(r);
    } else {
      forall s: Record | Content(s) == Content(r) && s.timestamp == r.timestamp && s.metadata == r.metadata
        ensures s.operation == r.operation && s.actor == r.actor
      {
        OneBar(r, s);
      }
    }
  }

  /** The bar may belong to either side. */
  lemma MovesBar(a: string, b: string, c: string, tail: string)
    ensures a + "|" + ((b + "|" + c) + "|" + tail) == (a + "|" + b) + "|" + (c + "|" + tail)
  {
  }

  lemma SplitAt(s: string, i: nat)
    requires i < |s| && s[i] == '|'
    ensures s == s[..i] + "|" + s[i + 1..]
  {
  }

  /** A record with a bar in its operation or actor has a twin with the same content. */
  lemma Twin(r: Record) returns (s: Record)
    requires !NoBar(r.operation) || !NoBar(r.actor)
    ensures Content(s) == Content(r) && s.timestamp == r.timestamp && s.metadata == r.metadata
    ensures s.operation != r.operation
  {
    var tail := PrintInt(r.timestamp) + "|" + MetadataText(r.metadata);
    if !NoBar(r.operation) {
      var i :| 0 <= i < |r.operation| && r.operation[i] == '|';
      var a, b := r.operation[..i], r.operation[i + 1..];
      s := r.(operation := a, actor := b + "|" + r.actor);
      SplitAt(r.operation, i);
      MovesBar(a, b, r.actor, tail);
    } else {
      var i :| 0 <= i < |r.actor| && r.actor[i] == '|';
      var a, b := r.actor[..i], r.actor[i + 1..];
      s := r.(operation := r.operation + "|" + a, actor := b);
      SplitAt(r.actor, i);
      MovesBar(r.operation, a, b, tail);
    }
  }

  lemma SameEnd(x: string, y: string, tail: string)
    requires x + tail == y + tail
    ensures x == y
  {
    assert |x| == |y|;
    assert x == (x + tail)[..|x|] && y == (y + tail)[..|y|];
  }

  lemma OneBar(r: Record, s: Record)
    requires NoBar(r.operation) && NoBar(r.actor) && Content(s) == Content(r)
    requires s.timestamp == r.timestamp && s.metadata == r.metadata
    ensures s.operation == r.operation && s.actor == r.actor
  {
    var tail := "|" + (PrintInt(r.timestamp) + "|" + MetadataText(r.metadata));
    assert Content(r) == (r.operation + "|" + r.actor) + tail;
    assert Content(s) == (s.operation + "|" + s.actor) + tail;
    SameEnd(r.operation + "|" + r.actor, s.operation + "|" + s.actor, tail);
    OnlyBar(r.operation, r.actor, s.operation, s.actor);
  }

  /** A text with one bar is divided at it in one way. */
  lemma OnlyBar(a: string, b: string, c: string, d: string)
    requires NoBar(a) && NoBar(b) && a + "|" + b == c + "|" + d
    ensures c == a && d == b
  {
    var x, y := a + "|" + b, c + "|" + d;
    assert x[|a|] == '|' && y[|c|] == '|';
    assert forall i | 0 <= i < |x| && i != |a| :: x[i] != '|' by {
      assert forall i | 0 <= i < |a| :: x[i] == a[i];
      assert forall i | |a| < i < |x| :: x[i] == b[i - |a| - 1];
    }
    assert |c| == |a|;
    assert c == y[..|c|] && a == x[..|a|] && d == y[|c| + 1..] && b == x[|a| + 1..];
  }

  // ---------------------------------------------------------------- metadata

  /** No equals sign in a key and no semicolon in a value. */
  predicate Separable(m: Metadata) { forall e | e in m :: Free(e.0, '=') && Free(e.1, ';') }

  lemma TextSplits(m: Metadata)
    requires m != []
    ensures MetadataText(m) == m[0].0 + "=" + (m[0].1 + ";" + MetadataText(m[1..]))
  {
    var k, v, t := m[0].0, m[0].1, MetadataText(m[1..]);
    assert k + "=" + v + ";" + t == k + "=" + (v + ";" + t);
  }

  /** Such lists are fixed by their text. */
  lemma {:induction false} SeparableIsInjective(m: Metadata, n: Metadata)
    requires Separable(m) && Separable(n) && MetadataText(m) == MetadataText(n)
    ensures m == n
  {
    if m != [] && n != [] {
      var k, v, k', v' := m[0].0, m[0].1, n[0].0, n[0].1;
      var t, t' := MetadataText(m[1..]), MetadataText(n[1..]);
      assert m[0] in m && n[0] in n;
      TextSplits(m);
      TextSplits(n);
      FirstOf('=', k, v + ";" + t, k', v' + ";" + t');
      FirstOf(';', v, t, v', t');
      SeparableIsInjective(m[1..], n[1..]);
      assert m == [m[0]] + m[1..] && n == [n[0]] + n[1..];
    }
  }

  /** No other map is written as the same text. */
  ghost predicate OneReading(m: Metadata) { forall n | Legal(n) && MetadataText(n) == MetadataText(m) :: n == m }

  /** That is so exactly for the empty map and for a single entry without an equals sign of its own:
      two entries always read like one with a longer value. */
  lemma MetadataIsAmbiguous(m: Metadata)
    requires Legal(m)
    ensures OneReading(m) <==> m == [] || (|m| == 1 && Free(m[0].0, '=') && Free(m[0].1, '='))
  {
    if |m| == 1 && Free(m[0].0, '=') && Free(m[0].1, '=') {
      forall n | Legal(n) && MetadataText(n) == MetadataText(m) ensures n == m { SingleReading(m, n); }
    } else if m != [] {
      var n := OtherReading(m);
    }
  }

  function Count(s: string, c: char): nat {
    if s == "" then 0 else (if s[0] == c then 1 else 0) + Count(s[1..], c)
  }

  lemma {:induction false} CountConcat(a: string, b: string, c: char)
    ensures Count(a + b, c) == Count(a, c) + Count(b, c)
  {
    if a == "" {
      assert a + b == b;
    } else {
      assert (a + b)[1..] == a[1..] + b;
      CountConcat(a[1..], b, c);
    }
  }

  lemma {:induction false} CountFree(s: string, c: char)
    ensures Count(s, c) == 0 <==> Free(s, c)
  {
    if s != "" {
      CountFree(s[1..], c);
      if Free(s[1..], c) && s[0] != c { assert forall i | 1 <= i < |s| :: s[i] == s[1..][i - 1]; }
      if Free(s, c) { assert forall i | 0 <= i < |s| - 1 :: s[1..][i] == s[i + 1]; }
    }
  }

  lemma CountEntry(m: Metadata)
    requires m != []
    ensures Count(MetadataText(m), '=') == Count(m[0].0, '=') + 1 + Count(m[0].1, '=') + Count(MetadataText(m[1..]), '=')
  {
    var k, v, t := m[0].0, m[0].1, MetadataText(m[1..]);
    assert MetadataText(m) == ((k + "=") + (v + ";")) + t;
    CountConcat((k + "=") + (v + ";"), t, '=');
    CountConcat(k + "=", v + ";", '=');
    CountConcat(k, "=", '=');
    CountConcat(v, ";", '=');
    assert "="[1..] == "" && ";"[1..] == "";
  }

  /** With one equals sign in the text there is one entry, divided there. */
  lemma SingleReading(m: Metadata, n: Metadata)
    requires |m| == 1 && Free(m[0].0, '=') && Free(m[0].1, '=') && MetadataText(n) == MetadataText(m)
    ensures n == m
  {
    CountFree(m[0].0, '=');
    CountFree(m[0].1, '=');
    CountEntry(m);
    assert m[1..] == [];
    assert n != [];
    CountEntry(n);
    if n[1..] != [] { CountEntry(n[1..]); }
    CountFree(n[0].0, '=');
    var k, v, k', v' := m[0].0, m[0].1, n[0].0, n[0].1;
    TextSplits(m);
    TextSplits(n);
    assert v + ";" + "" == v + ";" && v' + ";" + "" == v' + ";";
    FirstOf('=', k, v + ";", k', v' + ";");
    assert v == (v + ";")[..|v|] && v' == (v' + ";")[..|v'|];
    assert n == [n[0]] + n[1..];
  }

  lemma OtherReading(m: Metadata) returns (n: Metadata)
    requires m != [] && (|m| == 1 ==> !Free(m[0].0, '=') || !Free(m[0].1, '='))
    ensures Legal(n) && MetadataText(n) == MetadataText(m) && n != m
  {
    var k, v, t := m[0].0, m[0].1, MetadataText(m[1..]);
    if |m| > 1 {
      assert m[1..] != [];
      TextEnds(m[1..]);
      n := [(k, v + ";" + t[..|t| - 1])];
      assert t == t[..|t| - 1] + ";";
      OneEntry(n[0]);
      assert k + "=" + (v + ";" + t[..|t| - 1]) + ";" == k + "=" + v + ";" + (t[..|t| - 1] + ";");
    } else {
      assert m[1..] == [];
      OneEntry(m[0]);
      assert m == [m[0]];
      if i :| 0 <= i < |k| && k[i] == '=' {
        n := [(k[..i], k[i + 1..] + "=" + v)];
        assert k == k[..i] + "=" + k[i + 1..];
        assert k[..i] + "=" + (k[i + 1..] + "=" + v) + ";" == (k[..i] + "=" + k[i + 1..]) + "=" + v + ";";
      } else {
        var i :| 0 <= i < |v| && v[i] == '=';
        n := [(k + "=" + v[..i], v[i + 1..])];
        assert v == v[..i] + "=" + v[i + 1..];
        assert (k + "=" + v[..i]) + "=" + v[i + 1..] + ";" == k + "=" + (v[..i] + "=" + v[i + 1..]) + ";";
      }
      OneEntry(n[0]);
    }
  }

  lemma OneEntry(e: (string, string))
    ensures MetadataText([e]) == e.0 + "=" + e.1 + ";"
  {
    assert [e][1..] == [];
  }

  lemma {:induction false} TextEnds(m: Metadata)
    requires m != []
    ensures var t := MetadataText(m); t != "" && t[|t| - 1] == ';'
  {
    if m[1..] != [] { TextEnds(m[1..]); }
  }

  // ---------------------------------------------------------------- forks

  /** Two records of a built log with the same previous hash: stepping back along both until the
      chain of one reaches the first record, the chain inputs of some pair on the way collide. */
  lemma {:induction false} ForkCollides(h: Hash, records: seq<Record>, i: nat, j: nat) returns (k: nat)
    requires Digests(h) && Built(h, records) && i < j < |records|
    requires records[i].prevHash == records[j].prevHash
    ensures k < i && Collision(h, ChainInput(records[k]), ChainInput(records[k + (j - i)]))
    decreases i
  {
    hide Content;
    assert LinkAt(h, records, j);
    DigestsAt(h, records, j - 1);
    assert |records[j].prevHash| == 64 && i > 0;
    assert LinkAt(h, records, i);
    DigestsAt(h, records, i - 1);
    var r, s := records[i - 1], records[j - 1];
    if ChainInput(r) == ChainInput(s) {
      SplitsAlike(r.prevHash, r.contentHash, s.prevHash, s.contentHash);
      k := ForkCollides(h, records, i - 1, j - 1);
    } else {
      k := i - 1;
    }
  }

  lemma DigestsAt(h: Hash, records: seq<Record>, i: nat)
    requires Digests(h) && Built(h, records) && i < |records|
    ensures var r := records[i];
            |r.chainHash| == 64 && |r.contentHash| == 64 && r.chainHash == h(r.prevHash + r.contentHash)
  {
    hide Content;
    if i > 0 {
      assert LinkAt(h, records, i);
    }
  }

  function IdsWith(records: seq<Record>, prevHash: string): seq<string> {
    if records == [] then []
    else IdsWith(records[..|records| - 1], prevHash) +
         (if records[|records| - 1].prevHash == prevHash then [records[|records| - 1].recordId] else [])
  }

  /** They are the identifiers of exactly the records with this previous hash, in their order. */
  lemma {:induction false} IdsAreOfRecords(records: seq<Record>, prevHash: string) returns (at: seq<nat>)
    ensures forall j, k | 0 <= j < k < |at| :: at[j] < at[k]
    ensures forall i: nat :: i in at <==> i < |records| && records[i].prevHash == prevHash
    ensures |at| == |IdsWith(records, prevHash)|
    ensures forall k | 0 <= k < |at| :: at[k] < |records| && IdsWith(records, prevHash)[k] == records[at[k]].recordId
    decreases |records|
  {
    IdsStep(records, prevHash);
    hide IdsWith;
    if records == [] {
      at := [];
    } else {
      var n := |records| - 1;
      at := IdsAreOfRecords(records[..n], prevHash);
      assert forall k | 0 <= k < |at| :: at[k] in at && records[at[k]] == records[..n][at[k]];
      if records[n].prevHash == prevHash {
        at := at + [n];
      }
    }
  }

  lemma IdsStep(records: seq<Record>, prevHash: string)
    ensures records == [] ==> IdsWith(records, prevHash) == []
    ensures records != [] ==>
              var last := records[|records| - 1];
              IdsWith(records, prevHash) == IdsWith(records[..|records| - 1], prevHash) + if last.prevHash == prevHash then [last.recordId] else []
  {
  }

  lemma {:induction false} TwoIds(records: seq<Record>, prevHash: string) returns (i: nat, j: nat)
    requires |IdsWith(records, prevHash)| > 1
    ensures i < j < |records| && records[i].prevHash == records[j].prevHash == prevHash
    decreases |records|
  {
    var n := |records| - 1;
    if |IdsWith(records[..n], prevHash)| > 1 {
      i, j := TwoIds(records[..n], prevHash);
    } else {
      j := n;
      i := OneId(records[..n], prevHash);
    }
  }

  lemma {:induction false} OneId(records: seq<Record>, prevHash: string) returns (i: nat)
    requires IdsWith(records, prevHash) != []
    ensures i < |records| && records[i].prevHash == prevHash
    decreases |records|
  {
    var n := |records| - 1;
    if records[n].prevHash == prevHash {
      i := n;
    } else {
      i := OneId(records[..n], prevHash);
    }
  }

  datatype Fork = Fork(prevHash: string, competing: seq<string>)

  /** Whatever `detect_forks` reports on a built log comes with two of its records whose chain inputs collide. */
  lemma ReportedForkCollides(h: Hash, records: seq<Record>, fork: Fork) returns (k: nat, l: nat)
    requires Digests(h) && Built(h, records)
    requires fork.competing == IdsWith(records, fork.prevHash) && |fork.competing| > 1
    ensures k < l < |records| && Collision(h, ChainInput(records[k]), ChainInput(records[l]))
  {
    var i, j := TwoIds(records, fork.prevHash);
    k := ForkCollides(h, records, i, j);
    l := k + (j - i);
  }

  datatype Error = AlreadyExists | InvalidState | InvalidArgument

  datatype Report = Report(isValid: bool, total: nat, verified: nat, brokenLinks: seq<string>)

  // ---------------------------------------------------------------- broken links

  /** The identifier of `curr`, once for each of the three checks that it fails. */
  function BrokenAt(h: Hash, prev: Record, curr: Record): (ids: seq<string>)
    ensures ids == [] <==> LinkOk(h, prev, curr)
    ensures forall id :: id in ids <==> id == curr.recordId && !LinkOk(h, prev, curr)
  {
    (if curr.prevHash != prev.chainHash then [curr.recordId] else [])
    + (if curr.contentHash != h(Content(curr)) then [curr.recordId] else [])
    + (if curr.chainHash != h(curr.prevHash + curr.contentHash) then [curr.recordId] else [])
  }

  function BrokenLinks(h: Hash, records: seq<Record>): seq<string> {
    if |records| <= 1 then []
    else BrokenLinks(h, records[..|records| - 1]) + BrokenAt(h, records[|records| - 2], records[|records| - 1])
  }

  lemma MoreVerified(h: Hash, records: seq<Record>, i: nat)
    requires 1 <= i < |records|
    ensures Verified(h, records[..i + 1]) <==> Verified(h, records[..i]) && LinkOk(h, records[i - 1], records[i])
  {
    hide LinkOk, Content;
    var more := records[..i + 1];
    forall k: nat | 1 <= k < i ensures LinkAt(h, more, k) == LinkAt(h, records[..i], k) {
    }
    assert LinkAt(h, more, i) == LinkOk(h, records[i - 1], records[i]);
    hide LinkAt;
  }

  lemma OneMoreLink(h: Hash, records: seq<Record>, i: nat)
    requires 1 <= i < |records|
    ensures BrokenLinks(h, records[..i + 1]) == BrokenLinks(h, records[..i]) + BrokenAt(h, records[i - 1], records[i])
    ensures Verified(h, records[..i + 1]) <==> Verified(h, records[..i]) && LinkOk(h, records[i - 1], records[i])
  {
    hide LinkOk, BrokenAt, Content, Verified;
    assert records[..i + 1][..i] == records[..i];
    MoreVerified(h, records, i);
  }

  /** The daily report is empty exactly when the chain verifies, and names exactly the records
      whose link is broken. */
  lemma {:induction false} ReportAgreesWithVerification(h: Hash, records: seq<Record>)
    ensures BrokenLinks(h, records) == [] <==> Verified(h, records)
    ensures forall id :: id in BrokenLinks(h, records) <==> IsBroken(h, records, id)
  {
    hide LinkOk, BrokenAt, BrokenLinks;
    if |records| > 1 {
      var n := |records| - 1;
      ReportAgreesWithVerification(h, records[..n]);
      assert records[..n + 1] == records;
      OneMoreLink(h, records, n);
      forall id ensures IsBroken(h, records, id) <==>
          IsBroken(h, records[..n], id) || (records[n].recordId == id && !LinkAt(h, records, n))
      {
        forall k: nat | 1 <= k < n ensures LinkAt(h, records[..n], k) == LinkAt(h, records, k) {
        }
      }
    } else {
      NoLinks(h, records);
    }
  }

  lemma NoLinks(h: Hash, records: seq<Record>)
    requires |records| <= 1
    ensures BrokenLinks(h, records) == [] && Verified(h, records)
  {
  }

  ghost predicate IsBroken(h: Hash, records: seq<Record>, id: string) {
    exists k: nat :: 1 <= k < |records| && records[k].recordId == id && !LinkAt(h, records, k)
  }

  // ---------------------------------------------------------------- the log

  class Log {
    const hash: Hash
    var records: seq<Record>
    var genesisCreated: bool
    var nextId: nat

    ghost predicate Valid()
      reads this
    {
      Built(hash, records) && (genesisCreated <==> records != []) && nextId == |records| + 1
    }

    constructor (hash: Hash)
      ensures this.hash == hash && Valid() && records == []
    {
      this.hash, records, genesisCreated, nextId := hash, [], false, 1;
    }

    method CreateGenesis(now: int64) returns (error: Option<Error>)
      requires Valid()
      modifies this
      ensures Valid()
      ensures old(genesisCreated) ==> error == Some(AlreadyExists) && records == old(records) && nextId == old(nextId)
      ensures !old(genesisCreated) ==>
                && error == None && |records| == 1
                && records[0].operation == "genesis" && records[0].actor == "system"
                && records[0].timestamp == now && records[0].metadata == []
    {
      if genesisCreated {
        return Some(AlreadyExists);
      }
      var r := Record("aud_" + PrintNat(nextId), "genesis", "system", now, "0", "", "", []);
      nextId := nextId + 1;
      r := r.(contentHash := hash(Content(r)));
      r := r.(chainHash := hash(r.prevHash + r.contentHash));
      records := records + [r];
      genesisCreated := true;
      return None;
    }

    /** A new record linked to the last one; nothing already recorded changes. */
    method Append(operation: string, actor: string, metadata: seq<(string, string)>, now: int64)
      returns (error: Option<Error>)
      requires Valid()
      modifies this
      ensures Valid()
      ensures error == Some(InvalidState) <==> !old(genesisCreated)
      ensures error == Some(InvalidArgument) <==> old(genesisCreated) && operation == ""
      ensures error.Some? ==> records == old(records) && nextId == old(nextId)
      ensures error == None ==>
                && |records| == |old(records)| + 1 && records[..|old(records)|] == old(records)
                && var r := records[|records| - 1];
                   && r.operation == operation && r.actor == actor && r.metadata == metadata && r.timestamp == now
                   && r.recordId == "aud_" + PrintNat(|records|)
    {
      hide Built, PrintNat;
      if !genesisCreated {
        return Some(InvalidState);
      }
      if operation == "" {
        return Some(InvalidArgument);
      }
      var last := records[|records| - 1];
      var r := Record("aud_" + PrintNat(nextId), operation, actor, now, last.chainHash, "", "", metadata);
      nextId := nextId + 1;
      r := r.(contentHash := hash(Content(r)));
      r := r.(chainHash := hash(r.prevHash + r.contentHash));
      AppendKeeps(records, r);
      records := records + [r];
      return None;
    }

    lemma AppendKeeps(before: seq<Record>, r: Record)
      requires Built(hash, before) && before != [] && LinkOk(hash, before[|before| - 1], r)
      ensures Built(hash, before + [r])
    {
      hide LinkOk;
      var more := before + [r];
      forall k: nat | 1 <= k < |more| ensures LinkAt(hash, more, k) {
        if k < |before| {
          assert LinkAt(hash, before, k);
        }
      }
    }

    method VerifyChain() returns (ok: bool)
      ensures ok == Verified(hash, records)
      ensures Valid() ==> ok
    {
      if records == [] {
        return true;
      }
      for i := 1 to |records|
        invariant forall k: nat | 1 <= k < i :: LinkAt(hash, records, k)
      {
        assert LinkAt(hash, records, i) == LinkOk(hash, records[i - 1], records[i]);
        var prev, curr := records[i - 1], records[i];
        if curr.prevHash != prev.chainHash {
          return false;
        }
        if curr.contentHash != hash(Content(curr)) {
          return false;
        }
        if curr.chainHash != hash(curr.prevHash + curr.contentHash) {
          return false;
        }
      }
      return true;
    }

    /** Checks every link and names the records whose links are broken. */
    method DailyVerification() returns (report: Report)
      ensures report == Report(Verified(hash, records), |records|, if records == [] then 0 else |records| - 1, BrokenLinks(hash, records))
    {
      hide Verified, BrokenLinks, Content;
      var broken, valid, verified := [], true, 0;
      NoLinks(hash, if records == [] then [] else records[..1]);
      if records == [] {
        return Report(true, 0, 0, []);
      }
      for i := 1 to |records|
        invariant verified == i - 1 && broken == BrokenLinks(hash, records[..i])
        invariant valid <==> Verified(hash, records[..i])
      {
        var prev, curr := records[i - 1], records[i];
        ghost var before := broken;
        if curr.prevHash != prev.chainHash {
          broken, valid := broken + [curr.recordId], false;
        }
        if curr.contentHash != hash(Content(curr)) {
          broken, valid := broken + [curr.recordId], false;
        }
        if curr.chainHash != hash(curr.prevHash + curr.contentHash) {
          broken, valid := broken + [curr.recordId], false;
        }
        assert broken == before + BrokenAt(hash, prev, curr);
        OneMoreLink(hash, records, i);
        verified := verified + 1;
      }
      assert records[..|records|] == records;
      report := Report(valid, |records|, verified, broken);
    }

    method GroupByPrevious() returns (groups: map<string, seq<string>>)
      ensures forall p | p in groups :: groups[p] == IdsWith(records, p)
      ensures forall p | p !in groups :: IdsWith(records, p) == []
    {
      groups := map[];
      for i := 0 to |records|
        invariant forall p | p in groups :: groups[p] == IdsWith(records[..i], p)
        invariant forall p | p !in groups :: IdsWith(records[..i], p) == []
      {
        var r := records[i];
        assert records[..i + 1][..i] == records[..i];
        groups := groups[r.prevHash := (if r.prevHash in groups then groups[r.prevHash] else []) + [r.recordId]];
      }
      assert records[..|records|] == records;
    }

    /** Groups the records by previous hash and reports the groups of more than one, each once. */
    method DetectForks() returns (forks: seq<Fork>)
      ensures forall f | f in forks :: f.competing == IdsWith(records, f.prevHash) && |f.competing| > 1
      ensures forall p | |IdsWith(records, p)| > 1 :: exists f :: f in forks && f.prevHash == p
      ensures forall i, j | 0 <= i < j < |forks| :: forks[i].prevHash != forks[j].prevHash
    {
      hide IdsWith;
      var groups := GroupByPrevious();
      forks := [];
      var todo := groups.Keys;
      while todo != {}
        invariant todo <= groups.Keys
        invariant forall f | f in forks :: f.competing == IdsWith(records, f.prevHash) && |f.competing| > 1
        invariant forall p | p in groups && p !in todo && |groups[p]| > 1 :: exists f :: f in forks && f.prevHash == p
        invariant forall i | 0 <= i < |forks| :: forks[i].prevHash !in todo
        invariant forall i, j | 0 <= i < j < |forks| :: forks[i].prevHash != forks[j].prevHash
        decreases |todo|
      {
        var p :| p in todo;
        ghost var before := forks;
        if |groups[p]| > 1 {
          forks := forks + [Fork(p, groups[p])];
          assert forks[|forks| - 1].prevHash == p;
        }
        assert forall f | f in before :: f in forks;
        todo := todo - {p};
      }
    }
  }
}
