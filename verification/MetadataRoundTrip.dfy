/** Which tables survive being printed and parsed again: exactly those whose version strings and
    snapshot strings keep their square brackets nested. */
module MetadataRoundTrip {
  import opened Common
  import opened MetadataText

  // ---------------------------------------------------------------- bracket nesting

  /** Bracket depth after reading `s` from depth `d`; `None` once depth 0 is reached. */
  function Nest(s: string, d: nat): (e: Option<nat>)
    requires d >= 1
    ensures e.Some? ==> e.value >= 1
  {
    if s == "" then Some(d)
    else if s[0] == '[' then Nest(s[1..], d + 1)
    else if s[0] == ']' then if d == 1 then None else Nest(s[1..], d - 1)
    else Nest(s[1..], d)
  }

  predicate Balanced(s: string) { Nest(s, 1) == Some(1) }

  function VersionStrings(vs: seq<VersionMeta>): string {
    if vs == [] then ""
    else vs[0].versionId + (vs[0].tableId + (vs[0].schemaHash + VersionStrings(vs[1..])))
  }

  function SnapshotStrings(ss: seq<SnapshotRef>): string {
    if ss == [] then "" else ss[0].snapshotId + SnapshotStrings(ss[1..])
  }

  predicate BracketSafe(t: TableMetadata) {
    Balanced(VersionStrings(t.versions)) && Balanced(SnapshotStrings(t.snapshots))
  }

  lemma {:induction false} NestConcat(a: string, b: string, d: nat)
    requires d >= 1
    ensures Nest(a + b, d) == if Nest(a, d).None? then None else Nest(b, Nest(a, d).value)
  {
    if a == "" {
      assert a + b == b;
    } else {
      assert (a + b)[1..] == a[1..] + b;
      if a[0] == '[' {
        NestConcat(a[1..], b, d + 1);
      } else if a[0] == ']' {
        if d > 1 { NestConcat(a[1..], b, d - 1); }
      } else {
        NestConcat(a[1..], b, d);
      }
    }
  }

  predicate NoBrackets(s: string) { forall i | 0 <= i < |s| :: s[i] != '[' && s[i] != ']' }

  lemma {:induction false} NestPlain(a: string, d: nat)
    requires d >= 1 && NoBrackets(a)
    ensures Nest(a, d) == Some(d)
  {
    if a != "" {
      NestPlain(a[1..], d);
    }
  }

  lemma {:induction false} NestEscape(s: string, d: nat)
    requires d >= 1
    ensures Nest(Escape(s), d) == Nest(s, d)
  {
    if s != "" {
      NestConcat(EscapeChar(s[0]), Escape(s[1..]), d);
      if s[0] == '[' {
        assert Nest(EscapeChar(s[0]), d) == Some(d + 1) by { assert "["[1..] == ""; }
        NestEscape(s[1..], d + 1);
      } else if s[0] == ']' {
        if d > 1 {
          assert Nest(EscapeChar(s[0]), d) == Some(d - 1) by { assert "]"[1..] == ""; }
          NestEscape(s[1..], d - 1);
        }
      } else {
        NestPlain(EscapeChar(s[0]), d);
        NestEscape(s[1..], d);
      }
    }
  }

  // ---------------------------------------------------------------- parsing what was printed

  predicate IsWord(k: string) { forall i | 0 <= i < |k| :: 'a' <= k[i] <= 'z' || k[i] == '_' }

  predicate IsKey(k: string) { k != "" && IsWord(k) }

  lemma {:induction false} EscapeKey(k: string)
    requires IsWord(k)
    ensures Escape(k) == k
  {
    if k != "" {
      EscapeKey(k[1..]);
    }
  }

  lemma {:induction false} ReadsEscaped(s: string, rest: string)
    ensures StringBody(Escape(s) + ("\"" + rest)) == Some((s, rest))
  {
    var r := Escape(s) + ("\"" + rest);
    if s == "" {
      assert r == "\"" + rest;
    } else {
      ReadsEscaped(s[1..], rest);
      var e := EscapeChar(s[0]);
      var more := Escape(s[1..]) + ("\"" + rest);
      assert r == e + more;
      assert r[|e|..] == more;
      assert s == [s[0]] + s[1..];
    }
  }

  lemma {:induction false} CapturesNested(a: string, r: string, d: nat)
    requires d >= 1 && Nest(a, d).Some?
    ensures Capture(a + r, '[', ']', d) ==
            match Capture(r, '[', ']', Nest(a, d).value)
            case None => None
            case Some((text, rest)) => Some((a + text, rest))
  {
    if a == "" {
      assert a + r == r;
      assert forall text: string :: a + text == text;
    } else {
      assert (a + r)[1..] == a[1..] + r;
      CapturesNested(a[1..], r, if a[0] == '[' then d + 1 else if a[0] == ']' then d - 1 else d);
      if Capture(r, '[', ']', Nest(a, d).value).Some? {
        var text := Capture(r, '[', ']', Nest(a, d).value).value.0;
        assert a + text == [a[0]] + (a[1..] + text);
      }
    }
  }

  lemma {:induction false} ReadsScalar(s: string, rest: string)
    requires forall i | 0 <= i < |s| :: !EndsScalar(s[i])
    requires rest != "" && EndsScalar(rest[0])
    ensures Scalar(s + rest) == (s, rest)
  {
    if s == "" {
      assert s + rest == rest;
    } else {
      assert (s + rest)[1..] == s[1..] + rest;
      ReadsScalar(s[1..], rest);
      assert [s[0]] + s[1..] == s;
    }
  }

  function ValueText(v: Value): string {
    match v
    case Text(raw) => raw
    case Number(n) => PrintInt(n)
    case List(body) => "[" + body + "]"
  }

  predicate Readable(v: Value) { v.List? ==> Balanced(v.body) }

  predicate Closes(rest: string) { rest != "" && (rest[0] == ',' || rest[0] == '}') }

  lemma ReadsText(raw: string, rest: string)
    ensures ParseValue(PrintValue(Text(raw)) + rest) == Some((raw, rest))
  {
    hide StringBody, Escape;
    var r := "\"" + (Escape(raw) + ("\"" + rest));
    ReadsEscaped(raw, rest);
    Cat("\"" + Escape(raw), "\"", rest);
    Cat("\"", Escape(raw), "\"" + rest);
    assert r[1..] == Escape(raw) + ("\"" + rest);
    assert SkipWs(r) == r;
  }

  lemma StartsScalar(n: int64)
    ensures forall i | 0 <= i < |PrintInt(n)| :: !EndsScalar(PrintInt(n)[i])
    ensures PrintInt(n)[0] !in "\"[{"
  {
    forall i | 0 <= i < |PrintInt(n)|
      ensures IsDigit(PrintInt(n)[i]) || PrintInt(n)[i] == '-'
    {
      assert PrintInt(n)[i] in PrintInt(n);
    }
  }

  lemma ReadsNumber(n: int64, rest: string)
    requires Closes(rest)
    ensures ParseValue(PrintInt(n) + rest) == Some((PrintInt(n), rest))
  {
    var s := PrintInt(n);
    StartsScalar(n);
    ReadsScalar(s, rest);
    assert (s + rest)[0] == s[0];
    assert SkipWs(s + rest) == s + rest;
  }

  lemma ReadsList(body: string, rest: string)
    requires Balanced(body)
    ensures ParseValue("[" + body + "]" + rest) == Some(("[" + body + "]", rest))
  {
    var r := "[" + body + "]" + rest;
    CapturesNested(body, "]" + rest, 1);
    assert r[1..] == body + ("]" + rest);
    assert ("]" + rest)[1..] == rest;
    assert "[" + (body + "]") == "[" + body + "]";
    assert SkipWs(r) == r;
  }

  lemma ReadsValue(v: Value, rest: string)
    requires Readable(v) && Closes(rest)
    ensures SkipWs(PrintValue(v) + rest) == PrintValue(v) + rest
    ensures ParseValue(PrintValue(v) + rest) == Some((ValueText(v), rest))
  {
    match v
    case Text(raw) => ReadsText(raw, rest);
    case Number(n) => ReadsNumber(n, rest); StartsScalar(n);
    case List(body) => ReadsList(body, rest);
  }

  lemma ReadsKey(key: string, rest: string)
    requires IsKey(key)
    ensures ParseString(SkipWs("\"" + key + "\"" + rest)) == Some((key, rest))
  {
    hide StringBody, Escape, IsWord;
    EscapeKey(key);
    ReadsEscaped(key, rest);
    Cat("\"" + key, "\"", rest);
    Cat("\"", key, "\"" + rest);
    assert ("\"" + (key + ("\"" + rest)))[1..] == key + ("\"" + rest);
  }

  /** A key, its colon and a value: the value is stored and the parser stands behind it. */
  lemma ReadsMember(key: string, value: string, out: map<string, string>)
    requires IsKey(key) && SkipWs(value) == value
    ensures ParseMembers("\"" + key + "\"" + (":" + value), out) ==
            match ParseValue(value)
            case None => Parsed(false, out)
            case Some((text, rest)) => AfterValue(rest, out[key := text])
  {
    hide ParseString, ParseValue, AfterValue, IsKey;
    var tail := ":" + value;
    ReadsKey(key, tail);
    assert SkipWs(tail) == tail && tail[1..] == value;
  }

  lemma PrintsMember(f: Field, rest: string)
    ensures PrintField(f) + rest == "\"" + f.key + "\"" + (":" + (PrintValue(f.value) + rest))
  {
    hide PrintValue;
    Cat("\"" + f.key + "\"", ":" + PrintValue(f.value), rest);
    Cat(":", PrintValue(f.value), rest);
  }

  lemma ReadsField(f: Field, rest: string, out: map<string, string>)
    requires IsKey(f.key) && Readable(f.value) && Closes(rest)
    ensures ParseMembers(PrintField(f) + rest, out) == AfterValue(rest, out[f.key := ValueText(f.value)])
  {
    hide PrintField, PrintValue, ParseMembers, AfterValue, ParseValue, ValueText, IsKey;
    PrintsMember(f, rest);
    ReadsValue(f.value, rest);
    ReadsMember(f.key, PrintValue(f.value) + rest, out);
  }

  function Stored(fs: seq<Field>, out: map<string, string>): map<string, string> {
    if fs == [] then out else Stored(fs[1..], out[fs[0].key := ValueText(fs[0].value)])
  }

  predicate ReadableFields(fs: seq<Field>) {
    fs != [] && forall i | 0 <= i < |fs| :: IsKey(fs[i].key) && Readable(fs[i].value)
  }

  lemma ReadsComma(rest: string, out: map<string, string>)
    ensures AfterValue("," + rest, out) == ParseMembers(rest, out)
  {
    assert ("," + rest)[1..] == rest;
  }

  lemma {:induction false} ReadsFields(fs: seq<Field>, rest: string, out: map<string, string>)
    requires ReadableFields(fs) && Closes(rest)
    ensures ParseMembers(PrintFields(fs) + rest, out) == AfterValue(rest, Stored(fs, out))
  {
    hide PrintField, ParseMembers, AfterValue, ValueText;
    var stored := out[fs[0].key := ValueText(fs[0].value)];
    if |fs| == 1 {
      ReadsField(fs[0], rest, out);
      assert Stored(fs[1..], stored) == stored;
    } else {
      var f, more := PrintField(fs[0]), PrintFields(fs[1..]) + rest;
      Cat(f + ",", PrintFields(fs[1..]), rest);
      Cat(f, ",", more);
      ReadsField(fs[0], "," + more, out);
      ReadsComma(more, stored);
      ReadsFields(fs[1..], rest, stored);
    }
  }

  lemma ReadsObject(fs: seq<Field>)
    requires ReadableFields(fs)
    ensures ParseObject(PrintObject(fs)) == Parsed(true, Stored(fs, map[]))
  {
    var r := PrintObject(fs);
    ReadsFields(fs, "}", map[]);
    assert SkipWs(r) == r;
    assert r[1..] == PrintFields(fs) + "}";
    assert SkipWs(r[1..]) == r[1..] by { assert r[1..][0] == '"'; }
    assert SkipWs("}") == "}";
  }

  // ---------------------------------------------------------------- splitting what was printed

  lemma {:induction false} SplitsEscaped(s: string, rest: string, depth: int, current: string)
    ensures Split(Escape(s) + ("\"" + rest), true, depth, current) ==
            Split(rest, false, depth, current + Escape(s) + "\"")
  {
    var r := Escape(s) + ("\"" + rest);
    if s == "" {
      assert r == "\"" + rest && r[1..] == rest;
      assert current + [r[0]] == current + Escape(s) + "\"";
    } else {
      var e := EscapeChar(s[0]);
      assert r[|e|..] == Escape(s[1..]) + ("\"" + rest);
      assert r[..|e|] == e;
      assert current + e + Escape(s[1..]) + "\"" == current + Escape(s) + "\"";
      SplitsEscaped(s[1..], rest, depth, current + e);
    }
  }

  predicate NoMarks(s: string) { forall i | 0 <= i < |s| :: s[i] != '"' && s[i] != '{' && s[i] != '}' }

  lemma {:induction false} SplitsPlain(a: string, rest: string, current: string)
    requires NoMarks(a)
    ensures Split(a + rest, false, 1, current) == Split(rest, false, 1, current + a)
  {
    if a == "" {
      assert a + rest == rest && current + a == current;
    } else {
      assert (a + rest)[1..] == a[1..] + rest;
      assert current + [a[0]] + a[1..] == current + a;
      SplitsPlain(a[1..], rest, current + [a[0]]);
    }
  }

  predicate FlatFields(fs: seq<Field>) {
    fs != [] && forall i | 0 <= i < |fs| :: IsKey(fs[i].key) && !fs[i].value.List?
  }

  lemma SplitsQuoted(s: string, rest: string, current: string)
    ensures Split("\"" + Escape(s) + "\"" + rest, false, 1, current) ==
            Split(rest, false, 1, current + ("\"" + Escape(s) + "\""))
  {
    var r := "\"" + Escape(s) + "\"" + rest;
    assert r[1..] == Escape(s) + ("\"" + rest);
    SplitsEscaped(s, rest, 1, current + "\"");
    assert current + "\"" + Escape(s) + "\"" == current + ("\"" + Escape(s) + "\"");
  }

  lemma SplitsValue(v: Value, rest: string, current: string)
    requires !v.List?
    ensures Split(PrintValue(v) + rest, false, 1, current) == Split(rest, false, 1, current + PrintValue(v))
  {
    match v
    case Text(raw) => SplitsQuoted(raw, rest, current);
    case Number(n) =>
      assert forall i | 0 <= i < |PrintInt(n)| :: PrintInt(n)[i] in PrintInt(n);
      SplitsPlain(PrintInt(n), rest, current);
  }

  lemma SplitsField(f: Field, rest: string, current: string)
    requires IsKey(f.key) && !f.value.List?
    ensures Split(PrintField(f) + rest, false, 1, current) == Split(rest, false, 1, current + PrintField(f))
  {
    var quoted, value := "\"" + f.key + "\"", PrintValue(f.value);
    EscapeKey(f.key);
    calc {
      Split(PrintField(f) + rest, false, 1, current);
      { PrintsMember(f, rest); }
      Split(quoted + (":" + (value + rest)), false, 1, current);
      { SplitsQuoted(f.key, ":" + (value + rest), current); }
      Split(":" + (value + rest), false, 1, current + quoted);
      { SplitsPlain(":", value + rest, current + quoted); }
      Split(value + rest, false, 1, current + quoted + ":");
      { SplitsValue(f.value, rest, current + quoted + ":"); }
      Split(rest, false, 1, current + quoted + ":" + value);
      { Cat(current + quoted, ":", value); Cat(current, quoted, ":" + value); }
      Split(rest, false, 1, current + PrintField(f));
    }
  }

  lemma {:induction false} SplitsFields(fs: seq<Field>, rest: string, current: string)
    requires FlatFields(fs)
    ensures Split(PrintFields(fs) + rest, false, 1, current) ==
            Split(rest, false, 1, current + PrintFields(fs))
  {
    if |fs| == 1 {
      SplitsField(fs[0], rest, current);
    } else {
      var f, more := PrintField(fs[0]), PrintFields(fs[1..]);
      calc {
        Split(PrintFields(fs) + rest, false, 1, current);
        { Cat(f + ",", more, rest); Cat(f, ",", more + rest); }
        Split(f + ("," + (more + rest)), false, 1, current);
        { SplitsField(fs[0], "," + (more + rest), current); }
        Split("," + (more + rest), false, 1, current + f);
        { SplitsPlain(",", more + rest, current + f); }
        Split(more + rest, false, 1, current + f + ",");
        { SplitsFields(fs[1..], rest, current + f + ","); }
        Split(rest, false, 1, current + f + "," + more);
        { Cat(current, f, ","); Cat(current, f + ",", more); }
        Split(rest, false, 1, current + PrintFields(fs));
      }
    }
  }

  lemma SplitsOpen(r: string, current: string)
    ensures Split("{" + r, false, 0, current) == Split(r, false, 1, "{")
  {
    assert ("{" + r)[1..] == r;
  }

  lemma SplitsClose(rest: string, current: string)
    ensures Split("}" + rest, false, 1, current) == [current + "}"] + Split(rest, false, 0, current)
  {
    assert ("}" + rest)[1..] == rest;
  }

  lemma SplitsObject(fs: seq<Field>, rest: string, current: string)
    requires FlatFields(fs)
    ensures Split(PrintObject(fs) + rest, false, 0, current) ==
            [PrintObject(fs)] + Split(rest, false, 0, "{" + PrintFields(fs))
  {
    var body := PrintFields(fs);
    Cat("{" + body, "}", rest);
    Cat("{", body, "}" + rest);
    SplitsOpen(body + ("}" + rest), current);
    SplitsFields(fs, "}" + rest, "{");
    SplitsClose(rest, "{" + body);
  }

  function Printed(objects: seq<seq<Field>>): seq<string> {
    seq(|objects|, i requires 0 <= i < |objects| => PrintObject(objects[i]))
  }

  lemma SplitsSeparator(r: string, current: string)
    ensures Split("," + r, false, 0, current) == Split(r, false, 0, current)
  {
    assert ("," + r)[1..] == r;
  }

  lemma {:induction false} SplitsObjects(objects: seq<seq<Field>>, current: string)
    requires forall fs | fs in objects :: FlatFields(fs)
    ensures Split(PrintObjects(objects) + "]", false, 0, current) == Printed(objects)
  {
    hide PrintObject, PrintFields;
    if objects == [] {
      assert PrintObjects(objects) + "]" == "]";
    } else if |objects| == 1 {
      SplitsObject(objects[0], "]", current);
      assert Printed(objects) == [PrintObject(objects[0])];
    } else {
      var first, more := PrintObject(objects[0]), PrintObjects(objects[1..]) + "]";
      Cat(first + ",", PrintObjects(objects[1..]), "]");
      Cat(first, ",", more);
      SplitsObject(objects[0], "," + more, current);
      SplitsSeparator(more, "{" + PrintFields(objects[0]));
      SplitsObjects(objects[1..], "{" + PrintFields(objects[0]));
      assert Printed(objects) == [first] + Printed(objects[1..]);
    }
  }

  lemma SplitsList(objects: seq<seq<Field>>)
    requires forall fs | fs in objects :: FlatFields(fs)
    ensures SplitArray("[" + PrintObjects(objects) + "]") == Printed(objects)
  {
    assert ("[" + PrintObjects(objects) + "]")[1..] == PrintObjects(objects) + "]";
    SplitsObjects(objects, "");
  }

  // ---------------------------------------------------------------- the safe direction

  lemma {:induction false} StoreKeeps(fs: seq<Field>, key: string, out: map<string, string>)
    requires forall f | f in fs :: f.key != key
    ensures key in Stored(fs, out) <==> key in out
    ensures key in out ==> Stored(fs, out)[key] == out[key]
  {
    if fs != [] {
      StoreKeeps(fs[1..], key, out[fs[0].key := ValueText(fs[0].value)]);
    }
  }

  lemma {:induction false} StoreLookup(fs: seq<Field>, i: nat, out: map<string, string>)
    requires i < |fs| && forall j | i < j < |fs| :: fs[j].key != fs[i].key
    ensures fs[i].key in Stored(fs, out)
    ensures Stored(fs, out)[fs[i].key] == ValueText(fs[i].value)
  {
    var stored := out[fs[0].key := ValueText(fs[0].value)];
    if i == 0 {
      StoreKeeps(fs[1..], fs[0].key, stored);
    } else {
      StoreLookup(fs[1..], i - 1, stored);
    }
  }

  lemma {:induction false} StoreConcat(a: seq<Field>, b: seq<Field>, out: map<string, string>)
    ensures Stored(a + b, out) == Stored(b, Stored(a, out))
  {
    if a == [] {
      assert a + b == b;
    } else {
      assert (a + b)[1..] == a[1..] + b;
      StoreConcat(a[1..], b, out[a[0].key := ValueText(a[0].value)]);
    }
  }

  lemma VersionLookups(v: VersionMeta, o: map<string, string>)
    requires o == Stored(VersionFields(v), map[])
    ensures TextField(o, "version_id") == v.versionId && TextField(o, "table_id") == v.tableId
    ensures TextField(o, "schema_hash") == v.schemaHash
    ensures IntField(o, "created_at") == Some(v.createdAt) && IntField(o, "row_count") == Some(v.rowCount)
  {
    var fs := VersionFields(v);
    StoreLookup(fs, 0, map[]);
    StoreLookup(fs, 1, map[]);
    StoreLookup(fs, 2, map[]);
    StoreLookup(fs, 3, map[]);
    StoreLookup(fs, 4, map[]);
    StollPrintInt(v.createdAt);
    StollPrintInt(v.rowCount);
  }

  /** A printed version object is parsed back, whatever its strings contain. */
  lemma VersionRoundTrip(v: VersionMeta)
    ensures ParseVersion(PrintObject(VersionFields(v))) == Some(v)
  {
    hide PrintObject, ParseObject, TextField, IntField;
    ReadsObject(VersionFields(v));
    VersionLookups(v, ParseObject(PrintObject(VersionFields(v))).fields);
  }

  lemma SnapshotRoundTrip(s: SnapshotRef)
    ensures ParseSnapshot(PrintObject(SnapshotFields(s))) == Some(s)
  {
    hide PrintObject, ParseObject, Stoll;
    var fs := SnapshotFields(s);
    ReadsObject(fs);
    StoreLookup(fs, 0, map[]);
    StoreLookup(fs, 1, map[]);
    StoreLookup(fs, 2, map[]);
    StollPrintInt(s.rowCount);
    StollPrintInt(s.createdAt);
  }

  lemma {:induction false} VersionsRoundTrip(vs: seq<VersionMeta>)
    ensures ParseVersions(Printed(VersionObjects(vs))) == Some(vs)
  {
    hide PrintObject, ParseVersion;
    if vs != [] {
      VersionRoundTrip(vs[0]);
      VersionsRoundTrip(vs[1..]);
      assert Printed(VersionObjects(vs))[1..] == Printed(VersionObjects(vs[1..]));
      assert vs == [vs[0]] + vs[1..];
    }
  }

  lemma {:induction false} SnapshotsRoundTrip(ss: seq<SnapshotRef>)
    ensures ParseSnapshots(Printed(SnapshotObjects(ss))) == Some(ss)
  {
    hide PrintObject, ParseSnapshot;
    if ss != [] {
      SnapshotRoundTrip(ss[0]);
      SnapshotsRoundTrip(ss[1..]);
      assert Printed(SnapshotObjects(ss))[1..] == Printed(SnapshotObjects(ss[1..]));
      assert ss == [ss[0]] + ss[1..];
    }
  }

  lemma VersionIsFlat(v: VersionMeta)
    ensures FlatFields(VersionFields(v))
  {
  }

  lemma SnapshotIsFlat(s: SnapshotRef)
    ensures FlatFields(SnapshotFields(s)) && |SnapshotFields(s)| == 3 && !SnapshotFields(s)[2].value.Text?
  {
  }

  lemma VersionsAreFlat(vs: seq<VersionMeta>)
    ensures forall fs | fs in VersionObjects(vs) :: FlatFields(fs)
  {
    hide FlatFields, VersionFields;
    forall v | v in vs ensures FlatFields(VersionFields(v)) {
      VersionIsFlat(v);
    }
  }

  lemma SnapshotsAreFlat(ss: seq<SnapshotRef>)
    ensures forall fs: seq<Field> | fs in SnapshotObjects(ss) :: FlatFields(fs) && |fs| == 3 && !fs[2].value.Text?
  {
    hide FlatFields, SnapshotFields;
    forall s | s in ss
      ensures FlatFields(SnapshotFields(s)) && |SnapshotFields(s)| == 3 && !SnapshotFields(s)[2].value.Text?
    {
      SnapshotIsFlat(s);
    }
  }

  lemma VersionsListRoundTrip(vs: seq<VersionMeta>)
    ensures ParseVersions(SplitArray("[" + PrintObjects(VersionObjects(vs)) + "]")) == Some(vs)
  {
    hide FlatFields, VersionFields, PrintObjects, SplitArray;
    VersionsAreFlat(vs);
    SplitsList(VersionObjects(vs));
    VersionsRoundTrip(vs);
  }

  lemma SnapshotsListRoundTrip(ss: seq<SnapshotRef>)
    ensures ParseSnapshots(SplitArray("[" + PrintObjects(SnapshotObjects(ss)) + "]")) == Some(ss)
  {
    hide FlatFields, SnapshotFields, PrintObjects, SplitArray;
    SnapshotsAreFlat(ss);
    SplitsList(SnapshotObjects(ss));
    SnapshotsRoundTrip(ss);
  }

  function Raws(fs: seq<Field>): string {
    if fs == [] then ""
    else (if fs[0].value.Text? then fs[0].value.raw else "") + Raws(fs[1..])
  }

  function AllRaws(objects: seq<seq<Field>>): string {
    if objects == [] then "" else Raws(objects[0]) + AllRaws(objects[1..])
  }

  lemma NestWrapped(before: string, s: string, after: string, d: nat)
    requires d >= 1 && NoBrackets(before) && NoBrackets(after)
    ensures Nest(before + s + after, d) == Nest(s, d)
  {
    NestConcat(before + s, after, d);
    NestConcat(before, s, d);
    NestPlain(before, d);
    if Nest(s, d).Some? {
      NestPlain(after, Nest(s, d).value);
    }
  }

  lemma NestValue(v: Value, d: nat)
    requires d >= 1 && !v.List?
    ensures Nest(PrintValue(v), d) == Nest(if v.Text? then v.raw else "", d)
  {
    match v
    case Text(raw) =>
      NestWrapped("\"", Escape(raw), "\"", d);
      NestEscape(raw, d);
    case Number(n) =>
      assert forall i | 0 <= i < |PrintInt(n)| :: PrintInt(n)[i] in PrintInt(n);
      NestPlain(PrintInt(n), d);
  }

  lemma NestField(f: Field, d: nat)
    requires d >= 1 && IsKey(f.key) && !f.value.List?
    ensures Nest(PrintField(f), d) == Nest(if f.value.Text? then f.value.raw else "", d)
  {
    hide PrintValue;
    NestValue(f.value, d);
    NestWrapped("\"" + f.key + "\"" + ":", PrintValue(f.value), "", d);
    Cat("\"" + f.key + "\"", ":", PrintValue(f.value));
    assert PrintField(f) + "" == PrintField(f);
  }

  lemma {:induction false} NestFields(fs: seq<Field>, d: nat)
    requires d >= 1 && FlatFields(fs)
    ensures Nest(PrintFields(fs), d) == Nest(Raws(fs), d)
  {
    var raw := if fs[0].value.Text? then fs[0].value.raw else "";
    NestField(fs[0], d);
    NestConcat(raw, Raws(fs[1..]), d);
    if |fs| > 1 {
      NestWrapped("", PrintField(fs[0]), ",", d);
      assert "" + PrintField(fs[0]) + "," == PrintField(fs[0]) + ",";
      NestConcat(PrintField(fs[0]) + ",", PrintFields(fs[1..]), d);
      if Nest(raw, d).Some? {
        NestFields(fs[1..], Nest(raw, d).value);
      }
    } else {
      assert Raws(fs[1..]) == "";
    }
  }

  lemma NestObject(fs: seq<Field>, d: nat)
    requires d >= 1 && FlatFields(fs)
    ensures Nest(PrintObject(fs), d) == Nest(Raws(fs), d)
  {
    NestFields(fs, d);
    NestWrapped("{", PrintFields(fs), "}", d);
  }

  /** The brackets of a printed list are those of its strings: nothing else prints one. */
  lemma {:induction false} NestObjects(objects: seq<seq<Field>>, d: nat)
    requires d >= 1 && forall fs | fs in objects :: FlatFields(fs)
    ensures Nest(PrintObjects(objects), d) == Nest(AllRaws(objects), d)
  {
    hide PrintObject, Raws, IsKey;
    if objects != [] {
      var first := objects[0];
      NestObject(first, d);
      NestConcat(Raws(first), AllRaws(objects[1..]), d);
      if |objects| > 1 {
        NestWrapped("", PrintObject(first), ",", d);
        assert "" + PrintObject(first) + "," == PrintObject(first) + ",";
        NestConcat(PrintObject(first) + ",", PrintObjects(objects[1..]), d);
        if Nest(Raws(first), d).Some? {
          NestObjects(objects[1..], Nest(Raws(first), d).value);
        }
      } else {
        assert AllRaws(objects[1..]) == "";
      }
    }
  }

  lemma VersionRaw(v: VersionMeta)
    ensures Raws(VersionFields(v)) == v.versionId + (v.tableId + v.schemaHash)
  {
    var fs := VersionFields(v);
    assert Raws(fs[5..]) == "" && Raws(fs[4..]) == v.schemaHash;
    assert fs[3..][1..] == fs[4..] && fs[2..][1..] == fs[3..] && fs[1..][1..] == fs[2..];
    assert Raws(fs[3..]) == v.schemaHash && Raws(fs[2..]) == v.schemaHash;
    assert Raws(fs[1..]) == v.tableId + v.schemaHash;
  }

  lemma {:induction false} VersionRaws(vs: seq<VersionMeta>)
    ensures AllRaws(VersionObjects(vs)) == VersionStrings(vs)
  {
    hide Raws, VersionFields;
    if vs != [] {
      var v := vs[0];
      VersionRaw(v);
      Cat(v.versionId, v.tableId + v.schemaHash, VersionStrings(vs[1..]));
      Cat(v.tableId, v.schemaHash, VersionStrings(vs[1..]));
      assert VersionObjects(vs)[1..] == VersionObjects(vs[1..]);
      VersionRaws(vs[1..]);
    }
  }

  lemma {:induction false} SnapshotRaws(ss: seq<SnapshotRef>)
    ensures AllRaws(SnapshotObjects(ss)) == SnapshotStrings(ss)
  {
    if ss != [] {
      var s := ss[0];
      var fs := SnapshotFields(s);
      assert fs[2..][1..] == [] && fs[1..][1..] == fs[2..];
      assert Raws(fs[2..]) == "" && Raws(fs[1..]) == "";
      assert Raws(fs) == s.snapshotId;
      assert SnapshotObjects(ss)[1..] == SnapshotObjects(ss[1..]);
      SnapshotRaws(ss[1..]);
    }
  }

  lemma NestVersions(vs: seq<VersionMeta>, d: nat)
    requires d >= 1
    ensures Nest(PrintObjects(VersionObjects(vs)), d) == Nest(VersionStrings(vs), d)
  {
    hide FlatFields, PrintObjects;
    VersionsAreFlat(vs);
    NestObjects(VersionObjects(vs), d);
    VersionRaws(vs);
  }

  lemma NestSnapshots(ss: seq<SnapshotRef>, d: nat)
    requires d >= 1
    ensures Nest(PrintObjects(SnapshotObjects(ss)), d) == Nest(SnapshotStrings(ss), d)
  {
    hide FlatFields, PrintObjects;
    SnapshotsAreFlat(ss);
    NestObjects(SnapshotObjects(ss), d);
    SnapshotRaws(ss);
  }

  lemma TableLookups(t: TableMetadata, o: map<string, string>)
    requires o == Stored(TableFields(t), map[])
    ensures TextField(o, "table_id") == t.tableId && TextField(o, "schema_json") == t.schemaJson
    ensures TextField(o, "schema_hash") == t.schemaHash && IntField(o, "created_at") == Some(t.createdAt)
    ensures "versions" in o && o["versions"] == "[" + PrintObjects(VersionObjects(t.versions)) + "]"
    ensures "snapshots" in o && o["snapshots"] == "[" + PrintObjects(SnapshotObjects(t.snapshots)) + "]"
  {
    var fs := TableFields(t);
    StoreLookup(fs, 0, map[]);
    StoreLookup(fs, 1, map[]);
    StoreLookup(fs, 2, map[]);
    StoreLookup(fs, 3, map[]);
    StoreLookup(fs, 4, map[]);
    StoreLookup(fs, 5, map[]);
    StollPrintInt(t.createdAt);
  }

  lemma HeadIsReadable(t: TableMetadata)
    ensures ReadableFields(HeadFields(t))
  {
  }

  lemma ListIsReadable(key: string, body: string)
    requires IsKey(key) && Balanced(body)
    ensures ReadableFields([Field(key, List(body))])
  {
  }

  lemma SafeTableParses(t: TableMetadata)
    requires Balanced(PrintObjects(VersionObjects(t.versions)))
    requires Balanced(PrintObjects(SnapshotObjects(t.snapshots)))
    ensures ParseObject(PrintTable(t)) == Parsed(true, Stored(TableFields(t), map[]))
  {
    var versions := Field("versions", List(PrintObjects(VersionObjects(t.versions))));
    var snapshots := Field("snapshots", List(PrintObjects(SnapshotObjects(t.snapshots))));
    HeadIsReadable(t);
    ListIsReadable("versions", versions.value.body);
    ListIsReadable("snapshots", snapshots.value.body);
    TableIsReadable(HeadFields(t), versions, snapshots);
    ReadsObject(TableFields(t));
  }

  lemma TableIsReadable(head: seq<Field>, versions: Field, snapshots: Field)
    requires ReadableFields(head) && ReadableFields([versions]) && ReadableFields([snapshots])
    ensures ReadableFields(head + [versions, snapshots])
  {
    assert versions in [versions] && snapshots in [snapshots];
  }

  lemma SafeTableRoundTrip(t: TableMetadata)
    requires BracketSafe(t)
    ensures ParseTable(PrintTable(t)) == Some(t)
  {
    NestVersions(t.versions, 1);
    NestSnapshots(t.snapshots, 1);
    SafeTableParses(t);
    TableLookups(t, ParseObject(PrintTable(t)).fields);
    VersionsListRoundTrip(t.versions);
    SnapshotsListRoundTrip(t.snapshots);
  }
}
