/** The other half of the round trip: a table whose strings break the bracket nesting always comes
    back different. The capture then stops inside a quoted string or runs past its array, and the
    parser cannot find its way back to a member. */
module MetadataConverse {
  import opened Common
  import opened MetadataText
  import opened MetadataRoundTrip

  // ---------------------------------------------------------------- a parser lost in a string

  /** After a closing quote taken for an opening one: the key it opens is not followed by ':'. */
  predicate Follows(r: string) {
    r != "" &&
    if r[0] == '"' then |r| > 1 && !IsWs(r[1]) && r[1] != ':'
    else r[0] != '\\' && Follows(r[1..])
  }

  /** The rest of a quoted string, its closing quote, and a text that `Follows`. */
  predicate Stuck(r: string) {
    r != "" &&
    if r[0] == '"' then Follows(r[1..])
    else if r[0] == '\\' then |r| >= 2 && Stuck(r[2..])
    else Stuck(r[1..])
  }

  lemma {:induction false} SkipStuck(r: string)
    requires Stuck(r)
    ensures Stuck(SkipWs(r))
  {
    if IsWs(r[0]) {
      SkipStuck(r[1..]);
    }
  }

  lemma {:induction false} FollowsReads(r: string)
    requires Follows(r)
    ensures StringBody(r).Some?
    ensures var rest := StringBody(r).value.1; rest != "" && !IsWs(rest[0]) && rest[0] != ':'
  {
    if r[0] == '"' {
      assert r[1..][0] == r[1];
    } else {
      FollowsReads(r[1..]);
    }
  }

  lemma StuckMemberFails(r: string, out: map<string, string>)
    requires Stuck(r)
    ensures ParseMembers(r, out) == Parsed(false, out)
  {
    SkipStuck(r);
    var s := SkipWs(r);
    if s[0] == '"' {
      FollowsReads(s[1..]);
      var rest := StringBody(s[1..]).value.1;
      assert SkipWs(rest) == rest;
    }
  }

  /** Once inside a string, the parser stores nothing more. */
  lemma StuckEnds(r: string, out: map<string, string>)
    requires Stuck(r)
    ensures AfterValue(r, out).fields == out
  {
    SkipStuck(r);
    var s := SkipWs(r);
    if s[0] == ',' {
      StuckMemberFails(s[1..], out);
    }
  }

  lemma {:induction false} EscapeStuck(w: string, rest: string)
    requires Follows(rest)
    ensures Stuck(Escape(w) + ("\"" + rest))
  {
    var r := Escape(w) + ("\"" + rest);
    if w == "" {
      assert r == "\"" + rest && r[1..] == rest;
    } else {
      var e, more := EscapeChar(w[0]), Escape(w[1..]) + ("\"" + rest);
      assert r == e + more && r[|e|..] == more;
      EscapeStuck(w[1..], rest);
    }
  }

  lemma KeyFollows(key: string, after: string)
    requires IsKey(key)
    ensures Follows("\"" + (key + after))
  {
    var r := "\"" + (key + after);
    assert r[1] == key[0];
  }

  lemma FollowsAfter(c: string, r: string)
    requires |c| == 1 && c != "\"" && c != "\\" && Follows(r)
    ensures Follows(c + r)
  {
    assert (c + r)[1..] == r;
  }

  // ---------------------------------------------------------------- where the capture stops

  lemma {:induction false} StopsInEscaped(raw: string, tail: string, d: nat) returns (raw1: string, raw2: string)
    requires d >= 1 && Nest(raw, d) == None
    ensures Capture(Escape(raw) + tail, '[', ']', d) == Some((Escape(raw1) + "]", Escape(raw2) + tail))
  {
    var e, more := EscapeChar(raw[0]), Escape(raw[1..]) + tail;
    assert Escape(raw) + tail == e + more;
    if raw[0] == ']' && d == 1 {
      raw1, raw2 := "", raw[1..];
      assert (e + more)[1..] == more;
      assert Escape(raw1) + "]" == "]";
    } else {
      var d' := if raw[0] == '[' then d + 1 else if raw[0] == ']' then d - 1 else d;
      assert Nest(e, d) == Some(d') by {
        NestEscape([raw[0]], d);
        assert [raw[0]][1..] == "" && Escape([raw[0]]) == e + "" == e;
      }
      raw1, raw2 := StopsInEscaped(raw[1..], tail, d');
      CapturesNested(e, more, d);
      assert raw[..1] + raw1 == [raw[0]] + raw1;
      raw1 := [raw[0]] + raw1;
      assert raw1[1..] == raw[..1][1..] + raw1[1..];
      Cat(e, Escape(raw1[1..]), "]");
    }
  }

  lemma {:induction false} SplitsUnclosed(s: string, current: string)
    ensures Split(Escape(s) + "]", true, 1, current) == []
  {
    var r := Escape(s) + "]";
    if s == "" {
      assert r == "]" && r[1..] == "";
    } else {
      var e, more := EscapeChar(s[0]), Escape(s[1..]) + "]";
      assert r == e + more && r[|e|..] == more;
      SplitsUnclosed(s[1..], current + r[..|e|]);
    }
  }

  /** A capture that ends inside the string member `f`, before any object is complete. */
  lemma StopsInField(f: Field, tail: string, d: nat, current: string) returns (c: string, r: string)
    requires d >= 1 && IsKey(f.key) && !f.value.List? && Nest(PrintField(f), d) == None
    requires f.value.Text? ==> Follows(tail)
    ensures Capture(PrintField(f) + tail, '[', ']', d) == Some((c, r))
    ensures Stuck(r) && Split(c, false, 1, current) == []
  {
    hide Follows, Stuck, Split, Escape, PrintField;
    NestField(f, d);
    var raw := f.value.raw;
    var before := "\"" + f.key + "\"" + ":" + "\"";
    var raw1, raw2 := StopsInEscaped(raw, "\"" + tail, d);
    EscapeStuck(raw2, tail);
    SplitsUnclosedField(f.key, raw1, current);
    PrintsText(f, tail);
    NestPlain(before, d);
    CapturesNested(before, Escape(raw) + ("\"" + tail), d);
    c, r := before + (Escape(raw1) + "]"), Escape(raw2) + ("\"" + tail);
  }

  lemma PrintsText(f: Field, tail: string)
    requires f.value.Text?
    ensures PrintField(f) + tail == "\"" + f.key + "\"" + ":" + "\"" + (Escape(f.value.raw) + ("\"" + tail))
  {
    hide Escape;
    var quoted, e := "\"" + f.key + "\"", Escape(f.value.raw);
    PrintsMember(f, tail);
    Cat("\"" + e, "\"", tail);
    Cat("\"", e, "\"" + tail);
    Cat(quoted, ":", "\"" + (e + ("\"" + tail)));
    Cat(quoted + ":", "\"", e + ("\"" + tail));
  }

  lemma SplitsUnclosedField(key: string, s: string, current: string)
    requires IsKey(key)
    ensures Split("\"" + key + "\"" + ":" + "\"" + (Escape(s) + "]"), false, 1, current) == []
  {
    Cat("\"" + key + "\"" + ":", "\"", Escape(s) + "]");
    var quoted := "\"" + key + "\"";
    var inside := "\"" + (Escape(s) + "]");
    EscapeKey(key);
    Cat(quoted, ":", inside);
    SplitsQuoted(key, ":" + inside, current);
    SplitsPlain(":", inside, current + quoted);
    assert inside[1..] == Escape(s) + "]";
    SplitsUnclosed(s, current + quoted + ":" + "\"");
  }

  lemma {:induction false} StopsInFields(fs: seq<Field>, tail: string, d: nat, current: string)
    returns (c: string, r: string)
    requires d >= 1 && FlatFields(fs) && Nest(PrintFields(fs), d) == None
    requires fs[|fs| - 1].value.Text? ==> Follows(tail)
    ensures Capture(PrintFields(fs) + tail, '[', ']', d) == Some((c, r))
    ensures Stuck(r) && Split(c, false, 1, current) == []
  {
    var f := PrintField(fs[0]);
    if |fs| == 1 {
      c, r := StopsInField(fs[0], tail, d, current);
    } else {
      var more := PrintFields(fs[1..]) + tail;
      Cat(f + ",", PrintFields(fs[1..]), tail);
      Cat(f, ",", more);
      NestConcat(f + ",", PrintFields(fs[1..]), d);
      NestWrapped("", f, ",", d);
      assert "" + f + "," == f + ",";
      if Nest(f, d) == None {
        FieldsFollow(fs[1..], tail);
        c, r := StopsInField(fs[0], "," + more, d, current);
      } else {
        var d' := Nest(f, d).value;
        var rest;
        rest, r := StopsInFields(fs[1..], tail, d', current + f + ",");
        CapturesNested(f + ",", more, d);
        c := f + "," + rest;
        Cat(f, ",", rest);
        SplitsField(fs[0], "," + rest, current);
        SplitsPlain(",", rest, current + f);
      }
    }
  }

  lemma FieldFollows(f: Field, tail: string)
    requires IsKey(f.key)
    ensures Follows(PrintField(f) + tail)
  {
    hide PrintField, PrintValue;
    var value := ":" + (PrintValue(f.value) + tail);
    PrintsMember(f, tail);
    Cat("\"" + f.key, "\"", value);
    Cat("\"", f.key, "\"" + value);
    KeyFollows(f.key, "\"" + value);
  }

  lemma FieldsFollow(fs: seq<Field>, tail: string)
    requires FlatFields(fs)
    ensures Follows(PrintFields(fs) + tail)
    ensures Follows("," + (PrintFields(fs) + tail))
  {
    if |fs| == 1 {
      FieldFollows(fs[0], tail);
    } else {
      FieldFollows(fs[0], "," + PrintFields(fs[1..]) + tail);
      assert PrintFields(fs) + tail == PrintField(fs[0]) + ("," + PrintFields(fs[1..]) + tail);
    }
    FollowsAfter(",", PrintFields(fs) + tail);
  }

  lemma ObjectsFollow(objects: seq<seq<Field>>, tail: string)
    requires objects != [] && FlatFields(objects[0])
    ensures Follows("," + (PrintObjects(objects) + tail))
  {
    var first := PrintFields(objects[0]);
    var more := if |objects| == 1 then "}" else "}" + "," + PrintObjects(objects[1..]);
    assert PrintObjects(objects) == "{" + (first + more);
    Cat("{", first + more, tail);
    Cat(first, more, tail);
    FieldsFollow(objects[0], more + tail);
    FollowsAfter("{", first + (more + tail));
    FollowsAfter(",", PrintObjects(objects) + tail);
  }

  predicate EndsInText(objects: seq<seq<Field>>) {
    exists fs: seq<Field> | fs in objects :: fs != [] && fs[|fs| - 1].value.Text?
  }

  lemma StopsInObject(fs: seq<Field>, tail: string, d: nat, current: string) returns (c: string, r: string)
    requires d >= 1 && FlatFields(fs) && Nest(PrintObject(fs), d) == None
    requires fs[|fs| - 1].value.Text? ==> Follows("}" + tail)
    ensures Capture(PrintObject(fs) + tail, '[', ']', d) == Some((c, r))
    ensures Stuck(r) && Split(c, false, 0, current) == []
  {
    NestObject(fs, d);
    NestFields(fs, d);
    var rest;
    rest, r := StopsInFields(fs, "}" + tail, d, "{");
    c := "{" + rest;
    var body := PrintFields(fs);
    Cat("{" + body, "}", tail);
    Cat("{", body, "}" + tail);
    NestPlain("{", d);
    CapturesNested("{", body + ("}" + tail), d);
    SplitsOpen(rest, current);
  }

  /** A capture that ends inside a printed list of objects loses the object it ends in. */
  lemma {:induction false} StopsInObjects(objects: seq<seq<Field>>, tail: string, d: nat, current: string)
    returns (c: string, r: string)
    requires d >= 1 && Nest(PrintObjects(objects), d) == None
    requires forall fs | fs in objects :: FlatFields(fs)
    requires EndsInText(objects) ==> Follows("}" + tail)
    ensures Capture(PrintObjects(objects) + tail, '[', ']', d) == Some((c, r))
    ensures Stuck(r) && |Split(c, false, 0, current)| < |objects|
  {
    hide PrintObject, Stuck, Follows, Split, IsKey;
    assert objects[0] in objects;
    var first := PrintObject(objects[0]);
    if |objects| == 1 {
      c, r := StopsInObject(objects[0], tail, d, current);
    } else {
      var more := PrintObjects(objects[1..]) + tail;
      Cat(first + ",", PrintObjects(objects[1..]), tail);
      Cat(first, ",", more);
      NestConcat(first + ",", PrintObjects(objects[1..]), d);
      NestWrapped("", first, ",", d);
      assert "" + first + "," == first + ",";
      if Nest(first, d) == None {
        ObjectsFollow(objects[1..], tail);
        FollowsAfter("}", "," + more);
        c, r := StopsInObject(objects[0], "," + more, d, current);
      } else {
        var rest;
        rest, r := StopsInObjects(objects[1..], tail, Nest(first, d).value, "{" + PrintFields(objects[0]));
        CapturesNested(first + ",", more, d);
        c := first + "," + rest;
        Cat(first, ",", rest);
        SplitsObject(objects[0], "," + rest, current);
        SplitsSeparator(rest, "{" + PrintFields(objects[0]));
      }
    }
  }

  // ---------------------------------------------------------------- the unsafe direction

  lemma CapturesList(body: string, tail: string)
    ensures ParseValue("[" + (body + ("]" + tail))) ==
            match Capture(body + ("]" + tail), '[', ']', 1)
            case None => None
            case Some((text, rest)) => Some(("[" + text, rest))
  {
    var r := "[" + (body + ("]" + tail));
    assert SkipWs(r) == r;
    assert r[1..] == body + ("]" + tail);
  }

  /** Reading the member `key` whose array is printed as `body`. */
  lemma ReadsListMember(key: string, body: string, tail: string, out: map<string, string>)
    requires IsKey(key)
    ensures ParseMembers(PrintField(Field(key, List(body))) + tail, out) ==
            match Capture(body + ("]" + tail), '[', ']', 1)
            case None => Parsed(false, out)
            case Some((text, rest)) => AfterValue(rest, out[key := "[" + text])
  {
    hide ParseMembers, ParseValue, AfterValue, Capture, PrintField, IsKey;
    var value := "[" + (body + ("]" + tail));
    assert SkipWs(value) == value;
    CapturesList(body, tail);
    PrintsMember(Field(key, List(body)), tail);
    Cat("[" + body, "]", tail);
    Cat("[", body, "]" + tail);
    ReadsMember(key, value, out);
  }

  lemma EndsAfter(rest: string, out: map<string, string>)
    requires Stuck(rest) || rest == "}"
    ensures AfterValue(rest, out).fields == out
  {
    if rest == "}" {
      assert SkipWs(rest) == rest;
    } else {
      StuckEnds(rest, out);
    }
  }

  lemma ListMemberEnds(key: string, body: string, tail: string, text: string, rest: string,
                       out: map<string, string>)
    requires IsKey(key) && (Stuck(rest) || rest == "}")
    requires Capture(body + ("]" + tail), '[', ']', 1) == Some((text, rest))
    ensures ParseMembers(PrintField(Field(key, List(body))) + tail, out).fields == out[key := "[" + text]
  {
    ReadsListMember(key, body, tail, out);
    EndsAfter(rest, out[key := "[" + text]);
  }

  lemma ListMemberLost(key: string, body: string, tail: string, out: map<string, string>)
    requires IsKey(key) && Capture(body + ("]" + tail), '[', ']', 1) == None
    ensures ParseMembers(PrintField(Field(key, List(body))) + tail, out).fields == out
  {
    ReadsListMember(key, body, tail, out);
  }

  lemma PastTheEnd(d: nat)
    requires d >= 2
    ensures Capture("]" + "}", '[', ']', d) == None
  {
    assert ("]" + "}")[1..] == "}" && "}"[1..] == "";
  }

  function ListField(key: string, objects: seq<seq<Field>>): Field {
    Field(key, List(PrintObjects(objects)))
  }

  /** What stands between the array of versions and the end of the text. */
  function SnapshotsTail(snapshots: seq<seq<Field>>): string {
    "," + (PrintField(ListField("snapshots", snapshots)) + "}")
  }

  /** After the members of `head` the parser stands at the array of versions. */
  lemma ReadsHead(head: seq<Field>, versions: seq<seq<Field>>, snapshots: seq<seq<Field>>)
    requires ReadableFields(head)
    ensures ParseObject(PrintObject(head + [ListField("versions", versions), ListField("snapshots", snapshots)])) ==
            ParseMembers(PrintField(ListField("versions", versions)) + SnapshotsTail(snapshots), Stored(head, map[]))
  {
    var v, s := ListField("versions", versions), ListField("snapshots", snapshots);
    var rest := PrintField(v) + SnapshotsTail(snapshots);
    var body := PrintFields(head + [v, s]);
    PrintFieldsConcat(head, [v, s]);
    PrintFieldsConcat([v], [s]);
    assert [v] + [s] == [v, s];
    PrintsTail(PrintFields(head), PrintField(v), PrintField(s));
    assert body + "}" == PrintFields(head) + ("," + rest);
    ReadsFields(head, "," + rest, map[]);
    ReadsComma(rest, Stored(head, map[]));
    StartsObject(body + "}");
    Cat("{", body, "}");
  }

  lemma PrintsTail(head: string, v: string, s: string)
    ensures head + ("," + (v + ("," + s))) + "}" == head + ("," + (v + ("," + (s + "}"))))
  {
  }

  lemma StartsObject(r: string)
    requires At(r, '"')
    ensures ParseObject("{" + r) == ParseMembers(r, map[])
  {
    assert ("{" + r)[1..] == r;
  }

  lemma TailFollows(snapshots: seq<seq<Field>>)
    ensures Follows("}" + ("]" + SnapshotsTail(snapshots)))
  {
    var s := PrintField(ListField("snapshots", snapshots)) + "}";
    FieldFollows(ListField("snapshots", snapshots), "}");
    FollowsAfter(",", s);
    FollowsAfter("]", "," + s);
    FollowsAfter("}", "]" + ("," + s));
  }

  /** A capture that ends inside the list named `key`: the parser stores a list that is too short
      under that name and nothing after it. */
  lemma ListStops(key: string, objects: seq<seq<Field>>, tail: string, out: map<string, string>)
    returns (text: string)
    requires IsKey(key) && forall fs | fs in objects :: FlatFields(fs)
    requires Nest(PrintObjects(objects), 1) == None
    requires EndsInText(objects) ==> Follows("}" + ("]" + tail))
    ensures ParseMembers(PrintField(ListField(key, objects)) + tail, out).fields == out[key := text]
    ensures |SplitArray(text)| < |objects|
  {
    hide PrintField, ParseMembers, FlatFields, Capture;
    var c, r := StopsInObjects(objects, "]" + tail, 1, "");
    text := "[" + c;
    ListMemberEnds(key, PrintObjects(objects), tail, c, r, out);
    assert text[1..] == c;
  }

  const BETWEEN := "],\"snapshots\":["

  lemma BetweenNests(d: nat)
    requires d >= 2
    ensures Nest(BETWEEN, d) == Some(d)
  {
    var quiet := ",\"snapshots\":";
    NestPlain(quiet, d - 1);
    NestConcat(quiet, "[", d - 1);
    assert BETWEEN[1..] == quiet + "[";
    assert "["[1..] == "";
  }

  lemma BetweenText(ss: string)
    ensures "]" + ("," + (PrintField(Field("snapshots", List(ss))) + "}")) == BETWEEN + (ss + ("]" + "}"))
  {
  }

  /** A capture still open at depth `d` after the versions is at depth `d` when the snapshots start. */
  lemma CapturesAcross(snapshots: seq<seq<Field>>, d: nat)
    requires d >= 2
    ensures Capture("]" + SnapshotsTail(snapshots), '[', ']', d) ==
            match Capture(PrintObjects(snapshots) + ("]" + "}"), '[', ']', d)
            case None => None
            case Some((text, rest)) => Some((BETWEEN + text, rest))
  {
    BetweenText(PrintObjects(snapshots));
    BetweenNests(d);
    CapturesNested(BETWEEN, PrintObjects(snapshots) + ("]" + "}"), d);
  }

  lemma AcrossStops(snapshots: seq<seq<Field>>, d: nat) returns (c: string, r: string)
    requires d >= 2 && Nest(PrintObjects(snapshots), d) == None
    requires forall fs | fs in snapshots :: FlatFields(fs)
    requires !EndsInText(snapshots)
    ensures Capture("]" + SnapshotsTail(snapshots), '[', ']', d) == Some((BETWEEN + c, r))
    ensures Stuck(r) && snapshots != []
  {
    c, r := StopsInObjects(snapshots, "]" + "}", d, "");
    CapturesAcross(snapshots, d);
  }

  /** The capture that started in the versions stops in a snapshot, at the very end, or not at all. */
  lemma AcrossEnds(snapshots: seq<seq<Field>>, d: nat, out: map<string, string>) returns (p: Option<(string, string)>)
    requires d >= 2
    requires forall fs | fs in snapshots :: FlatFields(fs)
    requires !EndsInText(snapshots)
    ensures p == Capture("]" + SnapshotsTail(snapshots), '[', ']', d)
    ensures p.Some? ==> snapshots != [] && (Stuck(p.value.1) || p.value.1 == "}")
  {
    hide FlatFields, SnapshotsTail;
    var ss := PrintObjects(snapshots);
    if Nest(ss, d) == None {
      var c, r := AcrossStops(snapshots, d);
      p := Some((BETWEEN + c, r));
    } else {
      var e := Nest(ss, d).value;
      CapturesAcross(snapshots, d);
      CapturesNested(ss, "]" + "}", d);
      if e == 1 {
        assert ("]" + "}")[1..] == "}";
        p := Some((BETWEEN + (ss + "]"), "}"));
      } else {
        PastTheEnd(e);
        p := None;
      }
    }
  }

  /** A capture that runs past the versions loses the snapshots, or the versions as well. */
  lemma VersionsRunOn(vs: string, d: nat, snapshots: seq<seq<Field>>, out: map<string, string>)
    returns (text: string)
    requires d >= 2 && Nest(vs, 1) == Some(d)
    requires forall fs | fs in snapshots :: FlatFields(fs)
    requires !EndsInText(snapshots)
    ensures var o := ParseMembers(PrintField(Field("versions", List(vs))) + SnapshotsTail(snapshots), out).fields;
            o == out || (o == out["versions" := text] && snapshots != [])
  {
    hide PrintField, ParseMembers, SnapshotsTail, FlatFields, EndsInText;
    var tail := SnapshotsTail(snapshots);
    var p := AcrossEnds(snapshots, d, out);
    CapturesNested(vs, "]" + tail, 1);
    if p.Some? {
      text := "[" + (vs + p.value.0);
      ListMemberEnds("versions", vs, tail, vs + p.value.0, p.value.1, out);
    } else {
      text := "";
      ListMemberLost("versions", vs, tail, out);
    }
  }

  lemma SnapshotsFail(snapshots: seq<seq<Field>>, out: map<string, string>)
    requires !Balanced(PrintObjects(snapshots)) && "snapshots" !in out
    requires forall fs | fs in snapshots :: FlatFields(fs)
    requires !EndsInText(snapshots)
    ensures var o := ParseMembers(PrintField(ListField("snapshots", snapshots)) + "}", out).fields;
            snapshots != [] && ("snapshots" in o ==> |SplitArray(o["snapshots"])| < |snapshots|)
  {
    hide PrintField, ParseMembers, FlatFields, SplitArray;
    var ss := PrintObjects(snapshots);
    if Nest(ss, 1) == None {
      var text := ListStops("snapshots", snapshots, "}", out);
    } else {
      CapturesNested(ss, "]" + "}", 1);
      PastTheEnd(Nest(ss, 1).value);
      ListMemberLost("snapshots", ss, "}", out);
    }
  }

  lemma ShortVersions(o: map<string, string>, t: TableMetadata)
    requires if "versions" in o then |SplitArray(o["versions"])| < |t.versions| else t.versions != []
    ensures TableFrom(o) != Some(t)
  {
  }

  lemma ShortSnapshots(o: map<string, string>, t: TableMetadata)
    requires if "snapshots" in o then |SplitArray(o["snapshots"])| < |t.snapshots| else t.snapshots != []
    ensures TableFrom(o) != Some(t)
  {
  }

  predicate LosesVersions(o: map<string, string>, versions: seq<seq<Field>>) {
    if "versions" in o then |SplitArray(o["versions"])| < |versions| else versions != []
  }

  predicate LosesSnapshots(o: map<string, string>, snapshots: seq<seq<Field>>) {
    if "snapshots" in o then |SplitArray(o["snapshots"])| < |snapshots| else snapshots != []
  }

  lemma VersionsFail(versions: seq<seq<Field>>, snapshots: seq<seq<Field>>, out: map<string, string>)
    requires forall fs | fs in versions :: FlatFields(fs)
    requires forall fs | fs in snapshots :: FlatFields(fs)
    requires !EndsInText(snapshots)
    requires "versions" !in out && "snapshots" !in out
    requires !Balanced(PrintObjects(versions))
    ensures var o := ParseMembers(PrintField(ListField("versions", versions)) + SnapshotsTail(snapshots), out).fields;
            LosesVersions(o, versions) || LosesSnapshots(o, snapshots)
  {
    hide PrintField, ParseMembers, SnapshotsTail, FlatFields, SplitArray, Capture;
    var vs := PrintObjects(versions);
    if Nest(vs, 1) == None {
      TailFollows(snapshots);
      var text := ListStops("versions", versions, SnapshotsTail(snapshots), out);
    } else {
      assert versions != [];
      var text := VersionsRunOn(vs, Nest(vs, 1).value, snapshots, out);
      assert "snapshots" !in out["versions" := text];
    }
  }

  lemma UnsafeVersions(t: TableMetadata, versions: seq<seq<Field>>, snapshots: seq<seq<Field>>,
                       out: map<string, string>)
    requires |versions| == |t.versions| && |snapshots| == |t.snapshots|
    requires forall fs | fs in versions :: FlatFields(fs)
    requires forall fs | fs in snapshots :: FlatFields(fs)
    requires !EndsInText(snapshots)
    requires "versions" !in out && "snapshots" !in out
    requires !Balanced(PrintObjects(versions))
    ensures TableFrom(ParseMembers(PrintField(ListField("versions", versions)) + SnapshotsTail(snapshots), out).fields)
            != Some(t)
  {
    hide PrintField, ParseMembers, FlatFields, SnapshotsTail, TableFrom, SplitArray;
    var o := ParseMembers(PrintField(ListField("versions", versions)) + SnapshotsTail(snapshots), out).fields;
    VersionsFail(versions, snapshots, out);
    if LosesVersions(o, versions) { ShortVersions(o, t); } else { ShortSnapshots(o, t); }
  }

  lemma ReadsVersions(versions: seq<seq<Field>>, snapshots: seq<seq<Field>>, out: map<string, string>)
    requires Balanced(PrintObjects(versions))
    ensures ParseMembers(PrintField(ListField("versions", versions)) + SnapshotsTail(snapshots), out) ==
            ParseMembers(PrintField(ListField("snapshots", snapshots)) + "}",
                         out["versions" := "[" + PrintObjects(versions) + "]"])
  {
    ReadsField(ListField("versions", versions), SnapshotsTail(snapshots), out);
    ReadsComma(PrintField(ListField("snapshots", snapshots)) + "}",
               out["versions" := "[" + PrintObjects(versions) + "]"]);
  }

  lemma UnsafeSnapshots(t: TableMetadata, versions: seq<seq<Field>>, snapshots: seq<seq<Field>>,
                        out: map<string, string>)
    requires |snapshots| == |t.snapshots|
    requires forall fs | fs in snapshots :: FlatFields(fs)
    requires !EndsInText(snapshots)
    requires "snapshots" !in out
    requires Balanced(PrintObjects(versions)) && !Balanced(PrintObjects(snapshots))
    ensures TableFrom(ParseMembers(PrintField(ListField("versions", versions)) + SnapshotsTail(snapshots), out).fields)
            != Some(t)
  {
    hide PrintField, ParseMembers, FlatFields, SnapshotsTail, TableFrom, SplitArray;
    var stored := out["versions" := "[" + PrintObjects(versions) + "]"];
    var o := ParseMembers(PrintField(ListField("snapshots", snapshots)) + "}", stored).fields;
    ReadsVersions(versions, snapshots, out);
    SnapshotsFail(snapshots, stored);
    ShortSnapshots(o, t);
  }

  lemma ObjectsAreFlat(t: TableMetadata)
    ensures forall fs | fs in VersionObjects(t.versions) :: FlatFields(fs)
    ensures forall fs | fs in SnapshotObjects(t.snapshots) :: FlatFields(fs)
    ensures !EndsInText(SnapshotObjects(t.snapshots))
  {
    VersionsAreFlat(t.versions);
    SnapshotsAreFlat(t.snapshots);
  }

  lemma HeadStores(t: TableMetadata)
    ensures "versions" !in Stored(HeadFields(t), map[]) && "snapshots" !in Stored(HeadFields(t), map[])
  {
    StoreKeeps(HeadFields(t), "versions", map[]);
    StoreKeeps(HeadFields(t), "snapshots", map[]);
  }

  lemma UnsafeTable(t: TableMetadata)
    requires !BracketSafe(t)
    ensures ParseTable(PrintTable(t)) != Some(t)
  {
    hide FlatFields, PrintField, PrintFields, SnapshotsTail, TableFrom, ParseMembers;
    var versions, snapshots := VersionObjects(t.versions), SnapshotObjects(t.snapshots);
    NestVersions(t.versions, 1);
    NestSnapshots(t.snapshots, 1);
    HeadIsReadable(t);
    HeadStores(t);
    ObjectsAreFlat(t);
    ReadsHead(HeadFields(t), versions, snapshots);
    if Balanced(PrintObjects(versions)) {
      UnsafeSnapshots(t, versions, snapshots, Stored(HeadFields(t), map[]));
    } else {
      UnsafeVersions(t, versions, snapshots, Stored(HeadFields(t), map[]));
    }
  }

  /** Parsing a printed table gives the same table back exactly when the square brackets in its
      version strings, read in order, are nested, and so are those in its snapshot strings. */
  lemma TableRoundTrip(t: TableMetadata)
    ensures ParseTable(PrintTable(t)) == Some(t) <==> BracketSafe(t)
  {
    if BracketSafe(t) {
      SafeTableRoundTrip(t);
    } else {
      UnsafeTable(t);
    }
  }
}
