/** The printers and the cursor parser in the form the program has them: loops that append to a
    buffer and a class that advances a position. Each is proved equal to the text functions. */
module MetadataParser {
  import opened Common
  import opened MetadataText

  method EscapeJson(s: string) returns (out: string)
    ensures out == Escape(s)
  {
    hide EscapeChar;
    out := "";
    for i := 0 to |s|
      invariant Escape(s) == out + Escape(s[i..])
    {
      out := out + EscapeChar(s[i]);
      assert s[i..][1..] == s[i + 1..];
    }
  }

  class JsonParser {
    const src: string
    var pos: nat

    constructor (s: string)
      ensures src == s && pos == 0
    {
      src, pos := s, 0;
    }

    ghost predicate Valid()
      reads this
    {
      pos <= |src|
    }

    /** The text still to be read. */
    ghost function Rest(): string
      requires Valid()
      reads this
    {
      src[pos..]
    }

    function Peek(): char
      requires Valid()
      reads this
    {
      if pos < |src| then src[pos] else '\0'
    }

    method SkipBlanks()
      requires Valid()
      modifies this
      ensures Valid() && pos >= old(pos) && Rest() == SkipWs(old(Rest()))
    {
      while pos < |src| && IsWs(src[pos])
        invariant Valid() && pos >= old(pos) && SkipWs(Rest()) == SkipWs(old(Rest()))
      {
        assert Rest()[1..] == src[pos + 1..];
        pos := pos + 1;
      }
    }

    method Expect(c: char) returns (ok: bool)
      requires Valid() && c != '\0'
      modifies this
      ensures Valid() && pos >= old(pos) && ok == At(old(Rest()), c)
      ensures Rest() == if ok then old(Rest())[1..] else old(Rest())
    {
      ok := Peek() == c;
      if ok {
        pos := pos + 1;
      }
    }

    method ReadString() returns (ok: bool, out: string)
      requires Valid()
      modifies this
      ensures Valid() && pos >= old(pos)
      ensures ParseString(old(Rest())) == if ok then Some((out, Rest())) else None
    {
      out := "";
      ok := Expect('"');
      if !ok {
        return;
      }
      ghost var body := Rest();
      assert forall text: string :: out + text == text;
      while pos < |src|
        invariant Valid() && pos >= old(pos)
        invariant StringBody(body) ==
                  match StringBody(Rest())
                  case None => None
                  case Some((text, rest)) => Some((out + text, rest))
      {
        var c := src[pos];
        assert Rest()[1..] == src[pos + 1..];
        pos := pos + 1;
        if c == '"' {
          assert out + "" == out;
          return true, out;
        }
        if c == '\\' {
          if pos >= |src| {
            return false, out;
          }
          assert src[pos - 1..][2..] == src[pos + 1..];
          var e := Unescape(src[pos]);
          assert forall text: string :: out + ([e] + text) == (out + [e]) + text;
          out := out + [e];
          pos := pos + 1;
        } else {
          assert forall text: string :: out + ([c] + text) == (out + [c]) + text;
          out := out + [c];
        }
      }
      return false, out;
    }

    method ReadBalanced(open: char, close: char) returns (ok: bool, out: string)
      requires Valid()
      modifies this
      ensures Valid() && pos >= old(pos)
      ensures Capture(old(Rest()), open, close, 0) == if ok then Some((out, Rest())) else None
    {
      var depth := 0;
      out := "";
      assert forall text: string :: out + text == text;
      while pos < |src|
        invariant Valid() && pos >= old(pos)
        invariant Capture(old(Rest()), open, close, 0) ==
                  match Capture(Rest(), open, close, depth)
                  case None => None
                  case Some((text, rest)) => Some((out + text, rest))
      {
        var c := src[pos];
        assert Rest()[1..] == src[pos + 1..];
        assert forall text: string :: out + ([c] + text) == (out + [c]) + text;
        out := out + [c];
        pos := pos + 1;
        if c == open {
          depth := depth + 1;
        }
        if c == close {
          depth := depth - 1;
          if depth == 0 {
            return true, out;
          }
        }
      }
      return false, out;
    }

    method ReadScalar() returns (out: string)
      requires Valid()
      modifies this
      ensures Valid() && pos >= old(pos) && Scalar(old(Rest())) == (out, Rest())
    {
      out := "";
      assert forall text: string :: out + text == text;
      while pos < |src| && !EndsScalar(src[pos])
        invariant Valid() && pos >= old(pos)
        invariant Scalar(old(Rest())) == (out + Scalar(Rest()).0, Scalar(Rest()).1)
      {
        assert Rest()[1..] == src[pos + 1..];
        assert forall text: string :: out + ([src[pos]] + text) == (out + [src[pos]]) + text;
        out := out + [src[pos]];
        pos := pos + 1;
      }
      assert out + "" == out;
    }

    method ReadValue() returns (ok: bool, out: string)
      requires Valid()
      modifies this
      ensures Valid() && pos >= old(pos)
      ensures ParseValue(old(Rest())) == if ok then Some((out, Rest())) else None
    {
      SkipBlanks();
      var c := Peek();
      if c == '"' {
        ok, out := ReadString();
      } else if c == '[' {
        ok, out := ReadBalanced('[', ']');
      } else if c == '{' {
        ok, out := ReadBalanced('{', '}');
      } else {
        out := ReadScalar();
        ok := out != "";
      }
    }

    /** Stores the members of an object; on failure `out` holds those read so far. */
    method ReadObject() returns (ok: bool, out: map<string, string>)
      requires Valid()
      modifies this
      ensures Valid() && pos >= old(pos)
      ensures ParseObject(old(Rest())) == Parsed(ok, out)
    {
      hide ParseString, ParseValue, SkipWs;
      out := map[];
      SkipBlanks();
      ok := Expect('{');
      if !ok {
        return;
      }
      SkipBlanks();
      if Peek() == '}' {
        pos := pos + 1;
        return true, out;
      }
      ghost var start := Rest();
      while true
        invariant Valid() && pos >= old(pos)
        invariant ParseMembers(start, map[]) == ParseMembers(Rest(), out)
        decreases |src| - pos
      {
        SkipBlanks();
        var key, value, found;
        found, key := ReadString();
        if !found {
          return false, out;
        }
        SkipBlanks();
        found := Expect(':');
        if !found {
          return false, out;
        }
        SkipBlanks();
        found, value := ReadValue();
        if !found {
          return false, out;
        }
        out := out[key := value];
        SkipBlanks();
        if Peek() == '}' {
          pos := pos + 1;
          return true, out;
        }
        found := Expect(',');
        if !found {
          return false, out;
        }
      }
    }
  }

  method ParseJsonArray(json: string) returns (items: seq<string>)
    ensures items == SplitArray(json)
  {
    items := [];
    var pos := 0;
    while pos < |json| && json[pos] != '['
      invariant 0 <= pos <= |json| && SplitArray(json[pos..]) == SplitArray(json)
    {
      assert json[pos..][1..] == json[pos + 1..];
      pos := pos + 1;
    }
    if pos == |json| {
      return;
    }
    assert json[pos..][1..] == json[pos + 1..];
    pos := pos + 1;
    var depth, current, inString := 0, "", false;
    while pos < |json|
      invariant 0 <= pos <= |json|
      invariant SplitArray(json) == items + Split(json[pos..], inString, depth, current)
    {
      var c := json[pos];
      ghost var r := json[pos..];
      assert r[1..] == json[pos + 1..];
      pos := pos + 1;
      if inString {
        if c == '\\' && pos < |json| {
          assert r[2..] == json[pos + 1..] && r[..2] == [c] + [json[pos]];
          assert current + [c] + [json[pos]] == current + r[..2];
          current := current + [c] + [json[pos]];
          pos := pos + 1;
        } else {
          current := current + [c];
          if c == '"' {
            inString := false;
          }
        }
      } else if c == '"' {
        inString := true;
        current := current + [c];
      } else if c == '{' {
        current := if depth == 0 then "{" else current + [c];
        depth := depth + 1;
      } else if c == '}' {
        depth := depth - 1;
        if depth == 0 {
          items := items + [current + "}"];
        } else {
          current := current + [c];
        }
      } else if c == ',' && depth == 0 {
        // separator between top-level objects
      } else if depth > 0 {
        current := current + [c];
      }
    }
  }

  /** One more member behind the comma that ends `out`. */
  lemma AppendsField(out: string, fs: seq<Field>, f: Field)
    requires out == "{" + PrintFields(fs) + ","
    ensures fs != [] ==> out + PrintField(f) == "{" + PrintFields(fs + [f])
  {
    hide PrintField;
    if fs != [] {
      PrintFieldsConcat(fs, [f]);
      Cat("{", PrintFields(fs), ",");
      Cat("{", PrintFields(fs) + ",", PrintField(f));
      Cat(PrintFields(fs), ",", PrintField(f));
    }
  }

  method AppendText(out: string, key: string, raw: string, ghost fs: seq<Field>) returns (next: string)
    requires if fs == [] then out == "{" else out == "{" + PrintFields(fs) + ","
    ensures next == "{" + PrintFields(fs + [Field(key, Text(raw))])
  {
    var text := EscapeJson(raw);
    next := out + ("\"" + key + "\"" + (":" + ("\"" + text + "\"")));
    if fs == [] {
      assert fs + [Field(key, Text(raw))] == [Field(key, Text(raw))];
    } else {
      AppendsField(out, fs, Field(key, Text(raw)));
    }
  }

  method AppendNumber(out: string, key: string, n: int64, ghost fs: seq<Field>) returns (next: string)
    requires fs != [] && out == "{" + PrintFields(fs) + ","
    ensures next == "{" + PrintFields(fs + [Field(key, Number(n))])
  {
    next := out + ("\"" + key + "\"" + (":" + PrintInt(n)));
    AppendsField(out, fs, Field(key, Number(n)));
  }

  method AppendList(out: string, key: string, body: string, ghost fs: seq<Field>) returns (next: string)
    requires fs != [] && out == "{" + PrintFields(fs) + ","
    ensures next == "{" + PrintFields(fs + [Field(key, List(body))])
  {
    next := out + ("\"" + key + "\"" + (":" + ("[" + body + "]")));
    AppendsField(out, fs, Field(key, List(body)));
  }

  method SerializeVersionMeta(v: VersionMeta) returns (out: string)
    ensures out == PrintObject(VersionFields(v))
  {
    hide PrintFields;
    ghost var fs := VersionFields(v);
    out := AppendText("{", "version_id", v.versionId, []);
    assert [] + [fs[0]] == fs[..1];
    out := AppendText(out + ",", "table_id", v.tableId, fs[..1]);
    assert fs[..1] + [fs[1]] == fs[..2];
    out := AppendNumber(out + ",", "created_at", v.createdAt, fs[..2]);
    assert fs[..2] + [fs[2]] == fs[..3];
    out := AppendNumber(out + ",", "row_count", v.rowCount, fs[..3]);
    assert fs[..3] + [fs[3]] == fs[..4];
    out := AppendText(out + ",", "schema_hash", v.schemaHash, fs[..4]);
    assert fs[..4] + [fs[4]] == fs;
    out := out + "}";
  }

  method SerializeSnapshotRef(s: SnapshotRef) returns (out: string)
    ensures out == PrintObject(SnapshotFields(s))
  {
    hide PrintFields;
    ghost var fs := SnapshotFields(s);
    out := AppendText("{", "snapshot_id", s.snapshotId, []);
    assert [] + [fs[0]] == fs[..1];
    out := AppendNumber(out + ",", "row_count", s.rowCount, fs[..1]);
    assert fs[..1] + [fs[1]] == fs[..2];
    out := AppendNumber(out + ",", "created_at", s.createdAt, fs[..2]);
    assert fs[..2] + [fs[2]] == fs;
    out := out + "}";
  }

  lemma {:induction false} AppendsObject(objects: seq<seq<Field>>, fs: seq<Field>)
    ensures PrintObjects(objects + [fs]) ==
            if objects == [] then PrintObject(fs) else PrintObjects(objects) + "," + PrintObject(fs)
  {
    hide PrintObject;
    if |objects| == 0 {
      assert objects + [fs] == [fs];
    } else if |objects| == 1 {
      assert objects + [fs] == [objects[0], fs];
    } else {
      assert (objects + [fs])[1..] == objects[1..] + [fs];
      AppendsObject(objects[1..], fs);
      Cat(PrintObject(objects[0]) + ",", PrintObjects(objects[1..]) + ",", PrintObject(fs));
      Cat(PrintObject(objects[0]) + ",", PrintObjects(objects[1..]), ",");
    }
  }

  method SerializeTableMetadata(t: TableMetadata) returns (out: string)
    ensures out == PrintTable(t)
  {
    hide PrintFields, PrintObject;
    ghost var vs, ss := VersionObjects(t.versions), SnapshotObjects(t.snapshots);
    var versions := "";
    for i := 0 to |t.versions|
      invariant versions == PrintObjects(vs[..i])
    {
      if i > 0 {
        versions := versions + ",";
      }
      var text := SerializeVersionMeta(t.versions[i]);
      AppendsObject(vs[..i], vs[i]);
      assert vs[..i + 1] == vs[..i] + [vs[i]];
      versions := versions + text;
    }
    assert vs[..|t.versions|] == vs;
    var snapshots := "";
    for i := 0 to |t.snapshots|
      invariant snapshots == PrintObjects(ss[..i])
    {
      if i > 0 {
        snapshots := snapshots + ",";
      }
      var text := SerializeSnapshotRef(t.snapshots[i]);
      AppendsObject(ss[..i], ss[i]);
      assert ss[..i + 1] == ss[..i] + [ss[i]];
      snapshots := snapshots + text;
    }
    assert ss[..|t.snapshots|] == ss;
    out := SerializeMembers(t, versions, snapshots);
  }

  method SerializeMembers(t: TableMetadata, versions: string, snapshots: string) returns (out: string)
    ensures out == PrintObject(HeadFields(t) + [Field("versions", List(versions)), Field("snapshots", List(snapshots))])
  {
    hide PrintFields;
    ghost var fs := HeadFields(t) + [Field("versions", List(versions)), Field("snapshots", List(snapshots))];
    out := AppendText("{", "table_id", t.tableId, []);
    assert [] + [fs[0]] == fs[..1];
    out := AppendText(out + ",", "schema_json", t.schemaJson, fs[..1]);
    assert fs[..1] + [fs[1]] == fs[..2];
    out := AppendText(out + ",", "schema_hash", t.schemaHash, fs[..2]);
    assert fs[..2] + [fs[2]] == fs[..3];
    out := AppendNumber(out + ",", "created_at", t.createdAt, fs[..3]);
    assert fs[..3] + [fs[3]] == fs[..4];
    out := AppendList(out + ",", "versions", versions, fs[..4]);
    assert fs[..4] + [fs[4]] == fs[..5];
    out := AppendList(out + ",", "snapshots", snapshots, fs[..5]);
    assert fs[..5] + [fs[5]] == fs;
    out := out + "}";
  }

  method ReadFields(json: string) returns (o: map<string, string>)
    ensures o == ParseObject(json).fields
  {
    var p := new JsonParser(json);
    assert json[0..] == json;
    var ok;
    ok, o := p.ReadObject();
  }

  method ParseAllVersions(items: seq<string>) returns (versions: Option<seq<VersionMeta>>)
    ensures versions == ParseVersions(items)
  {
    var out := [];
    assert items[0..] == items && forall vs: seq<VersionMeta> :: out + vs == vs;
    for i := 0 to |items|
      invariant ParseVersions(items) == match ParseVersions(items[i..])
                                        case None => None
                                        case Some(vs) => Some(out + vs)
    {
      var v := ParseVersionMeta(items[i]);
      assert items[i..][1..] == items[i + 1..];
      if v == None {
        return None;
      }
      assert forall vs: seq<VersionMeta> :: out + ([v.value] + vs) == (out + [v.value]) + vs;
      out := out + [v.value];
    }
    assert out + [] == out;
    return Some(out);
  }

  method ParseAllSnapshots(items: seq<string>) returns (snapshots: Option<seq<SnapshotRef>>)
    ensures snapshots == ParseSnapshots(items)
  {
    var out := [];
    assert items[0..] == items && forall ss: seq<SnapshotRef> :: out + ss == ss;
    for i := 0 to |items|
      invariant ParseSnapshots(items) == match ParseSnapshots(items[i..])
                                         case None => None
                                         case Some(ss) => Some(out + ss)
    {
      var s := ParseSnapshotRef(items[i]);
      assert items[i..][1..] == items[i + 1..];
      if s == None {
        return None;
      }
      assert forall ss: seq<SnapshotRef> :: out + ([s.value] + ss) == (out + [s.value]) + ss;
      out := out + [s.value];
    }
    assert out + [] == out;
    return Some(out);
  }

  /** `None` is the exception of `std::stoll`. */
  method ParseTableMetadata(json: string) returns (t: Option<TableMetadata>)
    ensures t == ParseTable(json)
  {
    var o := ReadFields(json);
    var createdAt := IntField(o, "created_at");
    var versions: Option<seq<VersionMeta>>, snapshots: Option<seq<SnapshotRef>> := Some([]), Some([]);
    if "versions" in o {
      var items := ParseJsonArray(o["versions"]);
      versions := ParseAllVersions(items);
    }
    if "snapshots" in o {
      var items := ParseJsonArray(o["snapshots"]);
      snapshots := ParseAllSnapshots(items);
    }
    if createdAt == None || versions == None || snapshots == None {
      return None;
    }
    return Some(TableMetadata(TextField(o, "table_id"), TextField(o, "schema_json"),
                              TextField(o, "schema_hash"), createdAt.value, versions.value, snapshots.value));
  }

  method ParseVersionMeta(json: string) returns (v: Option<VersionMeta>)
    ensures v == ParseVersion(json)
  {
    var o := ReadFields(json);
    var createdAt, rowCount := IntField(o, "created_at"), IntField(o, "row_count");
    if createdAt == None || rowCount == None {
      return None;
    }
    return Some(VersionMeta(TextField(o, "version_id"), TextField(o, "table_id"), createdAt.value,
                            rowCount.value, TextField(o, "schema_hash")));
  }

  method ParseSnapshotRef(json: string) returns (s: Option<SnapshotRef>)
    ensures s == ParseSnapshot(json)
  {
    var o := ReadFields(json);
    var createdAt, rowCount := IntField(o, "created_at"), IntField(o, "row_count");
    if createdAt == None || rowCount == None {
      return None;
    }
    return Some(SnapshotRef(TextField(o, "snapshot_id"), rowCount.value, createdAt.value));
  }
}
