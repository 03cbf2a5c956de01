/** The metadata file format: what the printers write, and what the cursor parser, the bracket
    capture and the array splitter read back. The parser is specified on the text still to be
    read, so `r` below is always a suffix of the source. */
module MetadataText {
  import opened Common

  datatype VersionMeta = VersionMeta(versionId: string, tableId: string, createdAt: int64,
                                     rowCount: int64, schemaHash: string)
  datatype SnapshotRef = SnapshotRef(snapshotId: string, rowCount: int64, createdAt: int64)
  datatype TableMetadata = TableMetadata(tableId: string, schemaJson: string, schemaHash: string,
                                         createdAt: int64, versions: seq<VersionMeta>,
                                         snapshots: seq<SnapshotRef>)

  // ---------------------------------------------------------------- printing

  /** One character as it stands inside quotes: itself, or a backslash and what unescapes to it. */
  function EscapeChar(c: char): (s: string)
    ensures (s == [c] && c != '"' && c != '\\') ||
            (|s| == 2 && s[0] == '\\' && s[1] !in "[]{}\n\r\t" && Unescape(s[1]) == c)
  {
    match c
    case '"' => "\\\""
    case '\\' => "\\\\"
    case '\n' => "\\n"
    case '\r' => "\\r"
    case '\t' => "\\t"
    case _ => [c]
  }

  function Escape(s: string): string {
    if s == "" then "" else EscapeChar(s[0]) + Escape(s[1..])
  }

  /** A member value as printed: a quoted string, a bare number, or an array of printed objects. */
  datatype Value = Text(raw: string) | Number(n: int64) | List(body: string)
  datatype Field = Field(key: string, value: Value)

  function PrintValue(v: Value): string {
    match v
    case Text(raw) => "\"" + Escape(raw) + "\""
    case Number(n) => PrintInt(n)
    case List(body) => "[" + body + "]"
  }

  function PrintField(f: Field): string {
    "\"" + f.key + "\"" + (":" + PrintValue(f.value))
  }

  function PrintFields(fs: seq<Field>): string {
    if fs == [] then ""
    else if |fs| == 1 then PrintField(fs[0])
    else PrintField(fs[0]) + "," + PrintFields(fs[1..])
  }

  function PrintObject(fs: seq<Field>): string {
    "{" + PrintFields(fs) + "}"
  }

  function PrintObjects(objects: seq<seq<Field>>): string {
    if objects == [] then ""
    else if |objects| == 1 then PrintObject(objects[0])
    else PrintObject(objects[0]) + "," + PrintObjects(objects[1..])
  }

  function VersionFields(v: VersionMeta): seq<Field> {
    [Field("version_id", Text(v.versionId)), Field("table_id", Text(v.tableId)),
     Field("created_at", Number(v.createdAt)), Field("row_count", Number(v.rowCount)),
     Field("schema_hash", Text(v.schemaHash))]
  }

  function SnapshotFields(s: SnapshotRef): seq<Field> {
    [Field("snapshot_id", Text(s.snapshotId)), Field("row_count", Number(s.rowCount)),
     Field("created_at", Number(s.createdAt))]
  }

  function VersionObjects(vs: seq<VersionMeta>): seq<seq<Field>> {
    seq(|vs|, i requires 0 <= i < |vs| => VersionFields(vs[i]))
  }

  function SnapshotObjects(ss: seq<SnapshotRef>): seq<seq<Field>> {
    seq(|ss|, i requires 0 <= i < |ss| => SnapshotFields(ss[i]))
  }

  function HeadFields(t: TableMetadata): seq<Field> {
    [Field("table_id", Text(t.tableId)), Field("schema_json", Text(t.schemaJson)),
     Field("schema_hash", Text(t.schemaHash)), Field("created_at", Number(t.createdAt))]
  }

  function TableFields(t: TableMetadata): seq<Field> {
    HeadFields(t) + [Field("versions", List(PrintObjects(VersionObjects(t.versions)))),
                     Field("snapshots", List(PrintObjects(SnapshotObjects(t.snapshots))))]
  }

  function PrintTable(t: TableMetadata): string { PrintObject(TableFields(t)) }

  lemma Cat(a: string, b: string, c: string)
    ensures (a + b) + c == a + (b + c)
  {
  }

  lemma PrintFieldsCons(f: Field, fs: seq<Field>)
    requires fs != []
    ensures PrintFields([f] + fs) == PrintField(f) + "," + PrintFields(fs)
  {
    assert ([f] + fs)[1..] == fs;
  }

  lemma {:induction false} PrintFieldsConcat(a: seq<Field>, b: seq<Field>)
    requires a != [] && b != []
    ensures PrintFields(a + b) == PrintFields(a) + ("," + PrintFields(b))
  {
    if |a| == 1 {
      assert a == [a[0]];
      PrintFieldsCons(a[0], b);
      Cat(PrintField(a[0]), ",", PrintFields(b));
    } else {
      assert a + b == [a[0]] + (a[1..] + b) && a == [a[0]] + a[1..];
      PrintFieldsCons(a[0], a[1..] + b);
      PrintFieldsCons(a[0], a[1..]);
      PrintFieldsConcat(a[1..], b);
      Cat(PrintField(a[0]) + ",", PrintFields(a[1..]), "," + PrintFields(b));
    }
  }

  // ---------------------------------------------------------------- parsing

  predicate IsWs(c: char) { c == ' ' || c == '\n' || c == '\r' || c == '\t' }

  function SkipWs(r: string): (rest: string)
    ensures |rest| <= |r|
    ensures rest != "" ==> !IsWs(rest[0])
  {
    if r != "" && IsWs(r[0]) then SkipWs(r[1..]) else r
  }

  function Unescape(e: char): char {
    match e
    case 'n' => '\n'
    case 'r' => '\r'
    case 't' => '\t'
    case _ => e
  }

  predicate At(r: string, c: char) { r != "" && r[0] == c }

  function StringBody(r: string): (p: Option<(string, string)>)
    ensures p.Some? ==> |p.value.1| < |r|
  {
    if r == "" then None
    else if r[0] == '"' then Some(("", r[1..]))
    else if r[0] == '\\' then
      if |r| == 1 then None
      else
        match StringBody(r[2..])
        case None => None
        case Some((text, rest)) => Some(([Unescape(r[1])] + text, rest))
    else
      match StringBody(r[1..])
      case None => None
      case Some((text, rest)) => Some(([r[0]] + text, rest))
  }

  function ParseString(r: string): (p: Option<(string, string)>)
    ensures p.Some? ==> |p.value.1| < |r|
  {
    if At(r, '"') then StringBody(r[1..]) else None
  }

  /** Copies text until the brackets opened so far are closed again, quoted or not. */
  function Capture(r: string, open: char, close: char, depth: int): (p: Option<(string, string)>)
    ensures p.Some? ==> |p.value.1| < |r|
  {
    if r == "" then None
    else
      var inner := if r[0] == open then depth + 1 else depth;
      if r[0] == close && inner == 1 then Some(([r[0]], r[1..]))
      else
        match Capture(r[1..], open, close, if r[0] == close then inner - 1 else inner)
        case None => None
        case Some((text, rest)) => Some(([r[0]] + text, rest))
  }

  predicate EndsScalar(c: char) { c == ',' || c == '}' || c == ']' || IsWs(c) }

  function Scalar(r: string): (p: (string, string))
    ensures p.0 + p.1 == r
  {
    if r == "" || EndsScalar(r[0]) then ("", r)
    else var (text, rest) := Scalar(r[1..]); ([r[0]] + text, rest)
  }

  function ParseValue(source: string): (p: Option<(string, string)>)
    ensures p.Some? ==> |p.value.1| < |source|
  {
    var r := SkipWs(source);
    if At(r, '"') then ParseString(r)
    else if At(r, '[') then Capture(r, '[', ']', 0)
    else if At(r, '{') then Capture(r, '{', '}', 0)
    else
      var (text, rest) := Scalar(r);
      if text == "" then None else Some((text, rest))
  }

  /** What `parse_object` reports and what it has stored by then: the callers ignore `ok`. */
  datatype Parsed = Parsed(ok: bool, fields: map<string, string>)

  function ParseMembers(r: string, out: map<string, string>): Parsed
    decreases |r|, 0
  {
    match ParseString(SkipWs(r))
    case None => Parsed(false, out)
    case Some((key, afterKey)) =>
      var r1 := SkipWs(afterKey);
      if !At(r1, ':') then Parsed(false, out)
      else
        match ParseValue(SkipWs(r1[1..]))
        case None => Parsed(false, out)
        case Some((value, rest)) => AfterValue(rest, out[key := value])
  }

  function AfterValue(source: string, out: map<string, string>): Parsed
    decreases |source|, 1
  {
    var r := SkipWs(source);
    if At(r, '}') then Parsed(true, out)
    else if At(r, ',') then ParseMembers(r[1..], out)
    else Parsed(false, out)
  }

  function ParseObject(json: string): Parsed {
    var r := SkipWs(json);
    if !At(r, '{') then Parsed(false, map[])
    else
      var inner := SkipWs(r[1..]);
      if At(inner, '}') then Parsed(true, map[]) else ParseMembers(inner, map[])
  }

  /** The objects that the array splitter still finds in `r`, given its local state. */
  function Split(r: string, inString: bool, depth: int, current: string): seq<string> {
    if r == "" then []
    else
      var c := r[0];
      if inString then
        if c == '\\' && |r| > 1 then Split(r[2..], true, depth, current + r[..2])
        else Split(r[1..], c != '"', depth, current + [c])
      else if c == '"' then Split(r[1..], true, depth, current + [c])
      else if c == '{' then Split(r[1..], false, depth + 1, if depth == 0 then "{" else current + [c])
      else if c == '}' then
        if depth == 1 then [current + "}"] + Split(r[1..], false, 0, current)
        else Split(r[1..], false, depth - 1, current + [c])
      else if c == ',' && depth == 0 then Split(r[1..], false, depth, current)
      else Split(r[1..], false, depth, if depth > 0 then current + [c] else current)
  }

  function SplitArray(json: string): seq<string> {
    if json == "" then []
    else if json[0] == '[' then Split(json[1..], false, 0, "")
    else SplitArray(json[1..])
  }

  function TextField(o: map<string, string>, key: string): string {
    if key in o then o[key] else ""
  }

  function IntField(o: map<string, string>, key: string): Option<int64> {
    if key in o then Stoll(o[key]) else Some(0)
  }

  function ParseVersion(json: string): Option<VersionMeta> {
    var o := ParseObject(json).fields;
    match (IntField(o, "created_at"), IntField(o, "row_count"))
    case (Some(createdAt), Some(rowCount)) =>
      Some(VersionMeta(TextField(o, "version_id"), TextField(o, "table_id"), createdAt, rowCount,
                       TextField(o, "schema_hash")))
    case _ => None
  }

  function ParseSnapshot(json: string): Option<SnapshotRef> {
    var o := ParseObject(json).fields;
    match (IntField(o, "row_count"), IntField(o, "created_at"))
    case (Some(rowCount), Some(createdAt)) =>
      Some(SnapshotRef(TextField(o, "snapshot_id"), rowCount, createdAt))
    case _ => None
  }

  function ParseVersions(items: seq<string>): (r: Option<seq<VersionMeta>>)
    ensures r.Some? ==> |r.value| == |items|
  {
    if items == [] then Some([])
    else
      match (ParseVersion(items[0]), ParseVersions(items[1..]))
      case (Some(v), Some(vs)) => Some([v] + vs)
      case _ => None
  }

  function ParseSnapshots(items: seq<string>): (r: Option<seq<SnapshotRef>>)
    ensures r.Some? ==> |r.value| == |items|
  {
    if items == [] then Some([])
    else
      match (ParseSnapshot(items[0]), ParseSnapshots(items[1..]))
      case (Some(s), Some(ss)) => Some([s] + ss)
      case _ => None
  }

  /** The table built from the stored members; `None` is the exception that `std::stoll` raises. */
  function TableFrom(o: map<string, string>): Option<TableMetadata> {
    var versions := if "versions" in o then ParseVersions(SplitArray(o["versions"])) else Some([]);
    var snapshots := if "snapshots" in o then ParseSnapshots(SplitArray(o["snapshots"])) else Some([]);
    match (IntField(o, "created_at"), versions, snapshots)
    case (Some(createdAt), Some(vs), Some(ss)) =>
      Some(TableMetadata(TextField(o, "table_id"), TextField(o, "schema_json"),
                         TextField(o, "schema_hash"), createdAt, vs, ss))
    case _ => None
  }

  function ParseTable(json: string): Option<TableMetadata> {
    TableFrom(ParseObject(json).fields)
  }
}
