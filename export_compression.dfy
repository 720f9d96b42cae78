/** The key-renaming layer of the export code: every object key that has a
    short alias is replaced by it on export and restored on import, at every
    depth of the tree. The JSON text and base64 steps around it are not part
    of this model; values are JSON-like trees. */
module Codec {
  import opened Wrappers
  import opened GradeTypes

  /** A JSON-like value. An object is the ordered list of its properties, in
      the order `Object.entries` yields them. */
  datatype Json =
    | JNull
    | JBool(b: bool)
    | JNum(n: real)
    | JStr(s: string)
    | JArr(items: seq<Json>)
    | JObj(members: seq<Member>)

  datatype Member = Member(key: string, value: Json)

  /** The long key -> alias table. */
  const KeyMap: map<string, string> := map[
    "id" := "i", "name" := "n", "coefficient" := "c", "color" := "o",
    "subjects" := "s", "grades" := "g",
    "value" := "v", "type" := "t", "min" := "m", "max" := "x", "isConfirmed" := "f",
    "exact" := "e", "range" := "r"]

  /** The alias -> long key table, the inversion of KeyMap's entries. */
  const ReverseKeyMap: map<string, string> := map[
    "i" := "id", "n" := "name", "c" := "coefficient", "o" := "color",
    "s" := "subjects", "g" := "grades",
    "v" := "value", "t" := "type", "m" := "min", "x" := "max", "f" := "isConfirmed",
    "e" := "exact", "r" := "range"]

  /** `table[key] || key`: every alias is a non-empty string. */
  function Lookup(table: map<string, string>, key: string): string {
    if key in table then table[key] else key
  }

  function KeysOf(ms: seq<Member>): seq<string> {
    seq(|ms|, i requires 0 <= i < |ms| => ms[i].key)
  }

  /** `obj[k] = v` on an object: a property already present keeps its place
      and takes the new value; a new one goes at the end. */
  function Put(ms: seq<Member>, k: string, v: Json): (r: seq<Member>)
    ensures k in KeysOf(r)
    ensures forall key :: key in KeysOf(r) <==> key in KeysOf(ms) || key == k
  {
    if ms == [] then
      assert KeysOf([Member(k, v)]) == [k];
      [Member(k, v)]
    else if ms[0].key == k then
      assert KeysOf([Member(k, v)] + ms[1..]) == [k] + KeysOf(ms[1..]);
      assert KeysOf(ms) == [k] + KeysOf(ms[1..]);
      [Member(k, v)] + ms[1..]
    else
      var rest := Put(ms[1..], k, v);
      assert KeysOf([ms[0]] + rest) == [ms[0].key] + KeysOf(rest);
      assert KeysOf(ms) == [ms[0].key] + KeysOf(ms[1..]);
      [ms[0]] + rest
  }

  /** Assigning the members one after another into a fresh object `{}`. */
  function Assign(ms: seq<Member>): seq<Member> {
    if ms == [] then []
    else Put(Assign(ms[..|ms| - 1]), ms[|ms| - 1].key, ms[|ms| - 1].value)
  }

  /** The renaming pass: arrays are mapped element by element, object keys
      go through the table and values are renamed recursively; null and
      scalars (strings included) are returned unchanged. */
  function Rename(j: Json, table: map<string, string>): Json {
    match j
    case JArr(items) =>
      JArr(seq(|items|, i requires 0 <= i < |items| => Rename(items[i], table)))
    case JObj(ms) =>
      JObj(Assign(seq(|ms|, i requires 0 <= i < |ms| =>
        Member(Lookup(table, ms[i].key), Rename(ms[i].value, table)))))
    case _ => j
  }

  function Compress(j: Json): Json {
    Rename(j, KeyMap)
  }

  function Decompress(j: Json): Json {
    Rename(j, ReverseKeyMap)
  }

  /** One pass of `compressObject` / `decompressObject`: arrays through
      `map`, objects by assigning each renamed property into a fresh object. */
  method RenameKeys(obj: Json, table: map<string, string>) returns (r: Json)
    ensures r == Rename(obj, table)
    decreases obj, 1
  {
    match obj {
      case JArr(items) =>
        var out := RenameItems(items, table);
        r := JArr(out);
      case JObj(ms) =>
        var compressed := RenameMembers(ms, table);
        r := JObj(compressed);
      case _ =>
        r := obj;
    }
  }

  /** `obj.map(compressObject)`. */
  method RenameItems(items: seq<Json>, table: map<string, string>) returns (out: seq<Json>)
    ensures JArr(out) == Rename(JArr(items), table)
    decreases JArr(items), 0
  {
    out := [];
    for i := 0 to |items|
      invariant out == seq(i, k requires 0 <= k < i => Rename(items[k], table))
    {
      var x := RenameKeys(items[i], table);
      out := out + [x];
    }
  }

  /** The `for ... of Object.entries(obj)` loop: each key through the table,
      each value renamed, each pair assigned into the fresh object. */
  method RenameMembers(ms: seq<Member>, table: map<string, string>) returns (compressed: seq<Member>)
    ensures JObj(compressed) == Rename(JObj(ms), table)
    decreases JObj(ms), 0
  {
    ghost var renamed := seq(|ms|, i requires 0 <= i < |ms| =>
      Member(Lookup(table, ms[i].key), Rename(ms[i].value, table)));
    compressed := [];
    for i := 0 to |ms|
      invariant compressed == Assign(renamed[..i])
    {
      var key := Lookup(table, ms[i].key);
      var value := RenameKeys(ms[i].value, table);
      assert renamed[..i + 1][..i] == renamed[..i];
      compressed := Put(compressed, key, value);
    }
    assert renamed[..|ms|] == renamed;
  }

  method CompressObject(obj: Json) returns (r: Json)
    ensures r == Compress(obj)
  {
    r := RenameKeys(obj, KeyMap);
  }

  method DecompressObject(obj: Json) returns (r: Json)
    ensures r == Decompress(obj)
  {
    r := RenameKeys(obj, ReverseKeyMap);
  }

  // ---------------------------------------------------------------------
  // The entity tree as the JSON value the export sees

  function Opt<T>(present: Option<T>, m: T -> Member): seq<Member> {
    match present
    case Some(x) => [m(x)]
    case None => []
  }

  function GradeValueJson(v: GradeValue): Json {
    match v
    case Exact(x) => JObj([Member("type", JStr("exact")), Member("value", JNum(x))])
    case Range(lo, hi) => JObj([Member("type", JStr("range")), Member("min", JNum(lo)), Member("max", JNum(hi))])
  }

  /** Property order of a grade created by the add dialog and then edited. */
  function GradeJson(g: Grade): Json {
    JObj([Member("name", JStr(g.name)), Member("value", GradeValueJson(g.value)),
          Member("coefficient", JNum(g.coefficient)), Member("id", JStr(g.id))]
         + Opt(g.date, (d: string) => Member("date", JStr(d)))
         + Opt(g.isConfirmed, (b: bool) => Member("isConfirmed", JBool(b))))
  }

  function SubjectJson(s: Subject): Json {
    JObj([Member("id", JStr(s.id)), Member("name", JStr(s.name)),
          Member("coefficient", JNum(s.coefficient)), Member("color", JStr(s.color)),
          Member("grades", JArr(seq(|s.grades|, i requires 0 <= i < |s.grades| => GradeJson(s.grades[i]))))])
  }

  function EUJson(e: EU): Json {
    JObj([Member("id", JStr(e.id)), Member("name", JStr(e.name)),
          Member("coefficient", JNum(e.coefficient)), Member("color", JStr(e.color)),
          Member("subjects", JArr(seq(|e.subjects|, i requires 0 <= i < |e.subjects| => SubjectJson(e.subjects[i]))))])
  }

  function TreeJson(eus: seq<EU>): Json {
    JArr(seq(|eus|, i requires 0 <= i < |eus| => EUJson(eus[i])))
  }

  /** `exportData` up to the JSON text: the renamed tree. */
  function ExportData(eus: seq<EU>): Json {
    Compress(TreeJson(eus))
  }

  /** `importData` after the JSON text: `decode` stands for trimming, base64
      and JSON parsing, with `None` for any exception they throw. */
  function ImportData(code: string, decode: string -> Option<Json>): Option<Json> {
    match decode(code)
    case Some(j) => Some(Decompress(j))
    case None => None
  }
}
