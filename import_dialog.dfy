/** The import dialog: a pasted export code is decoded, checked shallowly
    (an array of objects with a truthy `id` and `name` and a numeric
    `coefficient`) and kept as a preview until the user confirms. */
module Import {
  import opened Wrappers
  import opened GradeTypes
  import opened Codec
  import CodecProperties

  /** The `error` string of the dialog: '' or one of its two messages. */
  datatype ImportError = NoError | MissingCode | InvalidCode

  /** ECMAScript white space and line terminators, the characters
      `String.prototype.trim` removes. */
  predicate IsWhitespace(c: char) {
    || c == '\t' || c == '\n' || c == '\U{000B}' || c == '\U{000C}' || c == '\r'
    || c == ' ' || c == '\U{00A0}' || c == '\U{1680}'
    || ('\U{2000}' <= c <= '\U{200A}')
    || c == '\U{2028}' || c == '\U{2029}' || c == '\U{202F}' || c == '\U{205F}'
    || c == '\U{3000}' || c == '\U{FEFF}'
  }

  function TrimStart(s: string): (r: string)
    ensures |r| <= |s| && r == s[|s| - |r|..]
    ensures r == [] || !IsWhitespace(r[0])
    ensures forall i | 0 <= i < |s| - |r| :: IsWhitespace(s[i])
  {
    if s != [] && IsWhitespace(s[0]) then TrimStart(s[1..]) else s
  }

  function TrimEnd(s: string): (r: string)
    ensures |r| <= |s| && r == s[..|r|]
    ensures r == [] || !IsWhitespace(r[|r| - 1])
    ensures forall i | |r| <= i < |s| :: IsWhitespace(s[i])
  {
    if s != [] && IsWhitespace(s[|s| - 1]) then TrimEnd(s[..|s| - 1]) else s
  }

  /** `s.trim()`. */
  function Trim(s: string): string {
    TrimEnd(TrimStart(s))
  }

  predicate IsBlank(s: string) {
    forall i | 0 <= i < |s| :: IsWhitespace(s[i])
  }

  /** `!code.trim()` holds exactly when the code is empty or white space. */
  lemma TrimEmptyIffBlank(s: string)
    ensures Trim(s) == [] <==> IsBlank(s)
  {
    var t := TrimStart(s);
    if Trim(s) == [] {
      assert t == [];
    } else {
      var r := Trim(s);
      assert r == t[..|r|] && !IsWhitespace(t[0]);
      assert s[|s| - |t|] == t[0];
    }
  }

  /** The value of the first property named `key`, None for `undefined`. */
  function Find(ms: seq<Member>, key: string): Option<Json> {
    if ms == [] then None
    else if ms[0].key == key then Some(ms[0].value)
    else Find(ms[1..], key)
  }

  /** A property read finds a value exactly when the key is present, and the
      value found is one the object holds under that key. */
  lemma {:induction false} FindMeetsKeys(ms: seq<Member>, key: string)
    ensures Find(ms, key).Some? <==> key in KeysOf(ms)
    ensures Find(ms, key).Some? ==> Member(key, Find(ms, key).value) in ms
  {
    if ms != [] {
      assert KeysOf(ms) == [ms[0].key] + KeysOf(ms[1..]);
      if ms[0].key != key {
        FindMeetsKeys(ms[1..], key);
      }
    }
  }

  /** `value.key`: only objects have own properties here; on null it throws,
      which the dialog reports like any other invalid code. */
  function Property(j: Json, key: string): Option<Json> {
    match j
    case JObj(ms) => Find(ms, key)
    case _ => None
  }

  /** JavaScript truthiness, `undefined` being None. */
  predicate Truthy(v: Option<Json>) {
    match v
    case None => false
    case Some(JNull) => false
    case Some(JBool(b)) => b
    case Some(JNum(n)) => n != 0.0
    case Some(JStr(s)) => s != ""
    case Some(_) => true
  }

  /** The per-element check: `eu.id` and `eu.name` truthy, `typeof
      eu.coefficient === 'number'`. Nothing below this level is looked at. */
  predicate AcceptableEU(eu: Json) {
    && Truthy(Property(eu, "id"))
    && Truthy(Property(eu, "name"))
    && Property(eu, "coefficient").Some? && Property(eu, "coefficient").value.JNum?
  }

  datatype Outcome = Rejected(error: ImportError) | Accepted(data: seq<Json>)

  /** The outcome of `handleValidate` for a code and a decoder standing for
      trim, base64, JSON parsing (None when any of them throws). */
  function Validate(code: string, decode: string -> Option<Json>): (r: Outcome)
    ensures r.Rejected? ==> r.error != NoError
    ensures r.Rejected? && r.error == MissingCode <==> IsBlank(code)
    ensures r.Accepted? <==>
      && !IsBlank(code)
      && ImportData(code, decode).Some?
      && ImportData(code, decode).value.JArr?
      && forall i | 0 <= i < |ImportData(code, decode).value.items| ::
           AcceptableEU(ImportData(code, decode).value.items[i])
    ensures r.Accepted? ==> ImportData(code, decode) == Some(JArr(r.data))
  {
    TrimEmptyIffBlank(code);
    if Trim(code) == [] then Rejected(MissingCode)
    else
      match ImportData(code, decode)
      case None => Rejected(InvalidCode)
      case Some(data) =>
        if !data.JArr? then Rejected(InvalidCode)
        else if exists i | 0 <= i < |data.items| :: !AcceptableEU(data.items[i]) then Rejected(InvalidCode)
        else Accepted(data.items)
  }

  /** The `for (const eu of data)` loop that throws on the first bad element. */
  method CheckEUs(items: seq<Json>) returns (ok: bool)
    ensures ok <==> forall i | 0 <= i < |items| :: AcceptableEU(items[i])
  {
    for i := 0 to |items|
      invariant forall k | 0 <= k < i :: AcceptableEU(items[k])
    {
      var eu := items[i];
      if !Truthy(Property(eu, "id")) || !Truthy(Property(eu, "name"))
         || !(Property(eu, "coefficient").Some? && Property(eu, "coefficient").value.JNum?) {
        return false;
      }
    }
    return true;
  }

  /** An exported EU passes the element check exactly when its id and
      name are non-empty. */
  lemma EUJsonAcceptable(e: EU)
    ensures AcceptableEU(EUJson(e)) <==> e.id != "" && e.name != ""
  {
    var rest := EUJson(e).members[3..];
    assert EUJson(e).members ==
      [Member("id", JStr(e.id)), Member("name", JStr(e.name)), Member("coefficient", JNum(e.coefficient))] + rest;
    CheckIsShallow(e.id, e.name, e.coefficient, rest);
  }

  /** An exported tree passes the check exactly when every EU has a
      non-empty id and name; the preview is then the tree itself. */
  lemma ExportedTreeAccepted(code: string, decode: string -> Option<Json>, eus: seq<EU>)
    requires !IsBlank(code) && decode(code) == Some(ExportData(eus))
    ensures Validate(code, decode).Accepted? <==>
      forall i | 0 <= i < |eus| :: eus[i].id != "" && eus[i].name != ""
    ensures Validate(code, decode).Accepted? ==> JArr(Validate(code, decode).data) == TreeJson(eus)
  {
    CodecProperties.ExportImportRoundTrip(eus);
    var items := TreeJson(eus).items;
    assert ImportData(code, decode) == Some(JArr(items));
    forall i | 0 <= i < |eus|
      ensures AcceptableEU(items[i]) <==> eus[i].id != "" && eus[i].name != ""
    {
      EUJsonAcceptable(eus[i]);
    }
  }

  /** Subjects and grades are not inspected: after an id, a name and a
      numeric coefficient, the properties that follow play no part, whatever
      they hold. */
  lemma CheckIsShallow(id: string, name: string, k: real, rest: seq<Member>)
    ensures id != "" && name != "" <==> AcceptableEU(JObj([Member("id", JStr(id)), Member("name", JStr(name)), Member("coefficient", JNum(k))] + rest))
  {
    var i, n, c := Member("id", JStr(id)), Member("name", JStr(name)), Member("coefficient", JNum(k));
    assert [i, n, c] + rest == [i] + ([n] + ([c] + rest));
    FindFirst(c, rest, "coefficient");
    FindFirst(n, [c] + rest, "coefficient");
    FindFirst(i, [n] + ([c] + rest), "coefficient");
    FindFirst(n, [c] + rest, "name");
    FindFirst(i, [n] + ([c] + rest), "name");
    FindFirst(i, [n] + ([c] + rest), "id");
  }

  /** Looking up a key starts at the first property. */
  lemma FindFirst(m: Member, rest: seq<Member>, key: string)
    ensures Find([m] + rest, key) == if m.key == key then Some(m.value) else Find(rest, key)
  {
    assert ([m] + rest)[1..] == rest;
  }

  /** The dialog's state: the pasted code, the error message, the preview
      and whether the dialog is open. */
  class ImportDialog {
    var importCode: string
    var error: ImportError
    var previewData: Option<seq<Json>>
    var open: bool

    constructor(open: bool)
      ensures importCode == "" && error == NoError && previewData == None && this.open == open
    {
      importCode := "";
      error := NoError;
      previewData := None;
      this.open := open;
    }

    /** The textarea's onChange. */
    method SetImportCode(code: string)
      modifies this
      ensures importCode == code
      ensures error == old(error) && previewData == old(previewData) && open == old(open)
    {
      importCode := code;
    }

    /** `handleValidate`: every rejection leaves no preview; an acceptance
        stores exactly the decoded array and clears the error. */
    method HandleValidate(decode: string -> Option<Json>)
      modifies this
      ensures importCode == old(importCode) && open == old(open)
      ensures match Validate(old(importCode), decode)
        case Rejected(e) => error == e && previewData == None
        case Accepted(data) => error == NoError && previewData == Some(data)
    {
      var code := importCode;
      error := NoError;
      previewData := None;
      TrimEmptyIffBlank(code);
      if Trim(code) == [] {
        assert Validate(code, decode) == Rejected(MissingCode);
        error := MissingCode;
        return;
      }
      var decoded := ImportData(code, decode);
      if decoded.None? || !decoded.value.JArr? {
        assert Validate(code, decode) == Rejected(InvalidCode);
        error := InvalidCode;
        return;
      }
      var ok := CheckEUs(decoded.value.items);
      if !ok {
        assert Validate(code, decode) == Rejected(InvalidCode);
        error := InvalidCode;
        return;
      }
      assert Validate(code, decode) == Accepted(decoded.value.items);
      previewData := Some(decoded.value.items);
    }

    /** `handleImport`, with `confirmed` the answer to the confirmation
        prompt: the preview is handed over only when present and confirmed,
        then the dialog is cleared and closed. */
    method HandleImport(confirmed: bool) returns (imported: Option<seq<Json>>)
      modifies this
      ensures old(previewData).Some? && confirmed ==>
        && imported == old(previewData)
        && importCode == "" && previewData == None && error == NoError && !open
      ensures !(old(previewData).Some? && confirmed) ==>
        && imported == None
        && importCode == old(importCode) && previewData == old(previewData)
        && error == old(error) && open == old(open)
    {
      imported := None;
      if previewData.Some? && confirmed {
        imported := previewData;
        importCode := "";
        previewData := None;
        error := NoError;
        open := false;
      }
    }

    /** `handleClose`: clear everything and close. */
    method HandleClose()
      modifies this
      ensures importCode == "" && previewData == None && error == NoError && !open
    {
      importCode := "";
      previewData := None;
      error := NoError;
      open := false;
    }
  }
}
