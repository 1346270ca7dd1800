/** The text form of an inferred schema, as kept in a topic's configuration. */
module SchemaConfig {
  import opened Base
  import opened JsonSchema
  import opened Text

  function TypeName(t: FieldType): string {
    match t
    case String => "string"
    case Int64 => "int64"
    case Float64 => "float64"
    case Boolean => "boolean"
    case Object => "object"
    case Array => "array"
  }

  function ParseType(s: string): Option<FieldType> {
    if s == "string" then Some(String)
    else if s == "int64" then Some(Int64)
    else if s == "float64" then Some(Float64)
    else if s == "boolean" then Some(Boolean)
    else if s == "object" then Some(Object)
    else if s == "array" then Some(Array)
    else None
  }

  /** Characters with the Unicode property White_Space. */
  predicate IsWhitespace(c: char) {
    || '\t' <= c <= '\r'
    || c == ' ' || c == '\U{85}' || c == '\U{A0}' || c == '\U{1680}'
    || '\U{2000}' <= c <= '\U{200A}'
    || c == '\U{2028}' || c == '\U{2029}' || c == '\U{202F}' || c == '\U{205F}' || c == '\U{3000}'
  }

  function TrimStart(s: string): (r: string)
    ensures r != [] ==> !IsWhitespace(r[0])
    ensures forall c :: c in r ==> c in s
    ensures s != [] && !IsWhitespace(s[0]) ==> r == s
  {
    if s != [] && IsWhitespace(s[0]) then TrimStart(s[1..]) else s
  }

  function TrimEnd(s: string): (r: string)
    ensures r <= s
    ensures s != [] && !IsWhitespace(s[|s| - 1]) ==> r == s
  {
    if s != [] && IsWhitespace(s[|s| - 1]) then TrimEnd(s[..|s| - 1]) else s
  }

  function Trim(s: string): string {
    TrimEnd(TrimStart(s))
  }

  function Entry(f: Field): string {
    f.name + ":" + TypeName(f.fieldType) + if f.nullable then "?" else ""
  }

  function Entries(fields: seq<Field>): seq<string> {
    seq(|fields|, i requires 0 <= i < |fields| => Entry(fields[i]))
  }

  function ToConfigString(fields: seq<Field>): string {
    Join(Entries(fields), ',')
  }

  /** One entry; anything malformed is passed over. */
  function ParseEntry(text: string): Option<Field> {
    var entry := Trim(text);
    if entry == "" then None
    else
      var nullable := entry[|entry| - 1] == '?';
      var body := if nullable then entry[..|entry| - 1] else entry;
      match Find(body, ':')
      case None => None
      case Some(colon) =>
        match ParseType(body[colon + 1..])
        case None => None
        case Some(t) => Some(Field(body[..colon], t, nullable, 0))
  }

  function ParseEntries(texts: seq<string>): seq<Field> {
    if texts == [] then []
    else
      var front := ParseEntries(texts[..|texts| - 1]);
      match ParseEntry(texts[|texts| - 1])
      case None => front
      case Some(f) => front + [f]
  }

  function FromConfigString(s: string): Option<seq<Field>> {
    var fields := ParseEntries(Split(s, ','));
    if s == "" || fields == [] then None else Some(fields)
  }

  method ParseConfigString(s: string) returns (r: Option<seq<Field>>)
    ensures r == FromConfigString(s)
  {
    if s == "" {
      return None;
    }
    var texts := Split(s, ',');
    var fields: seq<Field> := [];
    for i := 0 to |texts|
      invariant fields == ParseEntries(texts[..i])
    {
      assert texts[..i + 1][..i] == texts[..i];
      var f := ParseEntry(texts[i]);
      if f.Some? {
        fields := fields + [f.value];
      }
    }
    assert texts[..|texts|] == texts;
    r := if fields == [] then None else Some(fields);
  }

  // ---- Round trip ----

  /** The name has no separator and does not start with white space. */
  predicate Clean(name: string) {
    ',' !in name && ':' !in name && (name != [] ==> !IsWhitespace(name[0]))
  }

  /** What the text keeps of a field: everything but the number of occurrences. */
  function Kept(fields: seq<Field>): seq<Field> {
    seq(|fields|, i requires 0 <= i < |fields| => fields[i].(count := 0))
  }

  lemma {:induction false} TypeNameParses(t: FieldType)
    ensures ParseType(TypeName(t)) == Some(t)
    ensures TypeName(t) != [] && ',' !in TypeName(t)
    ensures var last := TypeName(t)[|TypeName(t)| - 1]; last != '?' && !IsWhitespace(last)
  {
  }

  lemma {:induction false} EntryRoundTrip(f: Field)
    requires Clean(f.name)
    ensures ParseEntry(Entry(f)) == Some(f.(count := 0))
    ensures ',' !in Entry(f)
  {
    hide TypeName, ParseType, IsWhitespace, Find;
    TypeNameParses(f.fieldType);
    var body := f.name + ":" + TypeName(f.fieldType);
    assert ":" == [':'];
    FirstSeparator(f.name, ':', TypeName(f.fieldType));
    var entry := Entry(f);
    assert !IsWhitespace(':') && !IsWhitespace('?') by { Marks(); }
    assert entry[0] == if f.name == [] then ':' else f.name[0];
    assert f.nullable ==> entry == body + "?" && entry[..|entry| - 1] == body;
    assert !f.nullable ==> entry == body;
    assert body[|body| - 1] == TypeName(f.fieldType)[|TypeName(f.fieldType)| - 1];
    assert Trim(entry) == entry;
    assert body[|f.name| + 1..] == TypeName(f.fieldType);
    assert body[..|f.name|] == f.name;
  }

  lemma {:induction false} Marks()
    ensures !IsWhitespace(':') && !IsWhitespace('?')
  {
  }

  lemma {:induction false} EntriesRoundTrip(fields: seq<Field>)
    requires forall i :: 0 <= i < |fields| ==> Clean(fields[i].name)
    ensures ParseEntries(Entries(fields)) == Kept(fields)
  {
    hide ParseEntry, Entry, Clean;
    if fields != [] {
      var n := |fields| - 1;
      EntriesRoundTrip(fields[..n]);
      assert Entries(fields)[..n] == Entries(fields[..n]);
      EntryRoundTrip(fields[n]);
      assert Kept(fields) == Kept(fields[..n]) + [fields[n].(count := 0)];
    }
  }

  /** A name read back from text is always clean. */
  lemma {:induction false} ParsedNameIsClean(text: string)
    requires ',' !in text && ParseEntry(text).Some?
    ensures Clean(ParseEntry(text).value.name)
  {
    hide ParseEntry, Trim, TypeName, IsWhitespace;
    var f := ParseEntry(text).value;
    var before, after := TrimMeans(text);
    ParsedIsEntry(text, f);
    NameInEntry(f);
    assert forall c :: c in Trim(text) ==> c in before + Trim(text) + after;
  }

  lemma {:induction false} NameInEntry(f: Field)
    ensures f.name <= Entry(f)
    ensures forall c :: c in f.name ==> c in Entry(f)
  {
    hide TypeName;
    var rest := ":" + TypeName(f.fieldType) + if f.nullable then "?" else "";
    assert Entry(f) == f.name + rest;
  }

  lemma {:induction false} ParsedNamesAreClean(texts: seq<string>, i: nat)
    requires forall j :: 0 <= j < |texts| ==> ',' !in texts[j]
    requires i < |ParseEntries(texts)|
    ensures Clean(ParseEntries(texts)[i].name)
  {
    hide ParseEntry, Clean;
    var n := |texts| - 1;
    if i < |ParseEntries(texts[..n])| {
      ParsedNamesAreClean(texts[..n], i);
    } else {
      ParsedNameIsClean(texts[n]);
    }
  }

  /** A schema survives the text form, up to occurrence counts, exactly when it has fields and all names are clean. */
  lemma {:induction false} ConfigRoundTripIff(fields: seq<Field>)
    ensures FromConfigString(ToConfigString(fields)) == Some(Kept(fields)) <==>
            fields != [] && forall i :: 0 <= i < |fields| ==> Clean(fields[i].name)
  {
    hide ParseEntry, Entry, Clean, ParseEntries, Split, Join;
    var s := ToConfigString(fields);
    if fields != [] && forall i :: 0 <= i < |fields| ==> Clean(fields[i].name) {
      forall i | 0 <= i < |fields| ensures ',' !in Entries(fields)[i] {
        EntryRoundTrip(fields[i]);
      }
      SplitJoin(Entries(fields), ',');
      EntriesRoundTrip(fields);
      TextIsNotEmpty(fields);
    }
    if FromConfigString(s) == Some(Kept(fields)) {
      forall i | 0 <= i < |fields| ensures Clean(fields[i].name) {
        assert fields[i].name == Kept(fields)[i].name;
        ParsedNamesAreClean(Split(s, ','), i);
      }
    }
  }

  lemma {:induction false} TextIsNotEmpty(fields: seq<Field>)
    requires fields != []
    ensures ToConfigString(fields) != ""
  {
    assert Entry(fields[0]) != "";
    assert Entries(fields)[0] == Entry(fields[0]);
  }

  // ---- What is accepted ----

  predicate Blank(s: string) {
    forall i :: 0 <= i < |s| ==> IsWhitespace(s[i])
  }

  /** Trimming removes exactly the white space at both ends. */
  lemma {:induction false} TrimMeans(s: string) returns (before: string, after: string)
    ensures Blank(before) && Blank(after) && s == before + Trim(s) + after
    ensures Trim(s) != "" ==> !IsWhitespace(Trim(s)[0]) && !IsWhitespace(Trim(s)[|Trim(s)| - 1])
  {
    hide IsWhitespace;
    before := TrimStartMeans(s);
    after := TrimEndMeans(TrimStart(s));
    assert s == before + (Trim(s) + after) == before + Trim(s) + after;
    if Trim(s) != "" {
      assert Trim(s)[0] == TrimStart(s)[0];
    }
  }

  lemma {:induction false} TrimStartMeans(s: string) returns (before: string)
    ensures Blank(before) && s == before + TrimStart(s)
  {
    hide IsWhitespace;
    if s != [] && IsWhitespace(s[0]) {
      var rest := TrimStartMeans(s[1..]);
      before := [s[0]] + rest;
      assert s == [s[0]] + s[1..];
    } else {
      before := "";
    }
  }

  lemma {:induction false} TrimEndMeans(s: string) returns (after: string)
    ensures Blank(after) && s == TrimEnd(s) + after
    ensures TrimEnd(s) != "" ==> !IsWhitespace(TrimEnd(s)[|TrimEnd(s)| - 1])
  {
    hide IsWhitespace;
    if s != [] && IsWhitespace(s[|s| - 1]) {
      var rest := TrimEndMeans(s[..|s| - 1]);
      after := rest + [s[|s| - 1]];
      assert s == s[..|s| - 1] + [s[|s| - 1]];
    } else {
      after := "";
    }
  }

  lemma {:induction false} ParsedTypeName(s: string)
    ensures ParseType(s).Some? ==> s == TypeName(ParseType(s).value)
  {
  }

  lemma {:induction false} ParsedIsEntry(text: string, f: Field)
    requires ParseEntry(text) == Some(f)
    ensures Trim(text) == Entry(f) && ':' !in f.name && f.count == 0
  {
    hide Trim, TypeName, ParseType;
    var entry := Trim(text);
    var body := if f.nullable then entry[..|entry| - 1] else entry;
    var colon := Find(body, ':').value;
    ParsedTypeName(body[colon + 1..]);
    assert body == body[..colon] + [':'] + body[colon + 1..];
    assert [':'] == ":";
    assert entry == if f.nullable then body + "?" else body;
  }

  lemma {:induction false} EntryIsParsed(text: string, f: Field)
    requires Trim(text) == Entry(f) && ':' !in f.name && f.count == 0
    ensures ParseEntry(text) == Some(f)
  {
    hide Trim, TypeName, ParseType, Find;
    var entry, name := Trim(text), TypeName(f.fieldType);
    TypeNameParses(f.fieldType);
    var body := f.name + ":" + name;
    assert ":" == [':'];
    FirstSeparator(f.name, ':', name);
    assert body[|body| - 1] == name[|name| - 1];
    assert f.nullable ==> entry == body + "?" && entry[..|entry| - 1] == body;
    assert !f.nullable ==> entry == body;
    assert body[|f.name| + 1..] == name && body[..|f.name|] == f.name;
  }

  /** An entry is understood exactly if, trimmed, it is what some field without a colon in its name is written as. */
  lemma {:induction false} ParseEntryIff(text: string, f: Field)
    ensures ParseEntry(text) == Some(f) <==> Trim(text) == Entry(f) && ':' !in f.name && f.count == 0
  {
    hide ParseEntry, Trim, Entry;
    if ParseEntry(text) == Some(f) {
      ParsedIsEntry(text, f);
    }
    if Trim(text) == Entry(f) && ':' !in f.name && f.count == 0 {
      EntryIsParsed(text, f);
    }
  }

  /** The text form as it stands in a topic's configuration. */
  lemma {:induction false} ConfigStringExample()
    ensures ToConfigString([Field("id", Int64, false, 3), Field("name", String, true, 2)]) == "id:int64,name:string?"
    ensures TypeName(Float64) == "float64" && TypeName(Boolean) == "boolean" && TypeName(Object) == "object" && TypeName(Array) == "array"
  {
    var a, b := Field("id", Int64, false, 3), Field("name", String, true, 2);
    assert Entry(a) == "id:int64" by { assert Entry(a) == "id" + ":" + "int64" + ""; }
    assert Entry(b) == "name:string?" by { assert Entry(b) == "name" + ":" + "string" + "?"; }
    assert Entries([a, b]) == [Entry(a), Entry(b)];
    assert [Entry(a), Entry(b)][1..] == [Entry(b)];
    assert Join([Entry(b)], ',') == Entry(b);
    assert "id:int64" + [','] + "name:string?" == "id:int64,name:string?";
  }

  /** A comma in a field name is lost: the schema comes back with another field, or none. */
  lemma {:induction false} CommaIsLost()
    ensures FromConfigString(ToConfigString([Field("a,b", String, false, 1)])) != Some([Field("a,b", String, false, 0)])
  {
    var fields := [Field("a,b", String, false, 1)];
    ConfigRoundTripIff(fields);
    assert "a,b"[1] == ',';
    assert !Clean(fields[0].name);
    assert Kept(fields) == [Field("a,b", String, false, 0)];
  }
}
