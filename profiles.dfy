/** The profile record both analyzers build from a parsed profile document. */
module Profiles {
  import opened Json
  import opened Paths
  import opened Dict

  /** One loaded profile. `name` is the display name declared in the document, `inherits` the
      declared parent name, `profileType` the category ("filament", "machine" or "process"). */
  datatype Profile = Profile(
    name: string,
    inherits: Option<string>,
    filePath: Path,
    fromSystem: bool,
    settings: map<string, Value>,
    profileType: Value)

  /** `self.profiles`: store key to profile, in insertion order. */
  type Store = seq<Entry<Profile>>

  /** A profile file found under `system/` or `user/`, in discovery order, with its parsed JSON
      document; None when the file could not be read or parsed, and is skipped. */
  datatype ProfileFile = ProfileFile(path: Path, document: Option<Document>)

  /** The document keys that describe the profile itself and are not settings. */
  const StructuralKeys: set<string> := {"name", "inherits", "from", "type"}

  /** `data.get('name')` when it passes the `if name:` test. */
  function NameOf(doc: Document): Option<string> {
    if "name" in doc && doc["name"].Str? && doc["name"].s != "" then Some(doc["name"].s) else None
  }

  /** `data.get('inherits')`; absent and null both mean "no parent". */
  function InheritsOf(doc: Document): Option<string> {
    if "inherits" in doc && doc["inherits"].Str? then Some(doc["inherits"].s) else None
  }

  /** `data.get('from', '').lower()` raises unless the field is absent or a string. */
  predicate OriginReadable(doc: Document) {
    "from" !in doc || doc["from"].Str?
  }

  /** `data.get('from', '').lower() == 'system'`. */
  predicate FromSystem(doc: Document) {
    "from" in doc && doc["from"].Str? && LowerAscii(doc["from"].s) == "system"
  }

  /** The profile type: a category directory in the path decides, checked in the order process,
      machine, filament; otherwise the document's `type` field, defaulting to "filament". */
  function InferType(doc: Document, path: Path): Value {
    var pathStr := Render(path);
    if Contains(pathStr, "/process/") then Str("process")
    else if Contains(pathStr, "/machine/") then Str("machine")
    else if Contains(pathStr, "/filament/") then Str("filament")
    else if "type" in doc then doc["type"]
    else Str("filament")
  }

  /** `{k: v for k, v in data.items() if k not in ['name', 'inherits', 'from', 'type']}`. */
  function SettingsOf(doc: Document): (settings: map<string, Value>)
    ensures settings.Keys == doc.Keys - StructuralKeys
    ensures forall k :: k in settings ==> settings[k] == doc[k]
  {
    map k | k in doc && k !in StructuralKeys :: doc[k]
  }

  /** The record `_load_profile` builds from one document, or None when it skips the document:
      the name is missing or empty, or reading `from` raises. */
  function Parse(doc: Document, path: Path): (r: Option<Profile>)
    ensures r.Some? <==> NameOf(doc).Some? && OriginReadable(doc)
    ensures r.Some? ==> r.value.name == NameOf(doc).value && r.value.name != ""
    ensures r.Some? ==> r.value.filePath == path && r.value.inherits == InheritsOf(doc)
    ensures r.Some? ==> forall k :: k in StructuralKeys ==> k !in r.value.settings
  {
    match NameOf(doc)
    case None => None
    case Some(name) =>
      if !OriginReadable(doc) then None
      else Some(Profile(name, InheritsOf(doc), path, FromSystem(doc), SettingsOf(doc), InferType(doc, path)))
  }

  /** A `process` directory anywhere above the file makes the profile a process profile, whatever
      its own `type` field says. */
  lemma ProcessDirectoryDecidesType(doc: Document, path: Path, i: nat)
    requires i + 1 < |path.segments| && path.segments[i] == "process"
    requires path.rooted || i > 0
    ensures InferType(doc, path) == Str("process")
  {
    DirectorySegmentInRender(path, i, "process");
    assert "/" + "process" + "/" == "/process/";
  }

  /** Without a process directory, a `machine` directory makes it a machine profile. */
  lemma MachineDirectoryDecidesType(doc: Document, path: Path, i: nat)
    requires i + 1 < |path.segments| && path.segments[i] == "machine"
    requires path.rooted || i > 0
    requires !Contains(Render(path), "/process/")
    ensures InferType(doc, path) == Str("machine")
  {
    DirectorySegmentInRender(path, i, "machine");
    assert "/" + "machine" + "/" == "/machine/";
  }
}
