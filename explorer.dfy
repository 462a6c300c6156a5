/** The profile explorer's analyzer: a store keyed by display name, where a second profile with a
    name already seen gets a key suffixed with its directory, and a resolver that picks among
    same-named profiles by closeness to the file asking. */
module Explorer {
  import opened Json
  import opened Paths
  import opened Profiles
  import opened Seqs
  import opened Dict
  import opened Inheritance
  import opened Merge
  import opened Comparison
  import opened Chains

  // ---- Name resolution ----

  /** The stored profiles whose display name is `name`, in store order. */
  function Candidates(store: Store, name: string): (cands: seq<Profile>)
    ensures forall p :: p in cands <==> p in Values(store) && p.name == name
  {
    Filter(Values(store), (p: Profile) => p.name == name)
  }

  const LibraryMarker: string := "system/OrcaFilamentLibrary"

  /** The library test, with its three spellings. */
  predicate InLibrary(p: Profile) {
    var s := Render(p.filePath);
    Contains(s, LibraryMarker) || Contains(s, "/" + LibraryMarker) || StartsWith(s, LibraryMarker)
  }

  /** The number of leading path parts a candidate shares with the requesting file. */
  function Score(c: Profile, requestingParts: seq<string>): nat {
    CommonPrefixLength(requestingParts, Parts(c.filePath))
  }

  function ProximityTo(requesting: Path): Profile -> nat {
    (c: Profile) => Score(c, Parts(requesting))
  }

  /** Candidate `k` has a positive count of shared leading parts, none has more, and every earlier
      one has fewer. */
  predicate EarliestLongest<T>(cands: seq<T>, score: T -> nat, k: int) {
    && 0 <= k < |cands|
    && score(cands[k]) > 0
    && (forall j :: 0 <= j < |cands| ==> score(cands[j]) <= score(cands[k]))
    && (forall j :: 0 <= j < k ==> score(cands[j]) < score(cands[k]))
  }

  /** `closest_matches` followed by `max(closest_matches, key=...)`: among the candidates with a
      positive count, the first one with the largest count (`max` keeps the first of equal
      maxima); None when no candidate shares a leading part. */
  function BestMatch<T>(cands: seq<T>, score: T -> nat): (r: Option<nat>)
    ensures r.None? <==> forall j :: 0 <= j < |cands| ==> score(cands[j]) == 0
    ensures r.Some? ==> EarliestLongest(cands, score, r.value)
  {
    if cands == [] then None
    else
      var n := |cands|;
      var s := score(cands[n - 1]);
      assert forall j :: 0 <= j < n - 1 ==> cands[..n - 1][j] == cands[j];
      match BestMatch(cands[..n - 1], score)
      case None => if s > 0 then Some(n - 1) else None
      case Some(i) => if s > score(cands[i]) then Some(n - 1) else Some(i)
  }

  /** One more candidate: it becomes the best only with a positive count higher than the best
      so far. */
  lemma BestMatchStep<T>(cands: seq<T>, score: T -> nat, i: nat)
    requires i < |cands|
    ensures var prev := BestMatch(cands[..i], score);
      var s := score(cands[i]);
      BestMatch(cands[..i + 1], score)
        == if s > 0 && (prev.None? || s > score(cands[prev.value])) then Some(i) else prev
  {
    var c := cands[..i + 1];
    assert c[..i] == cands[..i];
    assert c[i] == cands[i];
    var prev := BestMatch(cands[..i], score);
    if prev.Some? {
      assert c[prev.value] == cands[prev.value];
    }
  }

  /** The first library candidate, if any. */
  function FirstInLibrary(cands: seq<Profile>): (r: Option<Profile>)
    ensures r.None? <==> forall j :: 0 <= j < |cands| ==> !InLibrary(cands[j])
    ensures r.Some? ==>
              exists i :: (0 <= i < |cands| && r.value == cands[i] && InLibrary(cands[i])
                           && forall j :: 0 <= j < i ==> !InLibrary(cands[j]))
  {
    match FirstIndex(cands, InLibrary)
    case Some(i) => Some(cands[i])
    case None => None
  }

  /** `_find_closest_profile`: a candidate in the requesting file's directory; else the first
      candidate sharing the most leading path parts; else the first library candidate; else None. */
  function Closest(cands: seq<Profile>, requesting: Path): (r: Option<Profile>)
    ensures r.Some? ==> r.value in cands
  {
    match FirstIndex(cands, (c: Profile) => SameDirectory(c.filePath, requesting))
    case Some(i) => Some(cands[i])
    case None =>
      match BestMatch(cands, ProximityTo(requesting))
      case Some(k) => Some(cands[k])
      case None => FirstInLibrary(cands)
  }

  /** `get_profile(name, requesting_file_path)`. A requesting path of None stands for both None
      and the empty string. */
  function Resolve(store: Store, name: string, requesting: Option<Path>): Option<Profile>
  {
    var cands := Candidates(store, name);
    if |cands| == 0 then None
    else if |cands| == 1 then Some(cands[0])
    else
      var closest := if requesting.Some? then Closest(cands, requesting.value) else None;
      if closest.Some? then closest
      else match FirstInLibrary(cands)
        case Some(p) => Some(p)
        case None => Some(cands[0])
  }

  // ---- Properties of resolution ----

  /** `get_profile` finds nothing exactly when no stored profile carries the name; what it finds
      is one of those that do; and a single one is returned whatever the requesting file. */
  lemma ResolveFindsACandidate(store: Store, name: string, requesting: Option<Path>)
    ensures var r := Resolve(store, name, requesting);
      && (r.None? <==> |Candidates(store, name)| == 0)
      && (r.Some? ==> r.value in Candidates(store, name) && r.value.name == name)
      && (|Candidates(store, name)| == 1 ==> r == Some(Candidates(store, name)[0]))
  {
  }

  /** The three spellings of the library test come down to one substring test. */
  lemma InLibraryIsMarkerInPath(p: Profile)
    ensures InLibrary(p) <==> Contains(Render(p.filePath), LibraryMarker)
  {
    var s := Render(p.filePath);
    if Contains(s, "/" + LibraryMarker) {
      assert "/" + LibraryMarker == ['/'] + LibraryMarker;
      ContainsSuffixOfNeedle(s, '/', LibraryMarker);
    }
    if StartsWith(s, LibraryMarker) {
      StartsWithContains(s, LibraryMarker);
    }
  }

  /** With several candidates, one in the requesting file's own directory wins: the first such. */
  lemma ResolvePrefersSameDirectory(store: Store, name: string, requesting: Path, i: nat)
    requires |Candidates(store, name)| >= 2
    requires i < |Candidates(store, name)|
    requires SameDirectory(Candidates(store, name)[i].filePath, requesting)
    requires forall j :: 0 <= j < i ==> !SameDirectory(Candidates(store, name)[j].filePath, requesting)
    ensures Resolve(store, name, Some(requesting)) == Some(Candidates(store, name)[i])
  {
  }

  /** Otherwise the candidate sharing the most leading path parts wins, the earliest on a tie. */
  lemma ResolvePrefersLongestCommonPrefix(store: Store, name: string, requesting: Path)
    requires |Candidates(store, name)| >= 2
    requires forall j :: 0 <= j < |Candidates(store, name)| ==>
               !SameDirectory(Candidates(store, name)[j].filePath, requesting)
    requires exists j :: 0 <= j < |Candidates(store, name)| && Score(Candidates(store, name)[j], Parts(requesting)) > 0
    ensures exists k :: EarliestLongest(Candidates(store, name), ProximityTo(requesting), k)
              && Resolve(store, name, Some(requesting)) == Some(Candidates(store, name)[k])
  {
    var cands := Candidates(store, name);
    assert FirstIndex(cands, (c: Profile) => SameDirectory(c.filePath, requesting)).None?;
    var j :| 0 <= j < |cands| && Score(cands[j], Parts(requesting)) > 0;
    assert ProximityTo(requesting)(cands[j]) > 0;
    var k := BestMatch(cands, ProximityTo(requesting)).value;
    assert Closest(cands, requesting) == Some(cands[k]);
  }

  /** With several candidates and nothing decided by proximity, the first library candidate wins,
      and failing that the first candidate in store order. */
  lemma ResolveFallsBackToLibraryThenFirst(store: Store, name: string, requesting: Option<Path>)
    requires |Candidates(store, name)| >= 2
    requires requesting.Some? ==>
      forall j :: 0 <= j < |Candidates(store, name)| ==>
        !SameDirectory(Candidates(store, name)[j].filePath, requesting.value)
        && Score(Candidates(store, name)[j], Parts(requesting.value)) == 0
    ensures var cands := Candidates(store, name);
      Resolve(store, name, requesting) ==
        if FirstInLibrary(cands).Some? then FirstInLibrary(cands) else Some(cands[0])
  {
    var cands := Candidates(store, name);
    if requesting.Some? {
      ClosestFallsBackToLibrary(cands, requesting.value);
    }
  }

  /** With no candidate in the requesting file's directory and none sharing a leading part, the
      closest is the first library candidate, if any. */
  lemma ClosestFallsBackToLibrary(cands: seq<Profile>, requesting: Path)
    requires forall j :: 0 <= j < |cands| ==>
      !SameDirectory(cands[j].filePath, requesting) && Score(cands[j], Parts(requesting)) == 0
    ensures Closest(cands, requesting) == FirstInLibrary(cands)
  {
    assert FirstIndex(cands, (c: Profile) => SameDirectory(c.filePath, requesting)).None?;
    assert BestMatch(cands, ProximityTo(requesting)).None?;
  }

  /** Absolute paths all share the root part, so for an absolute requesting file and absolute
      candidates the library preference is never reached: proximity decides. */
  lemma AbsoluteRequesterDecidedByProximity(store: Store, name: string, requesting: Path)
    requires |Candidates(store, name)| >= 2
    requires requesting.rooted
    requires forall j :: 0 <= j < |Candidates(store, name)| ==> Candidates(store, name)[j].filePath.rooted
    ensures Closest(Candidates(store, name), requesting).Some?
    ensures Resolve(store, name, Some(requesting)) == Closest(Candidates(store, name), requesting)
  {
    var cands := Candidates(store, name);
    assert Score(cands[0], Parts(requesting)) > 0 by {
      assert Parts(requesting)[0] == "/" == Parts(cands[0].filePath)[0];
    }
  }

  // ---- The inheritance chain ----

  /** Every display name in the store. */
  function Names(store: Store): set<string> {
    set i | 0 <= i < |store| :: store[i].value.name
  }

  /** A resolved name is a stored display name. */
  lemma ResolveKeepsName(store: Store, name: string, requesting: Option<Path>)
    requires Resolve(store, name, requesting).Some?
    ensures Resolve(store, name, requesting).value.name == name
  {
    ResolveFindsACandidate(store, name, requesting);
  }

  lemma ResolvedNameIsStored(store: Store, name: string, requesting: Option<Path>)
    requires Resolve(store, name, requesting).Some?
    ensures name in Names(store)
  {
    ResolveFindsACandidate(store, name, requesting);
    var p := Resolve(store, name, requesting).value;
    var i :| 0 <= i < |Values(store)| && Values(store)[i] == p;
    assert store[i].value.name == name;
  }

  /** `get_profile` as the chain walk uses it. */
  function ResolverOf(store: Store): Resolver {
    (n: string, r: Option<Path>) => Resolve(store, n, r)
  }

  /** The explorer's resolver finds only stored profiles, under their own names. */
  lemma ResolverOfFits(store: Store)
    ensures FindsOnlyIn(ResolverOf(store), Names(store))
    ensures FindsAmong(ResolverOf(store), Values(store))
    ensures KeepsName(ResolverOf(store))
  {
    forall n, r | ResolverOf(store)(n, r).Some?
      ensures n in Names(store)
      ensures ResolverOf(store)(n, r).value in Values(store) && ResolverOf(store)(n, r).value.name == n
    {
      ResolvedNameIsStored(store, n, r);
      ResolveFindsACandidate(store, n, r);
    }
  }

  /** `get_profile_inheritance_chain(name)`: the profile, its parent, and so on up to the root,
      every parent resolved next to the profile naming it. */
  function Chain(store: Store, name: string): seq<Profile> {
    ResolverOfFits(store);
    Walk(ResolverOf(store), Names(store), name, None, {})
  }

  /** The chain starts at `get_profile(name)` and is empty exactly when the name is empty or has
      no stored candidate; all its elements are stored, each names the next as its parent, and
      no name occurs twice. */
  lemma ChainShape(store: Store, name: string)
    ensures var c := Chain(store, name);
      && (c == [] <==> name == "" || |Candidates(store, name)| == 0)
      && (c != [] ==> c[0] == Resolve(store, name, None).value)
      && (forall i :: 0 <= i < |c| ==> c[i] in Values(store))
      && Linked(c)
      && Distinct(NamesOf(c))
  {
    ResolverOfFits(store);
    ResolveFindsACandidate(store, name, None);
    var resolve := ResolverOf(store);
    WalkStart(resolve, Names(store), name);
    WalkStored(resolve, Names(store), Values(store), name, None, {});
    WalkLinked(resolve, Names(store), name, None, {});
    WalkDistinct(resolve, Names(store), name, None, {});
  }

  /** Every hop after the first resolves the parent name with the previous element's file as the
      requesting path, so a duplicate-named parent is chosen by closeness to its child. */
  lemma ChainHopsUsePreviousPath(store: Store, name: string, i: nat)
    requires 0 < i < |Chain(store, name)|
    ensures var c := Chain(store, name);
      c[i - 1].inherits.Some? && Resolve(store, c[i - 1].inherits.value, Some(c[i - 1].filePath)) == Some(c[i])
  {
    ResolverOfFits(store);
    WalkHopsUsePreviousPath(ResolverOf(store), Names(store), name, None, {}, i);
  }

  /** The chain ends at a profile with no parent name, at a parent name already in the chain, or
      at a dangling parent name that no stored profile carries. */
  lemma ChainEnd(store: Store, name: string)
    requires Chain(store, name) != []
    ensures var c := Chain(store, name);
      var next := NextName(c[|c| - 1]);
      next == "" || (exists m :: 0 <= m < |c| && c[m].name == next) || |Candidates(store, next)| == 0
  {
    ResolverOfFits(store);
    WalkEnd(ResolverOf(store), Names(store), name, None, {});
    var c := Chain(store, name);
    ResolveFindsACandidate(store, NextName(c[|c| - 1]), Some(c[|c| - 1].filePath));
  }

  // ---- Loading ----

  /** The key a profile loaded from `path` gets when its name was seen before: the name followed
      by the file's last two directories in brackets. */
  function SuffixedKey(name: string, path: Path): string {
    name + " [" + DirSuffix(path) + "]"
  }

  /** The suffixed key of a file directly inside `dir` names the directory's last two parts. */
  lemma SuffixedKeyInDirectory(name: string, dir: seq<string>, f: string)
    requires |dir| >= 2 && forall i :: 0 <= i < |dir| ==> '/' !in dir[i]
    requires '/' !in f
    ensures SuffixedKey(name, Path(true, dir + [f])) == name + " [" + dir[|dir| - 2] + "/" + dir[|dir| - 1] + "]"
  {
    DirSuffixIsLastTwoDirectories(Path(true, dir + [f]));
  }

  /** `self.profiles` together with `self.profile_name_to_file_paths`, the files seen so far for
      each display name. */
  datatype Loaded = Loaded(profiles: Store, nameToPaths: map<string, seq<Path>>)

  /** `_load_profile` on a document already read from `path`. A document the record cannot be
      built from is skipped. Otherwise the path is added to the name's list, and the profile is
      stored under its bare name when the path is the first of that name and under the suffixed
      key when it is not. */
  function Load(s: Loaded, path: Path, doc: Document): Loaded {
    match Parse(doc, path)
    case None => s
    case Some(p) =>
      var paths := (if p.name in s.nameToPaths then s.nameToPaths[p.name] else []) + [path];
      var key := if |paths| > 1 then SuffixedKey(p.name, path) else p.name;
      Loaded(Assign(s.profiles, key, p), s.nameToPaths[p.name := paths])
  }

  /** What loading keeps true: keys are distinct; every name's path list is non-empty; every stored
      profile's file is listed under its name; a profile under its bare name came from the first
      file of that name, and any other one sits under its suffixed key. */
  predicate Consistent(s: Loaded) {
    && KeysDistinct(s.profiles)
    && (forall n :: n in s.nameToPaths ==> |s.nameToPaths[n]| >= 1)
    && forall i :: 0 <= i < |s.profiles| ==>
         var e := s.profiles[i];
         && e.value.name in s.nameToPaths
         && e.value.filePath in s.nameToPaths[e.value.name]
         && (e.key == e.value.name ==> e.value.filePath == s.nameToPaths[e.value.name][0])
         && (e.key != e.value.name ==> e.key == SuffixedKey(e.value.name, e.value.filePath))
  }

  /** A load keeps the store consistent. A skipped document changes nothing. Otherwise the new
      profile is found under its bare name when the name is new and under its suffixed key when
      it is not, every other key keeps its profile, and the path is appended to the name's list. */
  lemma LoadSpec(s: Loaded, path: Path, doc: Document)
    requires Consistent(s)
    ensures Consistent(Load(s, path, doc))
    ensures Parse(doc, path).None? ==> Load(s, path, doc) == s
    ensures Parse(doc, path).Some? ==>
      var p := Parse(doc, path).value;
      var t := Load(s, path, doc);
      var key := if p.name in s.nameToPaths then SuffixedKey(p.name, path) else p.name;
      && Get(t.profiles, key) == Some(p)
      && (forall k :: k != key ==> Get(t.profiles, k) == Get(s.profiles, k))
      && p.name in t.nameToPaths
      && t.nameToPaths[p.name] == (if p.name in s.nameToPaths then s.nameToPaths[p.name] else []) + [path]
      && (forall n :: n != p.name ==> (n in t.nameToPaths <==> n in s.nameToPaths))
      && (forall n :: n != p.name && n in s.nameToPaths ==> t.nameToPaths[n] == s.nameToPaths[n])
  {
    if Parse(doc, path).Some? {
      var p := Parse(doc, path).value;
      var paths := (if p.name in s.nameToPaths then s.nameToPaths[p.name] else []) + [path];
      var key := if |paths| > 1 then SuffixedKey(p.name, path) else p.name;
      assert key == if p.name in s.nameToPaths then SuffixedKey(p.name, path) else p.name;
      AssignSpec(s.profiles, key, p);
      var t := Load(s, path, doc);
      assert t.profiles == Assign(s.profiles, key, p);
      forall i | 0 <= i < |t.profiles|
        ensures var e := t.profiles[i];
          && e.value.name in t.nameToPaths
          && e.value.filePath in t.nameToPaths[e.value.name]
          && (e.key == e.value.name ==> e.value.filePath == t.nameToPaths[e.value.name][0])
          && (e.key != e.value.name ==> e.key == SuffixedKey(e.value.name, e.value.filePath))
      {
        LoadEntry(s, key, p, paths, i);
      }
    }
  }

  /** One entry of the store after a load, for `LoadSpec`. */
  lemma LoadEntry(s: Loaded, key: string, p: Profile, paths: seq<Path>, i: nat)
    requires Consistent(s)
    requires paths == (if p.name in s.nameToPaths then s.nameToPaths[p.name] else []) + [p.filePath]
    requires key == if |paths| > 1 then SuffixedKey(p.name, p.filePath) else p.name
    requires i < |Assign(s.profiles, key, p)|
    ensures var t := Loaded(Assign(s.profiles, key, p), s.nameToPaths[p.name := paths]);
      var e := t.profiles[i];
      && e.value.name in t.nameToPaths
      && e.value.filePath in t.nameToPaths[e.value.name]
      && (e.key == e.value.name ==> e.value.filePath == t.nameToPaths[e.value.name][0])
      && (e.key != e.value.name ==> e.key == SuffixedKey(e.value.name, e.value.filePath))
  {
    var r := Assign(s.profiles, key, p);
    match IndexOf(s.profiles, key)
    case Some(j) =>
      if i != j {
        assert r[i] == s.profiles[i];
      }
    case None =>
      if i < |s.profiles| {
        assert r[i] == s.profiles[i];
      }
  }

  /** `load_all_profiles` over the documents found, in discovery order. */
  function LoadAll(s: Loaded, files: seq<ProfileFile>): Loaded
    decreases |files|
  {
    if files == [] then s
    else
      var last := files[|files| - 1];
      var before := LoadAll(s, files[..|files| - 1]);
      match last.document
      case None => before
      case Some(doc) => Load(before, last.path, doc)
  }

  /** The consistency part of `LoadSpec` alone. */
  lemma LoadKeepsConsistent(s: Loaded, path: Path, doc: Document)
    requires Consistent(s)
    ensures Consistent(Load(s, path, doc))
  {
    LoadSpec(s, path, doc);
  }

  /** In a consistent store, what `get_profile` finds comes from one of the files recorded for the
      name it was asked for. */
  lemma ResolvedFileIsListed(s: Loaded, name: string, requesting: Option<Path>)
    requires Consistent(s)
    ensures var r := Resolve(s.profiles, name, requesting);
      r.Some? ==> name in s.nameToPaths && r.value.filePath in s.nameToPaths[name]
  {
    var r := Resolve(s.profiles, name, requesting);
    if r.Some? {
      ResolveFindsACandidate(s.profiles, name, requesting);
      var i :| 0 <= i < |Values(s.profiles)| && Values(s.profiles)[i] == r.value;
      assert s.profiles[i].value == r.value;
    }
  }

  /** Loading any list of files into a consistent store leaves it consistent. */
  lemma {:induction false} LoadAllConsistent(s: Loaded, files: seq<ProfileFile>)
    requires Consistent(s)
    ensures Consistent(LoadAll(s, files))
    decreases |files|
  {
    if files != [] {
      LoadAllConsistent(s, files[..|files| - 1]);
      var before := LoadAll(s, files[..|files| - 1]);
      if files[|files| - 1].document.Some? {
        LoadSpec(before, files[|files| - 1].path, files[|files| - 1].document.value);
      }
    }
  }

  /** Loading the first document of a name stores it under the bare name. */
  lemma LoadNewName(s: Loaded, path: Path, doc: Document)
    requires Parse(doc, path).Some? && Parse(doc, path).value.name !in s.nameToPaths
    ensures var p := Parse(doc, path).value;
      Load(s, path, doc) == Loaded(Assign(s.profiles, p.name, p), s.nameToPaths[p.name := [path]])
  {
    var p := Parse(doc, path).value;
    assert [] + [path] == [path];
  }

  /** Loading a later document of a name stores it under the suffixed key. */
  lemma LoadSeenName(s: Loaded, path: Path, doc: Document)
    requires Parse(doc, path).Some?
    requires var n := Parse(doc, path).value.name; n in s.nameToPaths && |s.nameToPaths[n]| >= 1
    ensures var p := Parse(doc, path).value;
      Load(s, path, doc)
        == Loaded(Assign(s.profiles, SuffixedKey(p.name, path), p),
                  s.nameToPaths[p.name := s.nameToPaths[p.name] + [path]])
  {
  }

  /** The state after two same-named files from one directory were loaded into an empty store. */
  lemma LoadTwoFromOneDirectory(doc: Document, dir: seq<string>, a: string, b: string)
    requires NameOf(doc).Some? && OriginReadable(doc)
    requires |dir| >= 2 && forall i :: 0 <= i < |dir| ==> '/' !in dir[i]
    requires '/' !in b
    ensures var x, y := Path(true, dir + [a]), Path(true, dir + [b]);
      var name := NameOf(doc).value;
      var key := name + " [" + dir[|dir| - 2] + "/" + dir[|dir| - 1] + "]";
      var s2 := Load(Load(Loaded([], map[]), x, doc), y, doc);
      && key != name
      && s2.profiles == [Entry(name, Parse(doc, x).value), Entry(key, Parse(doc, y).value)]
      && name in s2.nameToPaths && |s2.nameToPaths[name]| == 2
  {
    var x, y := Path(true, dir + [a]), Path(true, dir + [b]);
    var name := NameOf(doc).value;
    var key := name + " [" + dir[|dir| - 2] + "/" + dir[|dir| - 1] + "]";
    SuffixedKeyInDirectory(name, dir, b);
    var s0 := Loaded([], map[]);
    var s1 := Load(s0, x, doc);
    LoadNewName(s0, x, doc);
    assert s1.profiles == [Entry(name, Parse(doc, x).value)] && s1.nameToPaths == map[name := [x]];
    LoadSeenName(s1, y, doc);
    assert IndexOf(s1.profiles, key) == None;
  }

  /** The store after a third same-named file from the same directory was loaded. */
  lemma LoadThreeFromOneDirectory(doc: Document, dir: seq<string>, a: string, b: string, c: string)
    requires NameOf(doc).Some? && OriginReadable(doc)
    requires |dir| >= 2 && forall i :: 0 <= i < |dir| ==> '/' !in dir[i]
    requires '/' !in b && '/' !in c
    ensures var x, y, z := Path(true, dir + [a]), Path(true, dir + [b]), Path(true, dir + [c]);
      var name := NameOf(doc).value;
      var key := name + " [" + dir[|dir| - 2] + "/" + dir[|dir| - 1] + "]";
      && key != name
      && Load(Load(Load(Loaded([], map[]), x, doc), y, doc), z, doc).profiles
           == [Entry(name, Parse(doc, x).value), Entry(key, Parse(doc, z).value)]
  {
    var x, y, z := Path(true, dir + [a]), Path(true, dir + [b]), Path(true, dir + [c]);
    var name := NameOf(doc).value;
    var key := name + " [" + dir[|dir| - 2] + "/" + dir[|dir| - 1] + "]";
    SuffixedKeyInDirectory(name, dir, c);
    LoadTwoFromOneDirectory(doc, dir, a, b);
    var s2 := Load(Load(Loaded([], map[]), x, doc), y, doc);
    LoadSeenName(s2, z, doc);
    assert IndexOf(s2.profiles, key) == Some(1) by {
      assert s2.profiles[0].key != key;
    }
  }

  /** Two entries under different keys: each key finds its own profile, and a third profile is
      not stored. */
  lemma TwoEntryStore(k0: string, v0: Profile, k1: string, v1: Profile, other: Profile)
    requires k0 != k1 && other != v0 && other != v1
    ensures var r := [Entry(k0, v0), Entry(k1, v1)];
      Get(r, k0) == Some(v0) && Get(r, k1) == Some(v1) && other !in Values(r)
  {
    var r := [Entry(k0, v0), Entry(k1, v1)];
    assert Values(r) == [v0, v1];
    assert IndexOf(r, k1) == Some(1) by {
      assert r[0].key != k1;
    }
  }

  /** Three same-named files in one directory: the second and the third both get the key made of
      the name and the directory's last two parts, so the third replaces the second in place and
      only two of the three profiles remain in the store. */
  lemma SameDirectoryDuplicatesCollide(doc: Document, dir: seq<string>, a: string, b: string, c: string)
    requires NameOf(doc).Some? && OriginReadable(doc)
    requires |dir| >= 2 && forall i :: 0 <= i < |dir| ==> '/' !in dir[i]
    requires '/' !in b && '/' !in c && a != b && b != c
    ensures var x, y, z := Path(true, dir + [a]), Path(true, dir + [b]), Path(true, dir + [c]);
      var t := Load(Load(Load(Loaded([], map[]), x, doc), y, doc), z, doc);
      var name := NameOf(doc).value;
      && |t.profiles| == 2
      && Get(t.profiles, name) == Parse(doc, x)
      && Get(t.profiles, name + " [" + dir[|dir| - 2] + "/" + dir[|dir| - 1] + "]") == Parse(doc, z)
      && Parse(doc, y).value !in Values(t.profiles)
  {
    var x, y, z := Path(true, dir + [a]), Path(true, dir + [b]), Path(true, dir + [c]);
    var name := NameOf(doc).value;
    var key := name + " [" + dir[|dir| - 2] + "/" + dir[|dir| - 1] + "]";
    LoadThreeFromOneDirectory(doc, dir, a, b, c);
    assert x != y && y != z by {
      assert x.segments[|dir|] == a && y.segments[|dir|] == b && z.segments[|dir|] == c;
    }
    TwoEntryStore(name, Parse(doc, x).value, key, Parse(doc, z).value, Parse(doc, y).value);
  }
}
