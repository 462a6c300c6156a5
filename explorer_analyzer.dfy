/** The profile explorer's analyzer object: the two dictionaries it fills while loading and the
    queries it answers from them. Every query is proved to compute the function of the store that
    `Explorer`, `Inheritance`, `Merge` and `Comparison` define and reason about. */
module ExplorerAnalyzer {
  import opened Json
  import opened Paths
  import opened Profiles
  import opened Seqs
  import opened Dict
  import opened Inheritance
  import opened Merge
  import opened Comparison
  import opened Chains
  import opened Explorer

  /** `get_profile(name)` with no requesting file, as the multiple-profile view calls it. */
  function FinderOf(store: Store): string -> Option<Profile> {
    (n: string) => Resolve(store, n, None)
  }

  /** The chain of each name, as the multiple-profile view builds it. */
  function ChainOfIn(store: Store): string -> seq<Profile> {
    (n: string) => Chain(store, n)
  }

  class ProfileAnalyzer {
    /** `self.profiles`: store key to profile, in insertion order. */
    var profiles: Store
    /** `self.profile_name_to_file_paths`: the files seen so far for each display name. */
    var nameToPaths: map<string, seq<Path>>

    function State(): Loaded
      reads this
    {
      Loaded(profiles, nameToPaths)
    }

    predicate Valid()
      reads this
    {
      Consistent(State())
    }

    /** `ProfileAnalyzer(base_path)`: start empty and load every profile file found, in the order
        they were discovered. */
    constructor(files: seq<ProfileFile>)
      ensures State() == LoadAll(Loaded([], map[]), files)
      ensures Valid()
    {
      profiles := [];
      nameToPaths := map[];
      new;
      LoadAllProfiles(files);
    }

    /** `load_all_profiles` once the files are found and read. */
    method LoadAllProfiles(files: seq<ProfileFile>)
      requires Valid()
      modifies this
      ensures State() == LoadAll(old(State()), files)
      ensures Valid()
    {
      for i := 0 to |files|
        invariant State() == LoadAll(old(State()), files[..i])
        invariant Valid()
      {
        assert files[..i + 1][..i] == files[..i];
        match files[i].document
        case Some(doc) => LoadProfile(files[i].path, doc);
        case None =>
      }
      assert files[..|files|] == files;
    }

    /** `_load_profile` on a document already read from `path`. */
    method LoadProfile(path: Path, doc: Document)
      requires Valid()
      modifies this
      ensures State() == Load(old(State()), path, doc)
      ensures Valid()
    {
      ghost var before := State();
      var parsed := Parse(doc, path);
      if parsed.Some? {
        var p := parsed.value;
        if p.name !in nameToPaths {
          nameToPaths := nameToPaths[p.name := []];
        }
        nameToPaths := nameToPaths[p.name := nameToPaths[p.name] + [path]];
        var key := p.name;
        if |nameToPaths[p.name]| > 1 {
          key := SuffixedKey(p.name, path);
        }
        profiles := Assign(profiles, key, p);
      }
      assert State() == Load(before, path, doc);
      LoadKeepsConsistent(before, path, doc);
    }

    /** `get_profile(name, requesting_file_path)`: collect the candidates in store order, then
        decide among several. */
    method GetProfile(name: string, requesting: Option<Path>) returns (r: Option<Profile>)
      ensures r == Resolve(profiles, name, requesting)
      ensures Valid() && r.Some? ==> name in nameToPaths && r.value.filePath in nameToPaths[name]
    {
      if Valid() {
        ResolvedFileIsListed(State(), name, requesting);
      }
      var candidates: seq<Profile> := [];
      for i := 0 to |profiles|
        invariant candidates == Candidates(profiles[..i], name)
      {
        assert Values(profiles[..i + 1])[..i] == Values(profiles[..i]);
        if profiles[i].value.name == name {
          candidates := candidates + [profiles[i].value];
        }
      }
      assert profiles[..|profiles|] == profiles;
      if |candidates| == 0 {
        return None;
      }
      if |candidates| == 1 {
        return Some(candidates[0]);
      }
      if requesting.Some? {
        var closest := FindClosestProfile(candidates, requesting.value);
        if closest.Some? {
          return closest;
        }
      }
      var library := FirstInLibrary(candidates);
      if library.Some? {
        return library;
      }
      return Some(candidates[0]);
    }

    /** `_find_closest_profile`: a scan for the requesting file's directory, then the counting
        scan keeping the first candidate with the longest shared prefix, then the library. */
    static method FindClosestProfile(candidates: seq<Profile>, requesting: Path) returns (r: Option<Profile>)
      ensures r == Closest(candidates, requesting)
    {
      var same := SameDirectoryScan(candidates, requesting);
      if same.Some? {
        return Some(candidates[same.value]);
      }
      var best := LongestPrefixScan(candidates, requesting);
      if best.Some? {
        return Some(candidates[best.value]);
      }
      return FirstInLibrary(candidates);
    }

    /** The first loop of `_find_closest_profile`: the first candidate whose directory is the
        requesting file's. */
    static method SameDirectoryScan(candidates: seq<Profile>, requesting: Path) returns (r: Option<nat>)
      ensures r == FirstIndex(candidates, (c: Profile) => SameDirectory(c.filePath, requesting))
    {
      var requestingDir := Parts(Parent(requesting));
      for i := 0 to |candidates|
        invariant forall j :: 0 <= j < i ==> !SameDirectory(candidates[j].filePath, requesting)
      {
        if Parts(Parent(candidates[i].filePath)) == requestingDir {
          FirstIndexIsFirst(candidates, (c: Profile) => SameDirectory(c.filePath, requesting), i);
          return Some(i);
        }
      }
      return None;
    }

    /** The counting loop of `_find_closest_profile`: a later candidate replaces the best so far
        only with a strictly longer shared prefix. */
    static method LongestPrefixScan(candidates: seq<Profile>, requesting: Path) returns (best: Option<nat>)
      ensures best == BestMatch(candidates, ProximityTo(requesting))
    {
      var requestingParts := Parts(requesting);
      best := None;
      var bestLength := 0;
      for i := 0 to |candidates|
        invariant best == BestMatch(candidates[..i], ProximityTo(requesting))
        invariant best.Some? ==> best.value < i && bestLength == Score(candidates[best.value], requestingParts)
      {
        var commonLength := CountCommonParts(requestingParts, Parts(candidates[i].filePath));
        BestMatchStep(candidates, ProximityTo(requesting), i);
        if commonLength > 0 && (best.None? || commonLength > bestLength) {
          best := Some(i);
          bestLength := commonLength;
        }
      }
      assert candidates[..|candidates|] == candidates;
    }

    /** `get_all_profiles`. */
    function GetAllProfiles(): seq<Profile>
      reads this
    {
      Values(profiles)
    }

    /** `get_profiles_by_type`: the stored profiles of one type, in store order. */
    function GetProfilesByType(profileType: string): (r: seq<Profile>)
      reads this
      ensures forall p :: p in r <==> p in Values(profiles) && p.profileType == Str(profileType)
    {
      Filter(Values(profiles), (p: Profile) => p.profileType == Str(profileType))
    }

    /** `get_profile_inheritance_chain`: the walk with its visited set, each hop resolved with the
        previous profile's file. */
    method GetProfileInheritanceChain(profileName: string) returns (chain: seq<Profile>)
      ensures chain == Chain(profiles, profileName)
    {
      ResolverOfFits(profiles);
      ghost var resolve := ResolverOf(profiles);
      ghost var names := Names(profiles);
      ghost var target := Chain(profiles, profileName);
      assert target == Walk(resolve, names, profileName, None, {});
      chain := [];
      var visited: set<string> := {};
      var currentName := profileName;
      var requesting: Option<Path> := None;
      while currentName != "" && currentName !in visited
        invariant FindsOnlyIn(resolve, names)
        invariant chain + Walk(resolve, names, currentName, requesting, visited) == target
        decreases |names - visited|
      {
        var profile := GetProfile(currentName, requesting);
        assert resolve(currentName, requesting) == profile;
        if profile.None? {
          WalkNotFound(resolve, names, currentName, requesting, visited);
          break;
        }
        WalkFound(resolve, names, currentName, requesting, visited, profile.value, chain);
        chain := chain + [profile.value];
        visited := visited + {currentName};
        requesting := Some(profile.value.filePath);
        currentName := NextName(profile.value);
      }
      WalkStops(resolve, names, currentName, requesting, visited);
      assert chain + [] == chain;
    }

    /** `get_profile_inheritance_chain_with_types`, the same walk. */
    method GetProfileInheritanceChainWithTypes(profileName: string) returns (chain: seq<Profile>)
      ensures chain == Chain(profiles, profileName)
    {
      chain := GetProfileInheritanceChain(profileName);
    }

    /** `get_all_children`. */
    method GetAllChildren(parentName: string) returns (children: seq<Profile>)
      ensures children == ChildrenOf(Values(profiles), parentName)
    {
      children := AllChildren(Values(profiles), parentName);
    }

    /** `get_all_descendants`. */
    method GetAllDescendants(parentName: string) returns (descendants: seq<Profile>)
      ensures Distinct(descendants)
      ensures forall i :: 0 <= i < |descendants| ==> descendants[i] in Values(profiles)
      ensures ParentListedFirst(descendants, parentName)
      ensures ClosedUnderChildren(Values(profiles), parentName, descendants)
    {
      descendants := AllDescendants(Values(profiles), parentName);
    }

    /** `get_profile_settings_comparison`. */
    method GetProfileSettingsComparison(profileName: string) returns (t: Table)
      ensures Compares(Chain(profiles, profileName), t)
    {
      var chain := GetProfileInheritanceChain(profileName);
      t := SettingsComparison(chain);
    }

    /** The values `get_effective_profile_settings` renders: None when the chain is empty (the
        "not found" message), and otherwise every setting of the chain with its effective value. */
    method GetEffectiveProfileSettings(profileName: string) returns (r: Option<map<string, Value>>)
      ensures r.None? <==> Chain(profiles, profileName) == []
      ensures r.Some? ==> r.value == EffectiveMap(Chain(profiles, profileName))
    {
      var chain := GetProfileInheritanceChainWithTypes(profileName);
      if chain == [] {
        return None;
      }
      var effective := EffectiveSettings(chain);
      return Some(effective);
    }

    /** The lookup loop of the multiple-profile view: the profiles found, up to the first name
        that is not found, if any. */
    method FindProfiles(names: seq<string>) returns (found: seq<Profile>, missing: Option<nat>)
      ensures missing.Some? ==>
        && missing.value < |names| && Resolve(profiles, names[missing.value], None).None?
        && forall j :: 0 <= j < missing.value ==> Resolve(profiles, names[j], None).Some?
      ensures missing.None? ==>
        && |found| == |names|
        && forall j :: 0 <= j < |names| ==> Resolve(profiles, names[j], None) == Some(found[j]) && found[j].name == names[j]
    {
      ghost var find := FinderOf(profiles);
      found := [];
      for i := 0 to |names|
        invariant |found| == i
        invariant forall j :: 0 <= j < i ==> find(names[j]) == Some(found[j]) && found[j].name == names[j]
      {
        var profile := GetProfile(names[i], None);
        if profile.None? {
          return found, Some(i);
        }
        ResolveKeepsName(profiles, names[i], None);
        found := found + [profile.value];
      }
      missing := None;
    }

    /** The chain of every profile found, by its name. */
    method ChainsOf(found: seq<Profile>) returns (chains: seq<seq<Profile>>)
      ensures |chains| == |found|
      ensures forall j :: 0 <= j < |found| ==> chains[j] == Chain(profiles, found[j].name)
    {
      chains := [];
      for i := 0 to |found|
        invariant |chains| == i
        invariant forall j :: 0 <= j < i ==> chains[j] == Chain(profiles, found[j].name)
      {
        var chain := GetProfileInheritanceChainWithTypes(found[i].name);
        chains := chains + [chain];
      }
    }

    /** The values `get_effective_profile_settings_multiple` renders, or the reason it gives none.
        Each column uses the leaf-wins merge of the single-profile view. */
    method GetEffectiveProfileSettingsMultiple(names: seq<string>) returns (r: Result<MultipleTable, MultipleError>)
      ensures r == MultipleView(names, FinderOf(profiles), ChainOfIn(profiles))
    {
      ghost var find := FinderOf(profiles);
      ghost var chainOf := ChainOfIn(profiles);
      if names == [] {
        return Failure(NoProfileNames);
      }
      var found, missing := FindProfiles(names);
      if missing.Some? {
        MultipleViewNotFound(names, find, chainOf, missing.value);
        return Failure(ProfileNotFound(names[missing.value]));
      }
      var types := TypesOf(found);
      assert types == set i | 0 <= i < |names| :: find(names[i]).value.profileType;
      MultipleViewFound(names, find, chainOf, types);
      if |types| > 1 {
        return Failure(MixedTypes(types));
      }
      var chains := ChainsOf(found);
      var table := EffectiveSettingsMultiple(names, chains, chainOf);
      r := Success(table);
    }
  }
}
