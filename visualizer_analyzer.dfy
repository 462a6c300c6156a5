/** The visualizer's analyzer object: the one dictionary it fills while loading, keyed by profile
    name, and the queries it answers from it. Every query is proved to compute the function of
    the store that `Visualizer`, `Inheritance`, `Merge` and `Comparison` define and reason about. */
module VisualizerAnalyzer {
  import opened Json
  import opened Paths
  import opened Profiles
  import opened Seqs
  import opened Dict
  import opened Inheritance
  import opened Merge
  import opened Comparison
  import opened Chains
  import opened Visualizer

  /** `get_profile(name)`, as the multiple-profile view calls it. */
  function FinderOf(store: Store): string -> Option<Profile> {
    (n: string) => Get(store, n)
  }

  /** The chain of each name, as the multiple-profile view builds it. */
  function ChainOfIn(store: Store): string -> seq<Profile> {
    (n: string) => Chain(store, n)
  }

  class ProfileAnalyzer {
    /** `self.profiles`: profile name to profile, in insertion order. */
    var profiles: Store

    predicate Valid()
      reads this
    {
      KeyedByName(profiles)
    }

    /** `ProfileAnalyzer(base_path)`: start empty and load every profile file found, in the order
        they were discovered. */
    constructor(files: seq<ProfileFile>)
      ensures profiles == LoadAll([], files)
      ensures Valid()
    {
      profiles := [];
      new;
      LoadAllProfiles(files);
    }

    /** `load_all_profiles` once the files are found and read. */
    method LoadAllProfiles(files: seq<ProfileFile>)
      requires Valid()
      modifies this
      ensures profiles == LoadAll(old(profiles), files)
      ensures Valid()
    {
      for i := 0 to |files|
        invariant profiles == LoadAll(old(profiles), files[..i])
        invariant Valid()
      {
        assert files[..i + 1][..i] == files[..i];
        match files[i].document
        case Some(doc) => LoadProfile(files[i].path, doc);
        case None =>
      }
      assert files[..|files|] == files;
    }

    /** `_load_profile` on a document already read from `path`. */
    method LoadProfile(path: Path, doc: Document)
      requires Valid()
      modifies this
      ensures profiles == Load(old(profiles), path, doc)
      ensures Valid()
    {
      LoadSpec(profiles, path, doc);
      var parsed := Parse(doc, path);
      if parsed.Some? {
        profiles := Assign(profiles, parsed.value.name, parsed.value);
      }
    }

    /** `get_profile(name)`: the profile stored under the name; in a valid analyzer, the stored
        profile carrying that name, if there is one. */
    function GetProfile(name: string): (r: Option<Profile>)
      reads this
      ensures r.Some? <==> HasKey(profiles, name)
      ensures Valid() ==> (r.None? <==> forall p :: p in Values(profiles) ==> p.name != name)
      ensures Valid() && r.Some? ==> r.value.name == name && r.value in Values(profiles)
    {
      if Valid() then
        GetByName(profiles, name);
        Get(profiles, name)
      else
        Get(profiles, name)
    }

    /** `get_all_profiles`. */
    function GetAllProfiles(): seq<Profile>
      reads this
    {
      Values(profiles)
    }

    /** `get_profiles_by_type`: the stored profiles of one type, in store order. */
    function GetProfilesByType(profileType: string): (r: seq<Profile>)
      reads this
      ensures forall p :: p in r <==> p in Values(profiles) && p.profileType == Str(profileType)
    {
      Filter(Values(profiles), (p: Profile) => p.profileType == Str(profileType))
    }

    /** `get_profile_inheritance_chain`: the walk with its visited set, each name looked up as it
        is. */
    method GetProfileInheritanceChain(profileName: string) returns (chain: seq<Profile>)
      ensures chain == Chain(profiles, profileName)
    {
      ResolverOfFits(profiles);
      ghost var resolve := ResolverOf(profiles);
      ghost var names := Keys(profiles);
      ghost var target := Chain(profiles, profileName);
      assert target == Walk(resolve, names, profileName, None, {});
      chain := [];
      var visited: set<string> := {};
      var currentName := profileName;
      ghost var requesting: Option<Path> := None;
      while currentName != "" && currentName !in visited
        invariant FindsOnlyIn(resolve, names)
        invariant chain + Walk(resolve, names, currentName, requesting, visited) == target
        decreases |names - visited|
      {
        var profile := GetProfile(currentName);
        assert resolve(currentName, requesting) == profile;
        if profile.None? {
          WalkNotFound(resolve, names, currentName, requesting, visited);
          break;
        }
        WalkFound(resolve, names, currentName, requesting, visited, profile.value, chain);
        chain := chain + [profile.value];
        visited := visited + {currentName};
        requesting := Some(profile.value.filePath);
        currentName := NextName(profile.value);
      }
      WalkStops(resolve, names, currentName, requesting, visited);
      assert chain + [] == chain;
    }

    /** `get_profile_inheritance_chain_with_types`, the same walk. */
    method GetProfileInheritanceChainWithTypes(profileName: string) returns (chain: seq<Profile>)
      ensures chain == Chain(profiles, profileName)
    {
      chain := GetProfileInheritanceChain(profileName);
    }

    /** `get_all_children`. */
    method GetAllChildren(parentName: string) returns (children: seq<Profile>)
      ensures children == ChildrenOf(Values(profiles), parentName)
    {
      children := AllChildren(Values(profiles), parentName);
    }

    /** `get_all_descendants`. */
    method GetAllDescendants(parentName: string) returns (descendants: seq<Profile>)
      ensures Distinct(descendants)
      ensures forall i :: 0 <= i < |descendants| ==> descendants[i] in Values(profiles)
      ensures ParentListedFirst(descendants, parentName)
      ensures ClosedUnderChildren(Values(profiles), parentName, descendants)
    {
      descendants := AllDescendants(Values(profiles), parentName);
    }

    /** `get_profile_settings_comparison`. */
    method GetProfileSettingsComparison(profileName: string) returns (t: Table)
      ensures Compares(Chain(profiles, profileName), t)
    {
      var chain := GetProfileInheritanceChain(profileName);
      t := SettingsComparison(chain);
    }

    /** The values `get_effective_profile_settings` renders: None when the chain is empty (the
        "not found" message), and otherwise every setting of the chain with its effective value. */
    method GetEffectiveProfileSettings(profileName: string) returns (r: Option<map<string, Value>>)
      ensures r.None? <==> Chain(profiles, profileName) == []
      ensures r.Some? ==> r.value == EffectiveMap(Chain(profiles, profileName))
    {
      var chain := GetProfileInheritanceChainWithTypes(profileName);
      if chain == [] {
        return None;
      }
      var effective := EffectiveSettings(chain);
      return Some(effective);
    }

    /** The lookup loop of the multiple-profile view: the profiles found, up to the first name
        that is not found, if any. */
    method FindProfiles(names: seq<string>) returns (found: seq<Profile>, missing: Option<nat>)
      requires Valid()
      ensures missing.Some? ==>
        && missing.value < |names| && Get(profiles, names[missing.value]).None?
        && forall j :: 0 <= j < missing.value ==> Get(profiles, names[j]).Some?
      ensures missing.None? ==>
        && |found| == |names|
        && forall j :: 0 <= j < |names| ==> Get(profiles, names[j]) == Some(found[j]) && found[j].name == names[j]
    {
      found := [];
      for i := 0 to |names|
        invariant |found| == i
        invariant forall j :: 0 <= j < i ==> Get(profiles, names[j]) == Some(found[j]) && found[j].name == names[j]
      {
        var profile := GetProfile(names[i]);
        if profile.None? {
          return found, Some(i);
        }
        found := found + [profile.value];
      }
      missing := None;
    }

    /** The chain of every profile found, by its name. */
    method ChainsOf(found: seq<Profile>) returns (chains: seq<seq<Profile>>)
      ensures |chains| == |found|
      ensures forall j :: 0 <= j < |found| ==> chains[j] == Chain(profiles, found[j].name)
    {
      chains := [];
      for i := 0 to |found|
        invariant |chains| == i
        invariant forall j :: 0 <= j < i ==> chains[j] == Chain(profiles, found[j].name)
      {
        var chain := GetProfileInheritanceChainWithTypes(found[i].name);
        chains := chains + [chain];
      }
    }

    /** The values `get_effective_profile_settings_multiple` renders, or the reason it gives none.
        Each column uses the leaf-wins merge of the single-profile view. */
    method GetEffectiveProfileSettingsMultiple(names: seq<string>) returns (r: Result<MultipleTable, MultipleError>)
      requires Valid()
      ensures r == MultipleView(names, FinderOf(profiles), ChainOfIn(profiles))
    {
      ghost var find := FinderOf(profiles);
      ghost var chainOf := ChainOfIn(profiles);
      if names == [] {
        return Failure(NoProfileNames);
      }
      var found, missing := FindProfiles(names);
      if missing.Some? {
        MultipleViewNotFound(names, find, chainOf, missing.value);
        return Failure(ProfileNotFound(names[missing.value]));
      }
      var types := TypesOf(found);
      assert types == set i | 0 <= i < |names| :: find(names[i]).value.profileType;
      MultipleViewFound(names, find, chainOf, types);
      if |types| > 1 {
        return Failure(MixedTypes(types));
      }
      var chains := ChainsOf(found);
      var table := EffectiveSettingsMultiple(names, chains, chainOf);
      r := Success(table);
    }
  }
}
