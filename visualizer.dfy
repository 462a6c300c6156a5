/** The older profile visualizer's analyzer: a store keyed by the profile's own name, where a later
    file declaring a name already stored replaces the earlier profile, and the inheritance chain
    resolves every name by an exact lookup. */
module Visualizer {
  import opened Json
  import opened Paths
  import opened Profiles
  import opened Seqs
  import opened Dict
  import opened Inheritance
  import opened Chains

  // ---- Loading ----

  /** `_load_profile` on a document read from `path`: the profile goes to `self.profiles[name]`. */
  function Load(store: Store, path: Path, doc: Document): Store {
    match Parse(doc, path)
    case None => store
    case Some(p) => Assign(store, p.name, p)
  }

  /** `load_all_profiles` over the documents found, in discovery order. */
  function LoadAll(store: Store, files: seq<ProfileFile>): Store
    decreases |files|
  {
    if files == [] then store
    else
      var last := files[|files| - 1];
      var before := LoadAll(store, files[..|files| - 1]);
      match last.document
      case None => before
      case Some(doc) => Load(before, last.path, doc)
  }

  /** What a file contributes: its profile, when it was read and parsed and `_load_profile`
      keeps it. */
  function Parsed(f: ProfileFile): Option<Profile> {
    match f.document
    case None => None
    case Some(doc) => Parse(doc, f.path)
  }

  /** Every profile sits under its own name, and no key occurs twice. */
  predicate KeyedByName(store: Store) {
    && KeysDistinct(store)
    && forall i :: 0 <= i < |store| ==> store[i].key == store[i].value.name
  }

  /** Loading keeps the store keyed by name. The new profile is found under its name and every
      other name finds what it found before. A name already stored keeps its place, the new
      profile replacing the old one; a new name is appended. */
  lemma LoadSpec(store: Store, path: Path, doc: Document)
    requires KeyedByName(store)
    ensures KeyedByName(Load(store, path, doc))
    ensures Parse(doc, path).None? ==> Load(store, path, doc) == store
    ensures Parse(doc, path).Some? ==>
      var p := Parse(doc, path).value;
      var r := Load(store, path, doc);
      && Get(r, p.name) == Some(p)
      && (forall n :: n != p.name ==> Get(r, n) == Get(store, n))
      && (HasKey(store, p.name) ==> |r| == |store| && forall i :: 0 <= i < |store| ==> r[i].key == store[i].key)
      && (!HasKey(store, p.name) ==> r == store + [Entry(p.name, p)])
  {
    if Parse(doc, path).Some? {
      var p := Parse(doc, path).value;
      AssignSpec(store, p.name, p);
      var r := Assign(store, p.name, p);
      forall i | 0 <= i < |r| ensures r[i].key == r[i].value.name {
        match IndexOf(store, p.name)
        case Some(j) =>
          if i != j {
            assert r[i] == store[i];
          }
        case None =>
          if i < |store| {
            assert r[i] == store[i];
          }
      }
    }
  }

  /** Loading any list of files keeps the store keyed by name. */
  lemma {:induction false} LoadAllKeyedByName(store: Store, files: seq<ProfileFile>)
    requires KeyedByName(store)
    ensures KeyedByName(LoadAll(store, files))
    decreases |files|
  {
    if files != [] {
      LoadAllKeyedByName(store, files[..|files| - 1]);
      var before := LoadAll(store, files[..|files| - 1]);
      if files[|files| - 1].document.Some? {
        LoadSpec(before, files[|files| - 1].path, files[|files| - 1].document.value);
      }
    }
  }

  /** The last file declaring a name decides what is stored under it: an earlier profile of the
      same name, from whatever directory, is replaced and no longer found. */
  lemma {:induction false} LoadAllLastWins(store: Store, files: seq<ProfileFile>, i: nat)
    requires KeyedByName(store)
    requires i < |files| && Parsed(files[i]).Some?
    requires forall j :: i < j < |files| && Parsed(files[j]).Some? ==>
               Parsed(files[j]).value.name != Parsed(files[i]).value.name
    ensures Get(LoadAll(store, files), Parsed(files[i]).value.name) == Parsed(files[i])
    decreases |files|
  {
    var n := |files| - 1;
    var before := LoadAll(store, files[..n]);
    LoadAllKeyedByName(store, files[..n]);
    if i < n {
      assert files[..n][i] == files[i];
      LoadAllLastWins(store, files[..n], i);
    }
    if files[n].document.Some? {
      LoadSpec(before, files[n].path, files[n].document.value);
    }
  }

  // ---- Lookup ----

  /** The stored names. */
  function Keys(store: Store): set<string> {
    set i | 0 <= i < |store| :: store[i].key
  }

  /** `get_profile(name)` in a store keyed by name: what it finds carries the name and is stored;
      it finds nothing exactly when no stored profile has the name; and whichever stored profile
      has the name is the one found, so there is at most one. */
  lemma GetByName(store: Store, name: string)
    requires KeyedByName(store)
    ensures Get(store, name).Some? ==> Get(store, name).value.name == name && Get(store, name).value in Values(store)
    ensures Get(store, name).None? <==> forall p :: p in Values(store) ==> p.name != name
    ensures forall i :: 0 <= i < |store| && store[i].value.name == name ==> Get(store, name) == Some(store[i].value)
  {
    if Get(store, name).Some? {
      var i :| 0 <= i < |store| && store[i].key == name;
      assert Values(store)[i] == store[i].value;
    } else {
      forall p | p in Values(store) ensures p.name != name {
        var i :| 0 <= i < |store| && Values(store)[i] == p;
        assert store[i].key == p.name;
      }
    }
  }

  /** `get_profile` as the chain walk uses it; the requesting file plays no part. */
  function ResolverOf(store: Store): Resolver {
    (n: string, r: Option<Path>) => Get(store, n)
  }

  /** The visualizer's resolver finds only stored names, and in a store keyed by name only stored
      profiles carrying the name asked for. */
  lemma ResolverOfFits(store: Store)
    ensures FindsOnlyIn(ResolverOf(store), Keys(store))
    ensures KeyedByName(store) ==> FindsAmong(ResolverOf(store), Values(store)) && KeepsName(ResolverOf(store))
  {
    forall n, r | ResolverOf(store)(n, r).Some? ensures n in Keys(store) {
      var i :| 0 <= i < |store| && store[i].key == n;
    }
    if KeyedByName(store) {
      forall n, r | ResolverOf(store)(n, r).Some?
        ensures ResolverOf(store)(n, r).value in Values(store) && ResolverOf(store)(n, r).value.name == n
      {
        GetByName(store, n);
      }
    }
  }

  // ---- The chain ----

  /** `get_profile_inheritance_chain(name)`: the profile, the profile stored under its parent
      name, and so on. */
  function Chain(store: Store, name: string): seq<Profile> {
    ResolverOfFits(store);
    Walk(ResolverOf(store), Keys(store), name, None, {})
  }

  /** The chain starts at `get_profile(name)` and is empty exactly when the name is empty or not
      stored; all its elements are stored, each names the next as its parent, and no name occurs
      twice. */
  lemma ChainShape(store: Store, name: string)
    requires KeyedByName(store)
    ensures var c := Chain(store, name);
      && (c == [] <==> name == "" || !HasKey(store, name))
      && (c != [] ==> c[0] == Get(store, name).value)
      && (forall i :: 0 <= i < |c| ==> c[i] in Values(store))
      && Linked(c)
      && Distinct(NamesOf(c))
  {
    ResolverOfFits(store);
    var resolve := ResolverOf(store);
    WalkStart(resolve, Keys(store), name);
    WalkStored(resolve, Keys(store), Values(store), name, None, {});
    WalkLinked(resolve, Keys(store), name, None, {});
    WalkDistinct(resolve, Keys(store), name, None, {});
  }

  /** Every element after the first is exactly the profile stored under the previous element's
      parent name. */
  lemma ChainFollowsStoredParents(store: Store, name: string, i: nat)
    requires 0 < i < |Chain(store, name)|
    ensures var c := Chain(store, name);
      c[i - 1].inherits.Some? && Get(store, c[i - 1].inherits.value) == Some(c[i])
  {
    ResolverOfFits(store);
    WalkHopsUsePreviousPath(ResolverOf(store), Keys(store), name, None, {}, i);
  }

  /** The chain stops after its last element because that element has no parent name, its parent
      is already in the chain, or no profile of that name is stored. */
  lemma ChainEnd(store: Store, name: string)
    requires KeyedByName(store)
    requires Chain(store, name) != []
    ensures var c := Chain(store, name);
      var next := NextName(c[|c| - 1]);
      next == "" || (exists m :: 0 <= m < |c| && c[m].name == next) || !HasKey(store, next)
  {
    ResolverOfFits(store);
    var resolve := ResolverOf(store);
    var c := Chain(store, name);
    assert c == Walk(resolve, Keys(store), name, None, {});
    WalkEnd(resolve, Keys(store), name, None, {});
    var last := c[|c| - 1];
    assert resolve(NextName(last), Some(last.filePath)) == Get(store, NextName(last));
  }
}
