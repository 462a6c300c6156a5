/** The effective-settings view: along an inheritance chain, a setting takes the value of the
    profile nearest the leaf that gives it a meaningful value. */
module Merge {
  import opened Json
  import opened Profiles
  import opened Seqs

  /** "-": shown for a setting that no profile of the chain sets meaningfully. */
  const Unset: Value := Str("-")

  /** A list element that does not count as a value: "", "-" or null. */
  predicate IsPlaceholder(v: Value) {
    v == Str("") || v == Str("-") || v == Null
  }

  /** The test the merge applies before letting a profile's value replace the one found so far:
      not null; a string that is neither blank nor "-"; a list with at least one element that is
      not a placeholder; any other value (numbers, booleans, objects) always counts. */
  predicate IsMeaningful(v: Value) {
    match v
    case Null => false
    case Str(s) => !IsBlank(s) && s != "-"
    case List(items) => |items| > 0 && !(forall i :: 0 <= i < |items| ==> IsPlaceholder(items[i]))
    case _ => true
  }

  /** `p` declares `key` with a meaningful value. */
  predicate SetsMeaningfully(p: Profile, key: string) {
    key in p.settings && IsMeaningful(p.settings[key])
  }

  /** One step of the merge loop: a profile's meaningful value replaces the current one. */
  function Override(current: Value, p: Profile, key: string): Value {
    if SetsMeaningfully(p, key) then p.settings[key] else current
  }

  /** The merge loop run over `ordered` from first to last, starting from "-": the last meaningful
      value in iteration order wins. */
  function Merged(ordered: seq<Profile>, key: string): Value
  {
    if ordered == [] then Unset
    else Override(Merged(ordered[..|ordered| - 1], key), ordered[|ordered| - 1], key)
  }

  /** The value a setting takes for the leaf of `chain` (leaf first, root last): the value of the
      first profile, counting from the leaf, that sets it meaningfully; "-" when none does. */
  function EffectiveValue(chain: seq<Profile>, key: string): Value
  {
    match FirstIndex(chain, p => SetsMeaningfully(p, key))
    case Some(i) => chain[i].settings[key]
    case None => Unset
  }

  /** The effective value is "-" exactly when no profile of the chain sets the key meaningfully,
      and otherwise the value of the profile nearest the leaf that does. */
  lemma EffectiveValueIsNearestSetter(chain: seq<Profile>, key: string)
    ensures var r := EffectiveValue(chain, key);
      && (r == Unset <==> forall i :: 0 <= i < |chain| ==> !SetsMeaningfully(chain[i], key))
      && (r != Unset ==>
            exists i :: (0 <= i < |chain| && SetsMeaningfully(chain[i], key)
                         && r == chain[i].settings[key]
                         && forall j :: 0 <= j < i ==> !SetsMeaningfully(chain[j], key)))
  {
  }

  /** Every setting any profile of the chain declares. */
  function SettingKeys(chain: seq<Profile>): (keys: set<string>)
    ensures forall k :: k in keys <==> exists i :: 0 <= i < |chain| && k in chain[i].settings
  {
    set i, k | 0 <= i < |chain| && k in chain[i].settings :: k
  }

  /** The effective view of a chain's leaf: every declared setting with its effective value. */
  function EffectiveMap(chain: seq<Profile>): (m: map<string, Value>)
    ensures m.Keys == SettingKeys(chain)
  {
    EffectiveValuesOf(chain, SettingKeys(chain))
  }

  /** The effective values of the settings in `keys`. */
  function EffectiveValuesOf(chain: seq<Profile>, keys: set<string>): map<string, Value> {
    map k | k in keys :: EffectiveValue(chain, k)
  }

  function Reversed<T>(s: seq<T>): (r: seq<T>)
    ensures |r| == |s| && forall i :: 0 <= i < |s| ==> r[i] == s[|s| - 1 - i]
  {
    seq(|s|, i requires 0 <= i < |s| => s[|s| - 1 - i])
  }

  /** The set of declared keys, one profile at a time. */
  method CollectSettingKeys(chain: seq<Profile>) returns (keys: set<string>)
    ensures keys == SettingKeys(chain)
  {
    keys := {};
    for i := 0 to |chain|
      invariant keys == SettingKeys(chain[..i])
    {
      assert forall j :: 0 <= j < i ==> chain[..i + 1][j] == chain[..i][j];
      keys := keys + chain[i].settings.Keys;
    }
    assert chain[..|chain|] == chain;
  }

  /** The override loop of `get_effective_profile_settings` for one setting: walk the chain from
      root to leaf, keeping the latest meaningful value. */
  method EffectiveSetting(chain: seq<Profile>, key: string) returns (value: Value)
    ensures value == EffectiveValue(chain, key)
  {
    value := Unset;
    var j := |chain|;
    while j > 0
      invariant 0 <= j <= |chain|
      invariant value == EffectiveValue(chain[j..], key)
    {
      j := j - 1;
      assert chain[j..][1..] == chain[j + 1..];
      if SetsMeaningfully(chain[j], key) {
        value := chain[j].settings[key];
      }
    }
  }

  /** Adding one setting's effective value. */
  lemma EffectiveValuesAddOne(chain: seq<Profile>, keys: set<string>, key: string)
    ensures EffectiveValuesOf(chain, keys + {key}) == EffectiveValuesOf(chain, keys)[key := EffectiveValue(chain, key)]
  {
  }

  /** The merging part of `get_effective_profile_settings`: every setting declared anywhere in the
      chain, each with the value the leaf ends up with. */
  method EffectiveSettings(chain: seq<Profile>) returns (effective: map<string, Value>)
    ensures effective == EffectiveMap(chain)
  {
    var keys := CollectSettingKeys(chain);
    effective := EffectiveValuesLoop(chain, keys);
  }

  /** The loop over the declared settings, one setting at a time. */
  method EffectiveValuesLoop(chain: seq<Profile>, keys: set<string>) returns (effective: map<string, Value>)
    ensures effective == EffectiveValuesOf(chain, keys)
  {
    effective := map[];
    var remaining := keys;
    ghost var done: set<string> := {};
    while remaining != {}
      invariant remaining <= keys && done == keys - remaining
      invariant effective == EffectiveValuesOf(chain, done)
      decreases |remaining|
    {
      var key :| key in remaining;
      var value := EffectiveSetting(chain, key);
      EffectiveValuesAddOne(chain, done, key);
      effective := effective[key := value];
      done := done + {key};
      remaining := remaining - {key};
    }
  }

  /** The merge loop of `get_effective_profile_settings_multiple`, as written: it walks the chain
      from the leaf to the root, so the meaningful value nearest the ROOT wins. */
  method MultipleMergeAsWritten(chain: seq<Profile>, key: string) returns (value: Value)
    ensures value == Merged(chain, key)
  {
    value := Unset;
    for i := 0 to |chain|
      invariant value == Merged(chain[..i], key)
    {
      assert chain[..i + 1][..i] == chain[..i];
      if SetsMeaningfully(chain[i], key) {
        value := chain[i].settings[key];
      }
    }
    assert chain[..|chain|] == chain;
  }

  // ---- Properties ----

  /** Running the merge loop from the root to the leaf yields the effective value. */
  lemma {:induction false} MergeRootToLeafIsEffective(chain: seq<Profile>, key: string)
    ensures Merged(Reversed(chain), key) == EffectiveValue(chain, key)
  {
    if chain != [] {
      var rev := Reversed(chain);
      assert rev[..|rev| - 1] == Reversed(chain[1..]);
      MergeRootToLeafIsEffective(chain[1..], key);
      if !SetsMeaningfully(chain[0], key) {
        EffectiveValueIsNearestSetter(chain, key);
        EffectiveValueIsNearestSetter(chain[1..], key);
        var e := EffectiveValue(chain[1..], key);
        if e != Unset {
          var i :| 0 <= i < |chain[1..]| && SetsMeaningfully(chain[1..][i], key)
                   && e == chain[1..][i].settings[key]
                   && forall j :: 0 <= j < i ==> !SetsMeaningfully(chain[1..][j], key);
          assert chain[i + 1] == chain[1..][i];
        }
      }
    }
  }

  /** So the as-written multiple-profile merge gives the value nearest the root of the chain. */
  lemma MultipleMergeAsWrittenFavoursRoot(chain: seq<Profile>, key: string)
    ensures Merged(chain, key) == EffectiveValue(Reversed(chain), key)
  {
    MergeRootToLeafIsEffective(Reversed(chain), key);
    assert Reversed(Reversed(chain)) == chain;
  }

  /** A profile that leaves a setting unset, blank or "-" shows the value it inherits. */
  lemma {:induction false} UnsetOverrideInherits(chain: seq<Profile>, key: string)
    requires |chain| >= 1 && !SetsMeaningfully(chain[0], key)
    ensures EffectiveValue(chain, key) == EffectiveValue(chain[1..], key)
  {
    EffectiveValueIsNearestSetter(chain, key);
    EffectiveValueIsNearestSetter(chain[1..], key);
    var e := EffectiveValue(chain[1..], key);
    if e != Unset {
      var i :| 0 <= i < |chain[1..]| && SetsMeaningfully(chain[1..][i], key)
               && e == chain[1..][i].settings[key]
               && forall j :: 0 <= j < i ==> !SetsMeaningfully(chain[1..][j], key);
      assert chain[i + 1] == chain[1..][i];
    } else {
      assert forall i :: 1 <= i < |chain| ==> chain[i] == chain[1..][i - 1];
    }
  }

  /** A profile that declares every setting meaningfully is its own effective view. */
  lemma FullyDeclaredLeafIsItsOwnView(chain: seq<Profile>)
    requires |chain| >= 1
    requires forall k :: k in SettingKeys(chain) ==> SetsMeaningfully(chain[0], k)
    ensures EffectiveMap(chain) == chain[0].settings
  {
    assert SettingKeys(chain) == chain[0].settings.Keys;
  }

  /** The discrepancy, on a two-profile chain: a leaf at 220 over a base at 200. The single-profile
      view shows 220; the as-written multiple-profile view shows the base's 200. */
  lemma MultipleMergeAsWrittenShowsBaseValue()
    ensures var base := Profile("Base PLA", None, Paths.Path(false, ["base.json"]), true,
                                map["nozzle_temperature" := Int(200)], Str("filament"));
            var leaf := Profile("Leaf PLA", Some("Base PLA"), Paths.Path(false, ["leaf.json"]), false,
                                map["nozzle_temperature" := Int(220)], Str("filament"));
            && EffectiveValue([leaf, base], "nozzle_temperature") == Int(220)
            && Merged([leaf, base], "nozzle_temperature") == Int(200)
  {
    var base := Profile("Base PLA", None, Paths.Path(false, ["base.json"]), true,
                        map["nozzle_temperature" := Int(200)], Str("filament"));
    var leaf := Profile("Leaf PLA", Some("Base PLA"), Paths.Path(false, ["leaf.json"]), false,
                        map["nozzle_temperature" := Int(220)], Str("filament"));
    assert [leaf, base][..1] == [leaf];
    assert [leaf][..0] == [];
  }

  // ---- Several profiles side by side ----

  /** Why the multiple-profile view gives no table: no names, a name nothing is found for, or
      profiles of more than one type (with the set of types found). */
  datatype MultipleError = NoProfileNames | ProfileNotFound(name: string) | MixedTypes(types: set<Value>)

  /** Setting name, then requested profile name, to the effective value. */
  type MultipleTable = map<string, map<string, Value>>

  /** Every setting declared anywhere in the chains of the requested profiles. */
  function AllSettingKeys(names: seq<string>, chainOf: string -> seq<Profile>): (keys: set<string>)
    ensures forall k :: k in keys <==> exists i :: 0 <= i < |names| && k in SettingKeys(chainOf(names[i]))
  {
    set i, k | 0 <= i < |names| && k in SettingKeys(chainOf(names[i])) :: k
  }

  /** One row of the multiple-profile view: each requested profile's effective value of `key`. */
  function EffectiveRow(names: seq<string>, chainOf: string -> seq<Profile>, key: string): map<string, Value> {
    map n | n in names :: EffectiveValue(chainOf(n), key)
  }

  /** `get_effective_profile_settings_multiple` before rendering: look every name up (`find`),
      check the types agree, then give every setting of every chain (`chainOf`) a row. */
  function MultipleView(names: seq<string>, find: string -> Option<Profile>, chainOf: string -> seq<Profile>)
    : Result<MultipleTable, MultipleError>
  {
    if names == [] then Failure(NoProfileNames)
    else match FirstIndex(names, n => find(n).None?)
      case Some(i) => Failure(ProfileNotFound(names[i]))
      case None =>
        var types := set i | 0 <= i < |names| :: find(names[i]).value.profileType;
        if |types| > 1 then Failure(MixedTypes(types))
        else Success(RowsFor(AllSettingKeys(names, chainOf), names, chainOf))
  }

  /** The inner loop of the view for one setting, over the requested profiles and their chains. */
  method EffectiveRowOf(names: seq<string>, chains: seq<seq<Profile>>, ghost chainOf: string -> seq<Profile>,
                        key: string) returns (row: map<string, Value>)
    requires |chains| == |names| && forall i :: 0 <= i < |names| ==> chains[i] == chainOf(names[i])
    ensures row == EffectiveRow(names, chainOf, key)
  {
    row := map[];
    for i := 0 to |names|
      invariant row == EffectiveRow(names[..i], chainOf, key)
    {
      var value := EffectiveSetting(chains[i], key);
      assert forall n :: n in names[..i + 1] <==> n in names[..i] || n == names[i];
      row := row[names[i] := value];
    }
    assert names[..|names|] == names;
  }

  /** Extending the requested names by one adds that chain's settings. */
  lemma AllSettingKeysAddOne(names: seq<string>, chainOf: string -> seq<Profile>, i: nat)
    requires i < |names|
    ensures AllSettingKeys(names[..i + 1], chainOf) == AllSettingKeys(names[..i], chainOf) + SettingKeys(chainOf(names[i]))
  {
    var before, after := AllSettingKeys(names[..i], chainOf), AllSettingKeys(names[..i + 1], chainOf);
    forall k | k in after ensures k in before + SettingKeys(chainOf(names[i])) {
      var j :| 0 <= j < i + 1 && k in SettingKeys(chainOf(names[..i + 1][j]));
      if j < i {
        assert names[..i][j] == names[..i + 1][j];
      }
    }
    forall k | k in before ensures k in after {
      var j :| 0 <= j < i && k in SettingKeys(chainOf(names[..i][j]));
      assert names[..i + 1][j] == names[..i][j];
    }
    assert names[..i + 1][i] == names[i];
  }

  /** The settings of every chain, one chain at a time. */
  method CollectAllSettingKeys(names: seq<string>, chains: seq<seq<Profile>>, ghost chainOf: string -> seq<Profile>)
    returns (keys: set<string>)
    requires |chains| == |names| && forall i :: 0 <= i < |names| ==> chains[i] == chainOf(names[i])
    ensures keys == AllSettingKeys(names, chainOf)
  {
    keys := {};
    for i := 0 to |names|
      invariant keys == AllSettingKeys(names[..i], chainOf)
    {
      var chainKeys := CollectSettingKeys(chains[i]);
      AllSettingKeysAddOne(names, chainOf, i);
      keys := keys + chainKeys;
    }
    assert names[..|names|] == names;
  }

  /** The rows of the view for the settings in `keys`. */
  function RowsFor(keys: set<string>, names: seq<string>, chainOf: string -> seq<Profile>): MultipleTable {
    map k | k in keys :: EffectiveRow(names, chainOf, k)
  }

  /** Adding one setting's row. */
  lemma RowsForAddOne(keys: set<string>, key: string, names: seq<string>, chainOf: string -> seq<Profile>)
    ensures RowsFor(keys + {key}, names, chainOf) == RowsFor(keys, names, chainOf)[key := EffectiveRow(names, chainOf, key)]
  {
  }

  /** The outer loop of the view: a row for each setting of `keys`. */
  method RowsOf(keys: set<string>, names: seq<string>, chains: seq<seq<Profile>>, ghost chainOf: string -> seq<Profile>)
    returns (table: MultipleTable)
    requires |chains| == |names| && forall i :: 0 <= i < |names| ==> chains[i] == chainOf(names[i])
    ensures table == RowsFor(keys, names, chainOf)
  {
    table := map[];
    var done: set<string> := {};
    var remaining := keys;
    while remaining != {}
      invariant remaining <= keys && done == keys - remaining
      invariant table == RowsFor(done, names, chainOf)
      decreases |remaining|
    {
      var key :| key in remaining;
      var row := EffectiveRowOf(names, chains, chainOf, key);
      RowsForAddOne(done, key, names, chainOf);
      table := table[key := row];
      done := done + {key};
      remaining := remaining - {key};
    }
  }

  /** The merging part of the view: every setting of every chain, each with its row. */
  method EffectiveSettingsMultiple(names: seq<string>, chains: seq<seq<Profile>>, ghost chainOf: string -> seq<Profile>)
    returns (table: MultipleTable)
    requires |chains| == |names| && forall i :: 0 <= i < |names| ==> chains[i] == chainOf(names[i])
    ensures table == RowsFor(AllSettingKeys(names, chainOf), names, chainOf)
  {
    var keys := CollectAllSettingKeys(names, chains, chainOf);
    table := RowsOf(keys, names, chains, chainOf);
  }

  /** `{p.profile_type for p in profiles}`: the set of the types of the profiles found. */
  method TypesOf(found: seq<Profile>) returns (types: set<Value>)
    ensures types == set j | 0 <= j < |found| :: found[j].profileType
  {
    types := {};
    for i := 0 to |found|
      invariant types == set j | 0 <= j < i :: found[j].profileType
    {
      types := types + {found[i].profileType};
    }
  }

  /** The view when some name is not found: the first such name is reported. */
  lemma MultipleViewNotFound(names: seq<string>, find: string -> Option<Profile>, chainOf: string -> seq<Profile>,
                             k: nat)
    requires k < |names| && find(names[k]).None?
    requires forall j :: 0 <= j < k ==> find(names[j]).Some?
    ensures MultipleView(names, find, chainOf) == Failure(ProfileNotFound(names[k]))
  {
  }

  /** The view once every name is found: `types` decides between the mixed-types error and the
      table. */
  lemma MultipleViewFound(names: seq<string>, find: string -> Option<Profile>, chainOf: string -> seq<Profile>,
                          types: set<Value>)
    requires names != [] && forall j :: 0 <= j < |names| ==> find(names[j]).Some?
    requires types == set i | 0 <= i < |names| :: find(names[i]).value.profileType
    ensures |types| > 1 ==> MultipleView(names, find, chainOf) == Failure(MixedTypes(types))
    ensures |types| <= 1 ==>
      MultipleView(names, find, chainOf) == Success(RowsFor(AllSettingKeys(names, chainOf), names, chainOf))
  {
  }

  /** A set holding two different values has at least two elements. */
  lemma TwoMembers<T>(s: set<T>, a: T, b: T)
    requires a in s && b in s && a != b
    ensures |s| >= 2
  {
    assert s == (s - {a}) + {a};
    assert b in s - {a};
  }

  /** The error cases of the view: no names is its own error; otherwise the first name not found
      is reported; otherwise profiles of more than one type are refused, with exactly the types
      found. */
  lemma MultipleViewErrors(names: seq<string>, find: string -> Option<Profile>, chainOf: string -> seq<Profile>)
    ensures var r := MultipleView(names, find, chainOf);
      && (r == Failure(NoProfileNames) <==> names == [])
      && (r.Failure? && r.error.ProfileNotFound? ==>
            exists i :: (0 <= i < |names| && names[i] == r.error.name && find(names[i]).None?
                         && forall j :: 0 <= j < i ==> find(names[j]).Some?))
      && (r.Failure? && r.error.MixedTypes? ==>
            && (forall i :: 0 <= i < |names| ==> find(names[i]).Some?)
            && |r.error.types| > 1
            && (forall t :: t in r.error.types <==>
                  exists i :: 0 <= i < |names| && find(names[i]).Some? && find(names[i]).value.profileType == t))
  {
  }

  /** The view gives a table exactly when there are names, every one is found, and all the
      profiles found have the same type. */
  lemma MultipleViewSucceeds(names: seq<string>, find: string -> Option<Profile>, chainOf: string -> seq<Profile>)
    ensures MultipleView(names, find, chainOf).Success? <==>
      && names != []
      && (forall i :: 0 <= i < |names| ==> find(names[i]).Some?)
      && (forall i, j :: 0 <= i < |names| && 0 <= j < |names| ==>
            find(names[i]).value.profileType == find(names[j]).value.profileType)
  {
    if names != [] && FirstIndex(names, n => find(n).None?).None? {
      var types := set i | 0 <= i < |names| :: find(names[i]).value.profileType;
      assert find(names[0]).value.profileType in types;
      if |types| > 1 {
        var t1 :| t1 in types;
        assert |types - {t1}| == |types| - 1;
        var t2 :| t2 in types - {t1};
        var i1 :| 0 <= i1 < |names| && find(names[i1]).value.profileType == t1;
        var i2 :| 0 <= i2 < |names| && find(names[i2]).value.profileType == t2;
      } else {
        forall i, j | 0 <= i < |names| && 0 <= j < |names|
          ensures find(names[i]).value.profileType == find(names[j]).value.profileType
        {
          var ti := find(names[i]).value.profileType;
          var tj := find(names[j]).value.profileType;
          assert ti in types && tj in types;
          if ti != tj {
            TwoMembers(types, ti, tj);
          }
        }
      }
    }
  }

  /** A table the view gives has a row for exactly the settings of the requested chains and a
      column for exactly the requested names, each cell the profile's effective value. */
  lemma MultipleViewTable(names: seq<string>, find: string -> Option<Profile>, chainOf: string -> seq<Profile>)
    requires MultipleView(names, find, chainOf).Success?
    ensures var t := MultipleView(names, find, chainOf).value;
      && t.Keys == AllSettingKeys(names, chainOf)
      && forall k :: k in t ==>
           && t[k].Keys == (set n | n in names)
           && forall i :: 0 <= i < |names| ==> t[k][names[i]] == EffectiveValue(chainOf(names[i]), k)
  {
    var t := MultipleView(names, find, chainOf).value;
    assert t == RowsFor(AllSettingKeys(names, chainOf), names, chainOf);
  }

  /** In a table the view produces, a requested profile's column agrees with that profile's own
      effective view, and shows "-" for settings only other chains declare. */
  lemma MultipleViewAgreesWithSingleView(names: seq<string>, find: string -> Option<Profile>,
                                         chainOf: string -> seq<Profile>, i: nat, key: string)
    requires MultipleView(names, find, chainOf).Success?
    requires i < |names| && key in MultipleView(names, find, chainOf).value
    ensures var m := EffectiveMap(chainOf(names[i]));
      var cell := MultipleView(names, find, chainOf).value[key][names[i]];
      && (key in m ==> cell == m[key])
      && (key !in m ==> cell == Unset)
  {
    MultipleViewTable(names, find, chainOf);
    var c := chainOf(names[i]);
    if key !in EffectiveMap(c) {
      EffectiveValueIsNearestSetter(c, key);
    }
  }
}

