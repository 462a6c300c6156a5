# OrcaSlicer profile inheritance, modelled in Dafny

OrcaSlicer keeps its printer, filament and process settings as JSON profile files. A profile
names a parent in its `inherits` field and overrides some of the parent's settings. The two
`ProfileAnalyzer` classes modelled here load such files into an in-memory store and answer
questions about it. They give a profile's inheritance chain, its children and descendants, a
side-by-side comparison of the chain's settings, and the "effective" value of every setting
once the chain's overrides are applied.

There are two versions of the analyzer.

- The profile explorer (`orcaslice_profile_explorer/profile_analyzer.py`) keeps every file.
  - The first profile with a name is stored under that name. Later ones get the key
    `name [dir1/dir2]`, built from the last two directories of the file's path.
  - A name is resolved to a profile by display name. When several profiles share the name, the
    choice goes in this order: the one in the requesting file's directory; then the one sharing
    the most leading path parts with it; then the first one under `system/OrcaFilamentLibrary`;
    then the first one.
- The profile visualizer (`orcaslicer_visualizer/profile_analyzer.py`) is older.
  - It keys the store by name, so a later file with the same name replaces the earlier profile.
  - It resolves a name by exact lookup.

Modules:

- `Json`, `Paths`, `Dict`, `Seqs`: JSON values and documents, pathlib paths, and Python's
  insertion-ordered `dict`. Re-assigning a key keeps its position in a `dict`, which decides
  which candidate comes "first".
- `Profiles`: the profile record and how `_load_profile` builds it from a document: its name,
  parent, origin, settings and inferred type.
- `Chains`: the cycle-guarded chain walk both versions use. It is written once over a resolver
  function and proved once: it terminates, repeats no name, links each element to the next,
  and stops for a stated reason.
- `Inheritance`: children and the breadth-first descendant search.
- `Merge`: the meaningful-value merge behind the effective-settings views, for one profile
  and for several.
- `Comparison`: the settings-comparison table.
- `Explorer` and `ExplorerAnalyzer`: the explorer's store, loading and resolution, then its
  analyzer class. Every method of the class is proved equal to a function of the store.
- `Visualizer` and `VisualizerAnalyzer`: the same for the visualizer.

The analyzer classes keep the source's form. Loading assigns the store fields, and every
query is a loop proved against the function that specifies it.

## Model

| member | source | states |
|---|---|---|
| Profiles.SettingsOf | orcaslice_profile_explorer/profile_analyzer.py:150 | a profile's settings are exactly the document's keys other than `name`, `inherits`, `from` and `type`, with the document's values |
| Profiles.Parse | orcaslice_profile_explorer/profile_analyzer.py:100-154 | a document yields a profile exactly when it has a non-empty string `name` and reading its `from` field does not raise; the profile keeps that name, the file's path and the declared parent, and holds no structural key among its settings |
| Profiles.ProcessDirectoryDecidesType | orcaslice_profile_explorer/profile_analyzer.py:112-127 | a `process` directory anywhere above the file makes the type "process", overriding an explicit `type` field |
| Profiles.MachineDirectoryDecidesType | orcaslicer_visualizer/profile_analyzer.py:105-115 | without a `/process/` in the path, a `machine` directory above the file makes the type "machine" |
| Paths.DirSuffixIsLastTwoDirectories | orcaslice_profile_explorer/profile_analyzer.py:138-143 | the suffix of a duplicate's key is the file's last two directory names joined by "/" |
| Paths.CountCommonParts | orcaslice_profile_explorer/profile_analyzer.py:226-238 | the counting loop stops at the first differing part: the count is the length of the longest common prefix of the two part lists |
| Dict.AssignSpec | orcaslice_profile_explorer/profile_analyzer.py:145-152 | `d[k] = v` makes `k` map to `v`, leaves every other key alone, keeps keys distinct, and keeps an existing key in its place or appends a new one |
| Explorer.LoadSpec | orcaslice_profile_explorer/profile_analyzer.py:129-152 | loading keeps the store consistent. The first file with a name is stored under the bare name and later ones under `name [dir1/dir2]`, with the record's own name unchanged. Every other key is untouched, and the file is appended to the name's list of paths |
| Explorer.LoadAllConsistent | orcaslice_profile_explorer/profile_analyzer.py:26-40 | loading any sequence of files from an empty store leaves it consistent: keys distinct, a bare key holds its name's first file, any other key is that profile's suffixed key |
| Explorer.SameDirectoryDuplicatesCollide | orcaslice_profile_explorer/profile_analyzer.py:136-152 | three same-named files from one directory give the second and third the same suffixed key, so the third replaces the second and only two profiles remain |
| ExplorerAnalyzer.ProfileAnalyzer.LoadProfile | orcaslice_profile_explorer/profile_analyzer.py:100-154 | the analyzer's two dictionaries become exactly the loaded state `Explorer.Load` defines, and a consistent analyzer stays consistent |
| ExplorerAnalyzer.ProfileAnalyzer.constructor | orcaslice_profile_explorer/profile_analyzer.py:19-40 | a new analyzer holds exactly the files loaded in discovery order, and its state is consistent |
| Explorer.Candidates | orcaslice_profile_explorer/profile_analyzer.py:162-166 | the candidates are exactly the stored profiles whose display name is the query |
| Explorer.ResolveFindsACandidate | orcaslice_profile_explorer/profile_analyzer.py:163-174 | `get_profile` returns None exactly when no stored profile carries the name; otherwise it returns one that does; a single candidate is returned whatever the requesting file |
| Explorer.ResolvePrefersSameDirectory | orcaslice_profile_explorer/profile_analyzer.py:216-221 | with several candidates, the first one in the requesting file's directory wins |
| Explorer.ResolvePrefersLongestCommonPrefix | orcaslice_profile_explorer/profile_analyzer.py:223-246 | otherwise, when some candidate shares a leading path part, the winner shares the most, and on a tie it is the earliest |
| Explorer.BestMatch | orcaslice_profile_explorer/profile_analyzer.py:226-246 | `max` over the candidates with a positive count: None exactly when no candidate shares a part, else the earliest of the longest |
| Explorer.FirstInLibrary | orcaslice_profile_explorer/profile_analyzer.py:249-258 | the first candidate whose path holds `system/OrcaFilamentLibrary`, None exactly when there is none |
| Explorer.InLibraryIsMarkerInPath | orcaslice_profile_explorer/profile_analyzer.py:191-195 | the three spellings of the library test amount to the marker occurring in the path |
| Explorer.ResolveFallsBackToLibraryThenFirst | orcaslice_profile_explorer/profile_analyzer.py:188-201 | with several candidates and nothing decided by proximity, the first library candidate wins, else the first candidate in store order |
| Explorer.AbsoluteRequesterDecidedByProximity | orcaslice_profile_explorer/profile_analyzer.py:223-246 | for absolute paths the shared root part makes proximity always decide, so the library preference is never reached from a requesting file |
| ExplorerAnalyzer.ProfileAnalyzer.GetProfile | orcaslice_profile_explorer/profile_analyzer.py:156-201 | the candidate scan and case analysis return exactly `Resolve`, whose properties are the lemmas above; in a consistent analyzer the profile found comes from a file recorded for the name |
| Explorer.ResolvedFileIsListed | orcaslice_profile_explorer/profile_analyzer.py:156-201 | in a consistent store, a profile `get_profile` finds was loaded from one of the files `profile_name_to_file_paths` lists for the name asked for |
| ExplorerAnalyzer.ProfileAnalyzer.FindClosestProfile | orcaslice_profile_explorer/profile_analyzer.py:203-261 | the three scans return exactly `Closest`: same directory, then the longest common prefix, then the library |
| ExplorerAnalyzer.ProfileAnalyzer.SameDirectoryScan | orcaslice_profile_explorer/profile_analyzer.py:216-220 | returns the first candidate whose parent directory is the requesting file's, and none when there is no such candidate |
| ExplorerAnalyzer.ProfileAnalyzer.LongestPrefixScan | orcaslice_profile_explorer/profile_analyzer.py:225-246 | the counting loop finds `BestMatch`: the earliest candidate with the longest positive shared prefix, or none when no candidate shares a part |
| ExplorerAnalyzer.ProfileAnalyzer.GetProfilesByType | orcaslice_profile_explorer/profile_analyzer.py:87-89 | a profile is listed exactly when it is stored and has the given type |
| Chains.WalkStart | orcaslice_profile_explorer/profile_analyzer.py:267-284 | a walk is empty exactly when the start name is empty or resolves to nothing, and otherwise begins with what it resolves to |
| Chains.WalkDistinct | orcaslice_profile_explorer/profile_analyzer.py:274-282 | with a resolver that keeps names, no name occurs twice in a chain |
| Chains.WalkLinked | orcaslice_profile_explorer/profile_analyzer.py:274-282 | each element of a chain names the next as its parent |
| Chains.WalkEnd | orcaslice_profile_explorer/profile_analyzer.py:274-278 | the chain stops because the last element has no parent name, its parent was already requested, or the parent resolves to nothing |
| Chains.WalkHopsUsePreviousPath | orcaslice_profile_explorer/profile_analyzer.py:275-282 | every hop after the first resolves the parent name with the previous element's file as the requesting path |
| Explorer.ChainShape | orcaslice_profile_explorer/profile_analyzer.py:267-284 | the explorer's chain starts at `get_profile(name, None)`, is empty exactly when the name is empty or has no candidate, holds only stored profiles, is linked by `inherits`, and repeats no name |
| Explorer.ChainHopsUsePreviousPath | orcaslice_profile_explorer/profile_analyzer.py:275-282 | each parent is resolved next to its child, so a duplicate-named parent is chosen by closeness to the child's file |
| Explorer.ChainEnd | orcaslice_profile_explorer/profile_analyzer.py:274-278 | a dangling `inherits` ends the chain silently: it stops at no parent, a repeat, or a name with no candidate |
| ExplorerAnalyzer.ProfileAnalyzer.GetProfileInheritanceChain | orcaslice_profile_explorer/profile_analyzer.py:267-284 | the while loop with its visited set returns exactly `Explorer.Chain` |
| ExplorerAnalyzer.ProfileAnalyzer.GetProfileInheritanceChainWithTypes | orcaslice_profile_explorer/profile_analyzer.py:536-555 | the second copy of the walk returns the same chain |
| Inheritance.AllChildren | orcaslice_profile_explorer/profile_analyzer.py:286-292 | a profile is listed exactly when it is stored and names the parent in `inherits`, in store order |
| Inheritance.AllDescendants | orcaslice_profile_explorer/profile_analyzer.py:294-313 | the breadth-first search lists every profile at most once, only stored ones, each after its parent, and all children of the start and of every listed profile |
| Inheritance.DescendantsAreExactlyTheReachable | orcaslice_profile_explorer/profile_analyzer.py:294-313 | so a stored profile is listed exactly when it reaches the start name through `inherits` edges |
| Inheritance.ChainEarlierIsListedDescendant | orcaslice_profile_explorer/profile_analyzer.py:267-313 | the descendant search from any chain member's name lists every chain member before it |
| ExplorerAnalyzer.ProfileAnalyzer.GetAllChildren | orcaslice_profile_explorer/profile_analyzer.py:286-292 | the children of the stored profiles |
| ExplorerAnalyzer.ProfileAnalyzer.GetAllDescendants | orcaslice_profile_explorer/profile_analyzer.py:294-313 | distinct stored profiles, each listed after its parent, closed under children |
| Comparison.SortedKeys | orcaslice_profile_explorer/profile_analyzer.py:363 | `sorted` of a set of names: strictly increasing in code-point order, holding exactly the set's elements |
| Comparison.CellOf | orcaslice_profile_explorer/profile_analyzer.py:368-372 | a setting the profile lacks shows "N/A", a list shows its joined items, and any other value is shown as it is |
| Comparison.SettingsComparison | orcaslice_profile_explorer/profile_analyzer.py:347-374 | the table compares the chain: sorted setting names, one column per chain profile from the base to the leaf, one cell per setting |
| Comparison.ComparisonRowsAreTheDeclaredSettings | orcaslice_profile_explorer/profile_analyzer.py:355-363 | a row exists exactly for each setting some chain profile declares, and the leaf's column shows "N/A" exactly where the leaf does not declare the setting or declares "N/A" |
| Comparison.ComparisonIsDetermined | orcaslice_profile_explorer/profile_analyzer.py:347-374 | two tables comparing the same chain are equal |
| ExplorerAnalyzer.ProfileAnalyzer.GetProfileSettingsComparison | orcaslice_profile_explorer/profile_analyzer.py:347-374 | the table compares the profile's chain |
| Merge.EffectiveValueIsNearestSetter | orcaslice_profile_explorer/profile_analyzer.py:603-624 | a setting's effective value is "-" exactly when no chain profile sets it meaningfully, and otherwise the value of the setter nearest the leaf |
| Merge.EffectiveSetting | orcaslice_profile_explorer/profile_analyzer.py:603-624 | the root-to-leaf override loop with the meaningful-value test gives the effective value |
| Merge.MergeRootToLeafIsEffective | orcaslice_profile_explorer/profile_analyzer.py:603-624 | running the merge over the reversed chain, root first, gives the leaf's effective value |
| Merge.UnsetOverrideInherits | orcaslice_profile_explorer/profile_analyzer.py:607-621 | a profile that leaves a setting out, null, blank, "-" or a list of placeholders shows the value it inherits |
| Merge.FullyDeclaredLeafIsItsOwnView | orcaslice_profile_explorer/profile_analyzer.py:603-624 | a leaf that sets every setting of its chain meaningfully is its own effective view |
| Merge.EffectiveSettings | orcaslice_profile_explorer/profile_analyzer.py:572-624 | the merged view covers exactly the settings the chain declares, each with its effective value |
| Merge.EffectiveValuesLoop | orcaslice_profile_explorer/profile_analyzer.py:585-624 | the loop over the declared settings yields exactly each setting's effective value, whatever order the settings are taken in |
| Merge.CollectSettingKeys | orcaslice_profile_explorer/profile_analyzer.py:572-575 | the collected names are exactly the settings some chain profile declares |
| ExplorerAnalyzer.ProfileAnalyzer.GetEffectiveProfileSettings | orcaslice_profile_explorer/profile_analyzer.py:557-624 | None, the "not found" case, exactly when the chain is empty; otherwise the effective map of the chain |
| Merge.MultipleViewErrors | orcaslice_profile_explorer/profile_analyzer.py:436-450 | no names is its own error; otherwise the first name not found is reported; profiles of several types are refused, with exactly the types found |
| Merge.MultipleViewSucceeds | orcaslice_profile_explorer/profile_analyzer.py:436-450 | a table is produced exactly when names were given, all are found, and all have one type |
| Merge.MultipleViewTable | orcaslice_profile_explorer/profile_analyzer.py:452-487 | the table has a row for exactly the settings of the requested chains, a cell for exactly each requested name, and each cell is that profile's effective value |
| Merge.MultipleViewAgreesWithSingleView | orcaslice_profile_explorer/profile_analyzer.py:461-487 | a column of the table agrees with the profile's own effective view, and shows "-" for settings only other chains declare |
| Merge.EffectiveSettingsMultiple | orcaslice_profile_explorer/profile_analyzer.py:452-487 | the key collection and the row loops build exactly that table |
| ExplorerAnalyzer.ProfileAnalyzer.GetEffectiveProfileSettingsMultiple | orcaslice_profile_explorer/profile_analyzer.py:432-487 | the lookups, the type check and the loops return exactly the view whose properties the lemmas above state |
| Merge.MultipleMergeAsWritten | orcaslice_profile_explorer/profile_analyzer.py:465-487 | the merge loop as written, over the chain from the leaf, computes the root-first fold `Merged` |
| Merge.MultipleMergeAsWrittenFavoursRoot | orcaslice_profile_explorer/profile_analyzer.py:469-486 | as written, the meaningful value nearest the root wins |
| Merge.MultipleMergeAsWrittenShowsBaseValue | orcaslice_profile_explorer/profile_analyzer.py:469-486 | on a leaf at 220 over a base at 200 the single view shows 220 and the as-written multiple view shows 200 |
| Comparison.LookupItem | orcaslice_profile_explorer/profile_analyzer.py:366-372 | `settings.get(item, "N/A")` on an item of the iterated list raises exactly when the item is an object or a list, and otherwise looks up a label or string as a key |
| Comparison.AliasedRowLoopNeverFinishes | orcaslice_profile_explorer/profile_analyzer.py:366-372 | once the aliased loop has an unprocessed item it never reaches the end of its list: each row appends one item behind it |
| Comparison.AliasedRowLoopRunsForever | orcaslice_profile_explorer/profile_analyzer.py:366-372 | when the "setting_names" profile declares no object value, no item raises and the loop is still running after any number of rows |
| Comparison.AliasedRowLoopNeverEnds | orcaslice_profile_explorer/profile_analyzer.py:359-372 | for a chain that declares a setting and holds a profile named "setting_names", the row loop over the sorted labels never ends: it runs forever, or raises TypeError when it reaches an object value |
| Comparison.AliasedRowLoopRaisesOnObject | orcaslicer_visualizer/profile_analyzer.py:219-232 | a "setting_names" profile declaring `"foo": {"a": 1}` appends that object as the second item and the loop raises on it |
| Comparison.SeparateLabelsEnd | orcaslice_profile_explorer/profile_analyzer.py:359-372 | with the row labels kept apart, a profile named "setting_names" gets a column of one cell per setting |
| Visualizer.LoadSpec | orcaslicer_visualizer/profile_analyzer.py:117-124 | loading keeps the store keyed by name. The new profile is found under its name and other names are untouched. A name already stored keeps its place and the new profile replaces the old one; a new name is appended |
| Visualizer.LoadAllKeyedByName | orcaslicer_visualizer/profile_analyzer.py:24-39 | after loading any files every profile sits under its own name, and no name occurs twice |
| Visualizer.LoadAllLastWins | orcaslicer_visualizer/profile_analyzer.py:117-124 | the last file declaring a name decides what is stored under it; an earlier same-named profile is no longer found |
| VisualizerAnalyzer.ProfileAnalyzer.LoadProfile | orcaslicer_visualizer/profile_analyzer.py:93-126 | the store becomes exactly `Visualizer.Load` of the old store, and stays keyed by name |
| VisualizerAnalyzer.ProfileAnalyzer.constructor | orcaslicer_visualizer/profile_analyzer.py:19-39 | a new analyzer holds exactly the files loaded in order, keyed by name |
| Visualizer.GetByName | orcaslicer_visualizer/profile_analyzer.py:128-130 | in a store keyed by name, lookup finds the one stored profile with the name, and finds nothing exactly when no stored profile has it |
| VisualizerAnalyzer.ProfileAnalyzer.GetProfile | orcaslicer_visualizer/profile_analyzer.py:128-130 | finds something exactly when the key is stored; in a valid analyzer that is a stored profile with the name, and nothing exactly when no stored profile has it |
| VisualizerAnalyzer.ProfileAnalyzer.GetProfilesByType | orcaslicer_visualizer/profile_analyzer.py:80-82 | a profile is listed exactly when it is stored and has the given type |
| Visualizer.ChainShape | orcaslicer_visualizer/profile_analyzer.py:136-151 | the chain starts at the stored profile, is empty exactly when the name is empty or not stored, holds only stored profiles, is linked by `inherits`, and repeats no name |
| Visualizer.ChainFollowsStoredParents | orcaslicer_visualizer/profile_analyzer.py:142-149 | each element after the first is exactly the profile stored under the previous element's parent name |
| Visualizer.ChainEnd | orcaslicer_visualizer/profile_analyzer.py:142-146 | the chain stops at no parent, a parent already in it, or a parent name that is not stored |
| VisualizerAnalyzer.ProfileAnalyzer.GetProfileInheritanceChain | orcaslicer_visualizer/profile_analyzer.py:136-151 | the while loop returns exactly `Visualizer.Chain` |
| VisualizerAnalyzer.ProfileAnalyzer.GetProfileInheritanceChainWithTypes | orcaslicer_visualizer/profile_analyzer.py:374-391 | the second copy of the walk returns the same chain |
| VisualizerAnalyzer.ProfileAnalyzer.GetAllChildren | orcaslicer_visualizer/profile_analyzer.py:153-159 | the children of the stored profiles |
| VisualizerAnalyzer.ProfileAnalyzer.GetAllDescendants | orcaslicer_visualizer/profile_analyzer.py:161-180 | distinct stored profiles, each listed after its parent, closed under children |
| VisualizerAnalyzer.ProfileAnalyzer.GetProfileSettingsComparison | orcaslicer_visualizer/profile_analyzer.py:207-234 | the table compares the profile's chain: sorted names, base-to-leaf columns, "N/A" where a profile lacks the setting |
| VisualizerAnalyzer.ProfileAnalyzer.GetEffectiveProfileSettings | orcaslicer_visualizer/profile_analyzer.py:393-438 | None exactly when the chain is empty; otherwise every setting of the chain with its effective value |
| VisualizerAnalyzer.ProfileAnalyzer.GetEffectiveProfileSettingsMultiple | orcaslicer_visualizer/profile_analyzer.py:280-335 | the errors for no names, a missing name and mixed types, otherwise the table of effective values |

## Left out

- File discovery and reading (`os.walk`, `open`, `json.load`) and `load_profiles_by_type` are
  I/O. Loading takes the documents already parsed, in discovery order; a file that could not
  be read or parsed is a `ProfileFile` without a document. Printed error messages are not
  modelled.
- Markdown rendering is presentation and is not modelled. This covers
  `format_settings_comparison_table`, the rows of both effective-settings views, and the "SET"
  masking of `gcode` settings. In the explorer, `gcode` and `filament_notes` rows show "SET"
  or "-" from the target profile's own value. The views are modelled up to the value tables they render.
- `str()` of arbitrary values and `", ".join` are not modelled. `Comparison.CellOf` keeps a list
  as its items (`Joined`) instead of the joined string.
- `orcaslicer_visualizer/visualizer.py` and `orcaslicer_visualizer/cli.py` are the graph
  drawing through graphviz and the command line. They are not part of this model.
- `get_branches_with_user_profiles` is a composition of the chain and descendant queries,
  returned through a set with unordered iteration. It is not modelled.
- The model assumes `name`, `inherits`, `type` and `from` are strings or absent. A non-string
  `name` or `inherits` is not modelled: an `inherits` that is not a string counts as absent,
  and a `from` that is not a string makes the document skipped, as the raised error does.
- Profiles.InferType: the separators are modelled as "/" (POSIX). Windows separators are not
  modelled.
- Json: numbers are integers, and values are compared structurally. Python's numeric equality
  across `int`, `float` and `bool` is not modelled.
- ExplorerAnalyzer.ProfileAnalyzer.FindClosestProfile: the list of positive matches and the
  `max` over it are modelled as a running maximum that keeps the first of equal counts, which
  selects the same candidate.
- ExplorerAnalyzer.ProfileAnalyzer.GetProfile: the unused exact-key lookup at the start of
  `get_profile` is not modelled.
- Inheritance.AllDescendants: the contract states which profiles are listed and that each
  comes after its parent, not the exact breadth-first order.
- ExplorerAnalyzer.ProfileAnalyzer.GetAllDescendants: the same; it returns
  `Inheritance.AllDescendants`, so the exact breadth-first order is not stated.
- VisualizerAnalyzer.ProfileAnalyzer.GetAllDescendants: the same; it returns
  `Inheritance.AllDescendants`, so the exact breadth-first order is not stated.
- Comparison.Compares: the table's columns are indexed by position along the chain, not by
  profile name. Chain names are distinct, so nothing is lost.
- ExplorerAnalyzer.ProfileAnalyzer.GetEffectiveProfileSettingsMultiple and
  VisualizerAnalyzer.ProfileAnalyzer.GetEffectiveProfileSettingsMultiple use the leaf-wins
  merge of the single-profile view, as the source's comments intend, rather than the loop as
  written (see Findings).
- Comparison.SettingsComparison keeps the row labels apart from the columns, so a profile
  named "setting_names" gets its own column (see Findings).
- ExplorerAnalyzer.ProfileAnalyzer.GetProfileSettingsComparison: returns
  `Comparison.SettingsComparison`, so it carries the same correction: the labels are kept
  apart from a "setting_names" profile's column.
- VisualizerAnalyzer.ProfileAnalyzer.GetProfileSettingsComparison: the same correction,
  through `Comparison.SettingsComparison`.
- ExplorerAnalyzer.ProfileAnalyzer.GetEffectiveProfileSettings: returns the effective value of
  every setting. The rendered rows of settings whose name contains `gcode`, and of
  `filament_notes`, instead show "SET" or "-" from the target profile's own value, not from
  the effective value. That rendering is not modelled.
- Comparison.LookupItem: a joined list is looked up through `joinedText`, which stands for the
  text `", ".join(str(v) for v in value)` produces; that text is not computed.

## Findings

| source | as written | input that shows it | evidently intended | confidence | as-written member | corrected member |
|---|---|---|---|---|---|---|
| orcaslice_profile_explorer/profile_analyzer.py:469-486 | the multiple-profile merge iterates the chain as returned, leaf first, and lets each later meaningful value win, so the root's value wins | a leaf setting `nozzle_temperature` to 220 over a base setting it to 200: the multiple view shows 200, the single view 220 | walk from the base to the leaf as the comment says, so the leaf's value wins as in `get_effective_profile_settings` | not executed | Merge.MultipleMergeAsWrittenShowsBaseValue | Merge.MultipleViewAgreesWithSingleView |
| orcaslicer_visualizer/profile_analyzer.py:317-334 | the same loop in the older version, leaf first, so the root's value wins | the same two-profile chain: 200 instead of 220 | base-to-leaf order, the leaf's value winning | not executed | Merge.MultipleMergeAsWrittenFavoursRoot | Merge.MultipleViewTable |
| orcaslice_profile_explorer/profile_analyzer.py:359-372 | the table dict keeps the row labels under the key "setting_names", so a chain profile of that name shares one list with the labels; the row loop iterates that list while appending a cell to it for every label | a chain holding a profile named "setting_names" and declaring any setting: the loop never ends, or raises TypeError when it reaches an object value | row labels kept apart from the profile columns | not executed | Comparison.AliasedRowLoopNeverEnds | Comparison.SeparateLabelsEnd |
| orcaslicer_visualizer/profile_analyzer.py:219-232 | the same dict and loop in the older version | a chain holding a profile named "setting_names" and declaring any setting: the loop never ends, or raises TypeError when it reaches an object value | row labels kept apart from the profile columns | not executed | Comparison.AliasedRowLoopNeverEnds | Comparison.SeparateLabelsEnd |
