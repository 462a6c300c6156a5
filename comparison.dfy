/** The settings-comparison table: one row per setting declared anywhere in an inheritance chain,
    sorted by name, and one column per chain profile from the base to the leaf. */
module Comparison {
  import opened Json
  import opened Profiles
  import opened Seqs
  import opened Merge

  // ---- Python's ordering of strings ----

  /** `a < b` on Python strings: code point by code point, a proper prefix first. */
  predicate Below(a: string, b: string)
    decreases |a|
  {
    if |a| == 0 then |b| > 0
    else if |b| == 0 then false
    else if a[0] == b[0] then Below(a[1..], b[1..])
    else a[0] < b[0]
  }

  lemma {:induction false} BelowIrreflexive(a: string)
    ensures !Below(a, a)
    decreases |a|
  {
    if |a| > 0 {
      BelowIrreflexive(a[1..]);
    }
  }

  lemma {:induction false} BelowTransitive(a: string, b: string, c: string)
    requires Below(a, b) && Below(b, c)
    ensures Below(a, c)
    decreases |a|
  {
    if |a| > 0 && a[0] == b[0] && b[0] == c[0] {
      BelowTransitive(a[1..], b[1..], c[1..]);
    }
  }

  lemma {:induction false} BelowTotal(a: string, b: string)
    ensures a == b || Below(a, b) || Below(b, a)
    decreases |a|
  {
    if |a| > 0 && |b| > 0 && a[0] == b[0] {
      BelowTotal(a[1..], b[1..]);
      if a[1..] == b[1..] {
        assert a == [a[0]] + a[1..] && b == [b[0]] + b[1..];
      }
    }
  }

  /** `m` is the smallest string of `keys`. */
  predicate IsLeast(m: string, keys: set<string>) {
    m in keys && forall y :: y in keys ==> !Below(y, m)
  }

  lemma {:induction false} LeastExists(keys: set<string>)
    requires keys != {}
    ensures exists m :: IsLeast(m, keys)
    decreases |keys|
  {
    var x :| x in keys;
    if keys == {x} {
      BelowIrreflexive(x);
      assert IsLeast(x, keys);
    } else {
      LeastExists(keys - {x});
      var m :| IsLeast(m, keys - {x});
      if Below(x, m) {
        forall y | y in keys ensures !Below(y, x) {
          if y == x {
            BelowIrreflexive(x);
          } else if Below(y, x) {
            BelowTransitive(y, x, m);
          }
        }
        assert IsLeast(x, keys);
      } else {
        assert IsLeast(m, keys);
      }
    }
  }

  lemma LeastUnique(keys: set<string>)
    ensures forall m1, m2 :: IsLeast(m1, keys) && IsLeast(m2, keys) ==> m1 == m2
  {
    forall m1, m2 | IsLeast(m1, keys) && IsLeast(m2, keys) ensures m1 == m2 {
      BelowTotal(m1, m2);
    }
  }

  predicate StrictlySorted(s: seq<string>) {
    forall i, j :: 0 <= i < j < |s| ==> Below(s[i], s[j])
  }

  /** `sorted(keys)`: the keys in increasing order, each once. */
  function SortedKeys(keys: set<string>): (r: seq<string>)
    ensures StrictlySorted(r)
    ensures forall k :: k in r <==> k in keys
    ensures |r| == |keys|
    decreases |keys|
  {
    if keys == {} then []
    else
      LeastExists(keys);
      LeastUnique(keys);
      var m :| IsLeast(m, keys);
      var rest := SortedKeys(keys - {m});
      assert forall k :: k in rest ==> Below(m, k) by {
        forall k | k in rest ensures Below(m, k) {
          BelowTotal(m, k);
        }
      }
      [m] + rest
  }

  // ---- The table ----

  /** A table cell. A list value is shown as its elements joined by ", " (`Joined`); any other
      value is shown as it is. */
  datatype Cell = Plain(value: Value) | Joined(items: seq<Value>)

  /** The cell of a profile that does not declare the setting. */
  const NotAvailable: Cell := Plain(Str("N/A"))

  /** `profile.settings.get(setting_name, "N/A")`, a list converted for display. */
  function CellOf(p: Profile, key: string): (cell: Cell)
    ensures key !in p.settings ==> cell == NotAvailable
    ensures key in p.settings && p.settings[key].List? ==> cell == Joined(p.settings[key].items)
    ensures key in p.settings && !p.settings[key].List? ==> cell == Plain(p.settings[key])
  {
    if key !in p.settings then NotAvailable
    else match p.settings[key]
      case List(items) => Joined(items)
      case v => Plain(v)
  }

  datatype Column = Column(profileName: string, cells: seq<Cell>)

  /** `settingNames` are the row labels; `columns` run from the base profile to the leaf. */
  datatype Table = Table(settingNames: seq<string>, columns: seq<Column>)

  /** The table is the comparison of `chain` (leaf first): sorted setting names, then for every
      profile from the base to the leaf its name and one cell per setting name. */
  predicate Compares(chain: seq<Profile>, t: Table) {
    && t.settingNames == SortedKeys(SettingKeys(chain))
    && |t.columns| == |chain|
    && forall i :: 0 <= i < |chain| ==>
         var p := chain[|chain| - 1 - i];
         && t.columns[i].profileName == p.name
         && |t.columns[i].cells| == |t.settingNames|
         && forall j :: 0 <= j < |t.settingNames| ==> t.columns[i].cells[j] == CellOf(p, t.settingNames[j])
  }

  /** Fill the table row by row, appending to every column, as the source's nested loop does. */
  method FillColumns(base: seq<Profile>, names: seq<string>) returns (columns: seq<seq<Cell>>)
    ensures |columns| == |base|
    ensures forall i :: 0 <= i < |base| ==>
      |columns[i]| == |names| && forall j :: 0 <= j < |names| ==> columns[i][j] == CellOf(base[i], names[j])
  {
    columns := seq(|base|, i => []);
    for j := 0 to |names|
      invariant |columns| == |base|
      invariant forall i :: 0 <= i < |base| ==>
        |columns[i]| == j && forall r :: 0 <= r < j ==> columns[i][r] == CellOf(base[i], names[r])
    {
      for i := 0 to |base|
        invariant |columns| == |base|
        invariant forall q :: 0 <= q < i ==>
          |columns[q]| == j + 1 && forall r :: 0 <= r <= j ==> columns[q][r] == CellOf(base[q], names[r])
        invariant forall q :: i <= q < |base| ==>
          |columns[q]| == j && forall r :: 0 <= r < j ==> columns[q][r] == CellOf(base[q], names[r])
      {
        columns := columns[i := columns[i] + [CellOf(base[i], names[j])]];
      }
    }
  }

  /** `get_profile_settings_comparison` once the chain is known: reverse it, collect and sort the
      setting names, and give every profile a column. */
  method SettingsComparison(chain: seq<Profile>) returns (t: Table)
    ensures Compares(chain, t)
  {
    var base := Reversed(chain);
    var keys := CollectSettingKeys(base);
    assert keys == SettingKeys(chain) by {
      forall k | k in SettingKeys(chain) ensures k in keys {
        var i :| 0 <= i < |chain| && k in chain[i].settings;
        assert base[|chain| - 1 - i] == chain[i];
      }
    }
    var names := SortedKeys(keys);
    var cells := FillColumns(base, names);
    t := Table(names, seq(|base|, i requires 0 <= i < |base| => Column(base[i].name, cells[i])));
  }

  // ---- Properties ----

  /** Every row label is declared by some profile of the chain, each declared setting has exactly
      one row, and the leaf's column (the last) shows the leaf's own declarations. */
  lemma ComparisonRowsAreTheDeclaredSettings(chain: seq<Profile>, t: Table, key: string)
    requires Compares(chain, t) && |chain| >= 1
    ensures key in t.settingNames <==> exists i :: 0 <= i < |chain| && key in chain[i].settings
    ensures forall j :: 0 <= j < |t.settingNames| ==>
              (t.columns[|chain| - 1].cells[j] == NotAvailable <==>
                 t.settingNames[j] !in chain[0].settings || chain[0].settings[t.settingNames[j]] == Str("N/A"))
  {
    var j := |chain| - 1;
    assert chain[|chain| - 1 - j] == chain[0];
  }

  /** Two tables that both compare the same chain are equal: the comparison is a function of the
      chain. */
  lemma ComparisonIsDetermined(chain: seq<Profile>, t1: Table, t2: Table)
    requires Compares(chain, t1) && Compares(chain, t2)
    ensures t1 == t2
  {
    assert |t1.columns| == |t2.columns|;
    forall i | 0 <= i < |chain| ensures t1.columns[i] == t2.columns[i] {
      assert t1.columns[i].cells == t2.columns[i].cells;
    }
  }

  // ---- The "setting_names" profile ----

  /** What the row loop can do when a chain profile is itself named "setting_names". */
  datatype AliasedOutcome =
    | Finished(rows: seq<Cell>)
    /** `dict.get` raised TypeError on the item at this position: an object or a list cannot be
        hashed. */
    | Unhashable(at: nat)
    /** The fuel ran out before the loop reached the end of the list it iterates. */
    | StillRunning

  /** A cell Python can use as a dictionary key: every cell but an object or a list value. */
  predicate Hashable(c: Cell) {
    !(c.Plain? && (c.value.Object? || c.value.List?))
  }

  /** `profile.settings.get(item, "N/A")` for an item of the list being iterated, the list value
      converted for display as the loop does. A label or a string value is looked up as it is; a
      joined list is looked up as its text, which `joinedText` stands for (`str` of each element is
      not modelled); `None`, a boolean or a number never equals a string key; an object or a list
      raises (None here). */
  function LookupItem(p: Profile, item: Cell, joinedText: seq<Value> -> string): (r: Option<Cell>)
    ensures r.Some? <==> Hashable(item)
  {
    match item
    case Joined(items) => Some(CellOf(p, joinedText(items)))
    case Plain(v) =>
      match v
      case Str(s) => Some(CellOf(p, s))
      case Object(_) => None
      case List(_) => None
      case _ => Some(NotAvailable)
  }

  /** The sorted row labels, as the list `comparison['setting_names']` starts out. */
  function Labels(chain: seq<Profile>): (r: seq<Cell>)
    ensures |r| == |SettingKeys(chain)|
  {
    var names := SortedKeys(SettingKeys(chain));
    seq(|names|, j requires 0 <= j < |names| => Plain(Str(names[j])))
  }

  /** The row loop as written, seen from the list it iterates when `q` is the chain profile named
      "setting_names": that list is `q`'s column too, so each row appends `q`'s cell for the row's
      item to it. The loop stops when it reaches the end of the list or when an item cannot be
      hashed; `fuel` bounds the number of rows processed. */
  function AliasedRowLoop(q: Profile, rows: seq<Cell>, next: nat, joinedText: seq<Value> -> string, fuel: nat): AliasedOutcome
    decreases fuel
  {
    if next >= |rows| then Finished(rows)
    else if fuel == 0 then StillRunning
    else match LookupItem(q, rows[next], joinedText)
      case None => Unhashable(next)
      case Some(c) => AliasedRowLoop(q, rows + [c], next + 1, joinedText, fuel - 1)
  }

  /** Every row appends one item behind the one being processed, so the loop never reaches the
      end of its list. */
  lemma {:induction false} AliasedRowLoopNeverFinishes(q: Profile, rows: seq<Cell>, next: nat,
                                                       joinedText: seq<Value> -> string, fuel: nat)
    requires next < |rows|
    ensures !AliasedRowLoop(q, rows, next, joinedText, fuel).Finished?
    decreases fuel
  {
    if fuel > 0 && LookupItem(q, rows[next], joinedText).Some? {
      var c := LookupItem(q, rows[next], joinedText).value;
      AliasedRowLoopNeverFinishes(q, rows + [c], next + 1, joinedText, fuel - 1);
    }
  }

  /** `q` declares no object value. */
  predicate NoObjectValues(q: Profile) {
    forall k :: k in q.settings ==> !q.settings[k].Object?
  }

  /** Without object values, what `q` appends can always be hashed. */
  lemma LookupStaysHashable(q: Profile, item: Cell, joinedText: seq<Value> -> string)
    requires NoObjectValues(q) && Hashable(item)
    ensures Hashable(LookupItem(q, item, joinedText).value)
  {
  }

  /** Without object values, no item raises either: the loop is still running after any number
      of rows. */
  lemma {:induction false} AliasedRowLoopRunsForever(q: Profile, rows: seq<Cell>, next: nat,
                                                     joinedText: seq<Value> -> string, fuel: nat)
    requires next < |rows| && NoObjectValues(q)
    requires forall j :: next <= j < |rows| ==> Hashable(rows[j])
    ensures AliasedRowLoop(q, rows, next, joinedText, fuel) == StillRunning
    decreases fuel
  {
    if fuel > 0 {
      LookupStaysHashable(q, rows[next], joinedText);
      var c := LookupItem(q, rows[next], joinedText).value;
      AliasedRowLoopRunsForever(q, rows + [c], next + 1, joinedText, fuel - 1);
    }
  }

  /** A chain profile named "setting_names" in a chain that declares some setting: the row loop
      over the chain's sorted labels never reaches its end. It runs forever when that profile
      declares no object value, and otherwise at most stops by raising TypeError. */
  lemma AliasedRowLoopNeverEnds(chain: seq<Profile>, i: nat, joinedText: seq<Value> -> string, fuel: nat)
    requires i < |chain| && chain[i].name == "setting_names"
    requires SettingKeys(chain) != {}
    ensures var r := AliasedRowLoop(chain[i], Labels(chain), 0, joinedText, fuel);
      && !r.Finished?
      && (NoObjectValues(chain[i]) ==> r == StillRunning)
  {
    var rows := Labels(chain);
    assert |rows| > 0 by {
      var k :| k in SettingKeys(chain);
    }
    AliasedRowLoopNeverFinishes(chain[i], rows, 0, joinedText, fuel);
    if NoObjectValues(chain[i]) {
      AliasedRowLoopRunsForever(chain[i], rows, 0, joinedText, fuel);
    }
  }

  /** The TypeError exit: a "setting_names" profile that declares `"foo": {"a": 1}` appends that
      object as the second item of the list, and the loop raises when it reaches it. */
  lemma AliasedRowLoopRaisesOnObject(q: Profile, joinedText: seq<Value> -> string, fuel: nat)
    requires q.name == "setting_names"
    requires q.settings == map["foo" := Object(map["a" := Int(1)])]
    requires fuel >= 2
    ensures AliasedRowLoop(q, Labels([q]), 0, joinedText, fuel) == Unhashable(1)
  {
    assert SettingKeys([q]) == {"foo"} by {
      assert [q][0] == q && "foo" in q.settings;
      forall k | k in SettingKeys([q]) ensures k == "foo" {
        var j :| 0 <= j < 1 && k in [q][j].settings;
      }
    }
    assert SortedKeys({"foo"}) == ["foo"];
    var rows := Labels([q]);
    assert rows == [Plain(Str("foo"))];
    var rows1 := rows + [Plain(Object(map["a" := Int(1)]))];
    assert AliasedRowLoop(q, rows, 0, joinedText, fuel) == AliasedRowLoop(q, rows1, 1, joinedText, fuel - 1);
  }

  /** The table built with the row labels kept apart from the columns ends for every chain, a
      profile named "setting_names" included, with one cell per setting in its column. */
  lemma SeparateLabelsEnd(chain: seq<Profile>, t: Table, i: nat)
    requires Compares(chain, t)
    requires i < |chain| && chain[|chain| - 1 - i].name == "setting_names"
    ensures t.columns[i].profileName == "setting_names"
    ensures |t.columns[i].cells| == |SettingKeys(chain)|
  {
  }
}
