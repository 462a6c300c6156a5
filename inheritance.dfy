/** The inverse walk over the `inherits` edges, shared by both analyzers: direct children and the
    breadth-first descendant search guarded by a visited-name set. */
module Inheritance {
  import opened Json
  import opened Profiles
  import opened Seqs

  /** `profile.inherits == parent_name`. */
  predicate IsChildOf(p: Profile, parentName: string) {
    p.inherits == Some(parentName)
  }

  /** The profiles, in store order, that declare `parentName` as their parent. */
  function ChildrenOf(values: seq<Profile>, parentName: string): (children: seq<Profile>)
    ensures forall p :: p in children <==> p in values && IsChildOf(p, parentName)
  {
    Filter(values, p => IsChildOf(p, parentName))
  }

  /** `get_all_children`: one scan over the stored profiles. */
  method AllChildren(values: seq<Profile>, parentName: string) returns (children: seq<Profile>)
    ensures forall p :: p in children <==> p in values && IsChildOf(p, parentName)
    ensures children == ChildrenOf(values, parentName)
  {
    children := [];
    for i := 0 to |values|
      invariant children == ChildrenOf(values[..i], parentName)
    {
      assert values[..i + 1][..i] == values[..i];
      if IsChildOf(values[i], parentName) {
        children := children + [values[i]];
      }
    }
    assert values[..|values|] == values;
  }

  /** Every listed profile's parent is the start name or the name of a profile listed before it. */
  predicate ParentListedFirst(desc: seq<Profile>, root: string) {
    forall i :: 0 <= i < |desc| ==>
      IsChildOf(desc[i], root) || exists j :: 0 <= j < i && IsChildOf(desc[i], desc[j].name)
  }

  /** The children of the start name, and of every listed profile's name, are listed. */
  predicate ClosedUnderChildren(values: seq<Profile>, root: string, desc: seq<Profile>) {
    && (forall p :: p in values && IsChildOf(p, root) ==> p in desc)
    && (forall i, p :: 0 <= i < |desc| && p in values && IsChildOf(p, desc[i].name) ==> p in desc)
  }

  /** A chain of `inherits` edges leading down from `root`, through stored profiles. */
  ghost predicate DescentPath(values: seq<Profile>, root: string, path: seq<Profile>) {
    && |path| >= 1
    && (forall k :: 0 <= k < |path| ==> path[k] in values)
    && IsChildOf(path[0], root)
    && (forall k :: 0 <= k < |path| - 1 ==> IsChildOf(path[k + 1], path[k].name))
  }

  /** `p` inherits, directly or through other stored profiles, from the name `root`. */
  ghost predicate IsDescendant(values: seq<Profile>, root: string, p: Profile) {
    exists path :: DescentPath(values, root, path) && path[|path| - 1] == p
  }

  function NamesOf(ps: seq<Profile>): (names: seq<string>)
    ensures |names| == |ps| && forall i :: 0 <= i < |ps| ==> names[i] == ps[i].name
  {
    seq(|ps|, i requires 0 <= i < |ps| => ps[i].name)
  }

  /** The inner loop of `get_all_descendants`: each child not yet listed is listed and its name
      queued. */
  method ListNewChildren(descendants: seq<Profile>, toCheck: seq<string>, children: seq<Profile>)
    returns (newDescendants: seq<Profile>, newToCheck: seq<string>)
    requires Distinct(descendants)
    ensures |descendants| <= |newDescendants| && newDescendants[..|descendants|] == descendants
    ensures Distinct(newDescendants)
    ensures forall p :: p in children ==> p in newDescendants
    ensures forall i :: |descendants| <= i < |newDescendants| ==> newDescendants[i] in children
    ensures newToCheck == toCheck + NamesOf(newDescendants[|descendants|..])
  {
    newDescendants, newToCheck := descendants, toCheck;
    for c := 0 to |children|
      invariant |descendants| <= |newDescendants| && newDescendants[..|descendants|] == descendants
      invariant Distinct(newDescendants)
      invariant forall k :: 0 <= k < c ==> children[k] in newDescendants
      invariant forall i :: |descendants| <= i < |newDescendants| ==> newDescendants[i] in children
      invariant newToCheck == toCheck + NamesOf(newDescendants[|descendants|..])
    {
      var child := children[c];
      if child !in newDescendants {
        assert NamesOf((newDescendants + [child])[|descendants|..])
            == NamesOf(newDescendants[|descendants|..]) + [child.name];
        newDescendants := newDescendants + [child];
        newToCheck := newToCheck + [child.name];
      }
    }
  }

  /** Every queued name is the start name or the name of a listed profile. */
  ghost predicate QueueKnown(toCheck: seq<string>, root: string, desc: seq<Profile>) {
    forall k :: 0 <= k < |toCheck| ==> toCheck[k] == root || toCheck[k] in NamesOf(desc)
  }

  /** `get_all_descendants`: breadth-first over `inherits == name`, each profile listed once. */
  method AllDescendants(values: seq<Profile>, root: string) returns (descendants: seq<Profile>)
    ensures Distinct(descendants)
    ensures forall i :: 0 <= i < |descendants| ==> descendants[i] in values
    ensures ParentListedFirst(descendants, root)
    ensures ClosedUnderChildren(values, root, descendants)
  {
    descendants := [];
    var toCheck := [root];
    var visited: set<string> := {};
    ghost var universe := Elements(values);
    while toCheck != []
      invariant Distinct(descendants)
      invariant forall i :: 0 <= i < |descendants| ==> descendants[i] in values
      invariant ParentListedFirst(descendants, root)
      invariant QueueKnown(toCheck, root, descendants)
      invariant forall n, p :: n in visited && p in values && IsChildOf(p, n) ==> p in descendants
      invariant root in visited || root in toCheck
      invariant forall i :: 0 <= i < |descendants| ==>
        descendants[i].name in visited || descendants[i].name in toCheck
      invariant |descendants| <= |universe|
      decreases |universe| - |descendants|, |toCheck|
    {
      var current := toCheck[0];
      assert current == root || current in NamesOf(descendants);
      toCheck := toCheck[1..];
      if current in visited {
        continue;
      }
      visited := visited + {current};
      var children := AllChildren(values, current);
      ghost var old_descendants := descendants;
      ghost var old_toCheck := toCheck;
      descendants, toCheck := ListNewChildren(descendants, toCheck, children);
      NewChildrenKeepInvariants(values, root, current, old_descendants, descendants, old_toCheck, toCheck, children);
      VisitKeepsCoverage(values, root, current, visited - {current}, old_descendants, descendants,
                         old_toCheck, toCheck, children);
      DistinctBounded(descendants, universe);
    }
  }

  /** The bookkeeping step of the search loop: listing the children of `current` keeps the list
      duplicate-free, drawn from the store, ordered parents first, and the queue known. */
  lemma NewChildrenKeepInvariants(values: seq<Profile>, root: string, current: string,
                                  desc0: seq<Profile>, desc1: seq<Profile>,
                                  queue0: seq<string>, queue1: seq<string>, children: seq<Profile>)
    requires forall i :: 0 <= i < |desc0| ==> desc0[i] in values
    requires ParentListedFirst(desc0, root)
    requires QueueKnown(queue0, root, desc0)
    requires current == root || current in NamesOf(desc0)
    requires forall p :: p in children <==> p in values && IsChildOf(p, current)
    requires |desc0| <= |desc1| && desc1[..|desc0|] == desc0
    requires forall i :: |desc0| <= i < |desc1| ==> desc1[i] in children
    requires queue1 == queue0 + NamesOf(desc1[|desc0|..])
    ensures forall i :: 0 <= i < |desc1| ==> desc1[i] in values
    ensures ParentListedFirst(desc1, root)
    ensures QueueKnown(queue1, root, desc1)
  {
    forall i | 0 <= i < |desc1|
      ensures IsChildOf(desc1[i], root) || exists j :: 0 <= j < i && IsChildOf(desc1[i], desc1[j].name)
    {
      if i < |desc0| {
        assert desc1[i] == desc0[i];
        if !IsChildOf(desc0[i], root) {
          var j :| 0 <= j < i && IsChildOf(desc0[i], desc0[j].name);
          assert desc1[j] == desc0[j];
        }
      } else if current != root {
        var j :| 0 <= j < |desc0| && NamesOf(desc0)[j] == current;
        assert desc1[j] == desc0[j];
      }
    }
    forall k | 0 <= k < |queue1| ensures queue1[k] == root || queue1[k] in NamesOf(desc1) {
      if k < |queue0| {
        if queue0[k] != root {
          var j :| 0 <= j < |desc0| && NamesOf(desc0)[j] == queue0[k];
          assert NamesOf(desc1)[j] == queue1[k];
        }
      } else {
        var m := k - |queue0|;
        assert queue1[k] == desc1[|desc0| + m].name == NamesOf(desc1)[|desc0| + m];
      }
    }
  }

  /** The coverage step of the search loop: once `current` is visited and its children listed,
      every visited name has its children listed and every listed name is visited or queued. */
  lemma VisitKeepsCoverage(values: seq<Profile>, root: string, current: string, visited0: set<string>,
                           desc0: seq<Profile>, desc1: seq<Profile>,
                           queue0: seq<string>, queue1: seq<string>, children: seq<Profile>)
    requires forall n, p :: n in visited0 && p in values && IsChildOf(p, n) ==> p in desc0
    requires root in visited0 || root == current || root in queue0
    requires forall i :: 0 <= i < |desc0| ==> desc0[i].name in visited0 || desc0[i].name == current || desc0[i].name in queue0
    requires forall p :: p in children <==> p in values && IsChildOf(p, current)
    requires |desc0| <= |desc1| && desc1[..|desc0|] == desc0
    requires forall p :: p in children ==> p in desc1
    requires queue1 == queue0 + NamesOf(desc1[|desc0|..])
    ensures forall n, p :: n in visited0 + {current} && p in values && IsChildOf(p, n) ==> p in desc1
    ensures root in visited0 + {current} || root in queue1
    ensures forall i :: 0 <= i < |desc1| ==> desc1[i].name in visited0 + {current} || desc1[i].name in queue1
  {
    forall n, p | n in visited0 + {current} && p in values && IsChildOf(p, n) ensures p in desc1 {
      if n in visited0 {
        var i :| 0 <= i < |desc0| && desc0[i] == p;
        assert desc1[i] == p;
      }
    }
    assert forall k :: 0 <= k < |queue0| ==> queue1[k] == queue0[k];
    forall i | 0 <= i < |desc1| ensures desc1[i].name in visited0 + {current} || desc1[i].name in queue1 {
      if i < |desc0| {
        assert desc1[i] == desc0[i];
      } else {
        assert queue1[|queue0| + (i - |desc0|)] == desc1[i].name;
      }
    }
  }

  /** Each profile the search lists has a descent path from the start name. */
  lemma {:induction false} ListedHasPath(values: seq<Profile>, root: string, desc: seq<Profile>, i: nat)
    returns (path: seq<Profile>)
    requires ParentListedFirst(desc, root)
    requires forall k :: 0 <= k < |desc| ==> desc[k] in values
    requires i < |desc|
    ensures DescentPath(values, root, path) && path[|path| - 1] == desc[i]
    decreases i
  {
    if IsChildOf(desc[i], root) {
      path := [desc[i]];
    } else {
      var j :| 0 <= j < i && IsChildOf(desc[i], desc[j].name);
      var prefix := ListedHasPath(values, root, desc, j);
      path := prefix + [desc[i]];
    }
  }

  /** The end of every descent path is listed by a search result closed under children. */
  lemma {:induction false} PathEndListed(values: seq<Profile>, root: string, desc: seq<Profile>, path: seq<Profile>)
    requires ClosedUnderChildren(values, root, desc)
    requires DescentPath(values, root, path)
    ensures path[|path| - 1] in desc
    decreases |path|
  {
    if |path| > 1 {
      var prefix := path[..|path| - 1];
      assert DescentPath(values, root, prefix);
      PathEndListed(values, root, desc, prefix);
      var i :| 0 <= i < |desc| && desc[i] == prefix[|prefix| - 1];
      assert IsChildOf(path[|path| - 1], desc[i].name);
    }
  }

  /** What `AllDescendants` promises, read back as reachability: a stored profile is listed
      exactly when it inherits, directly or transitively, from the start name. */
  lemma DescendantsAreExactlyTheReachable(values: seq<Profile>, root: string, desc: seq<Profile>)
    requires forall i :: 0 <= i < |desc| ==> desc[i] in values
    requires ParentListedFirst(desc, root)
    requires ClosedUnderChildren(values, root, desc)
    ensures forall p :: p in desc <==> p in values && IsDescendant(values, root, p)
  {
    forall p | p in desc ensures IsDescendant(values, root, p) {
      var i :| 0 <= i < |desc| && desc[i] == p;
      var path := ListedHasPath(values, root, desc, i);
    }
    forall p | p in values && IsDescendant(values, root, p) ensures p in desc {
      var path :| DescentPath(values, root, path) && path[|path| - 1] == p;
      PathEndListed(values, root, desc, path);
    }
  }

  /** Consecutive profiles of a sequence are linked by `inherits`, as in an inheritance chain. */
  predicate Linked(chain: seq<Profile>) {
    forall i :: 0 <= i < |chain| - 1 ==> IsChildOf(chain[i], chain[i + 1].name)
  }

  /** Every profile of a chain descends from every profile that comes later in it. */
  lemma ChainEarlierDescendsFromLater(values: seq<Profile>, chain: seq<Profile>, i: nat, j: nat)
    requires Linked(chain)
    requires forall k :: 0 <= k < |chain| ==> chain[k] in values
    requires i < j < |chain|
    ensures IsDescendant(values, chain[j].name, chain[i])
  {
    var path := seq(j - i, m requires 0 <= m < j - i => chain[j - 1 - m]);
    assert DescentPath(values, chain[j].name, path);
  }

  /** So the descendant search started at a later chain member's name lists every earlier one. */
  lemma ChainEarlierIsListedDescendant(values: seq<Profile>, chain: seq<Profile>, i: nat, j: nat, desc: seq<Profile>)
    requires Linked(chain)
    requires forall k :: 0 <= k < |chain| ==> chain[k] in values
    requires i < j < |chain|
    requires ClosedUnderChildren(values, chain[j].name, desc)
    ensures chain[i] in desc
  {
    ChainEarlierDescendsFromLater(values, chain, i, j);
    var path :| DescentPath(values, chain[j].name, path) && path[|path| - 1] == chain[i];
    PathEndListed(values, chain[j].name, desc, path);
  }
}
