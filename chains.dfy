/** The inheritance-chain walk shared by both analyzers: starting from a name, resolve it, step to
    the resolved profile's `inherits`, and stop at a missing parent, an unresolvable name, or a
    name already requested. The analyzers differ only in how a name is resolved. */
module Chains {
  import opened Json
  import opened Paths
  import opened Profiles
  import opened Seqs
  import opened Inheritance

  /** A resolver: a name and the file of the profile asking for it (None for the first request)
      to the profile found, if any. */
  type Resolver = (string, Option<Path>) -> Option<Profile>

  /** Every name the resolver finds something for lies in `names`. */
  ghost predicate FindsOnlyIn(resolve: Resolver, names: set<string>) {
    forall n, r :: resolve(n, r).Some? ==> n in names
  }

  /** The resolver only ever returns a profile carrying the name asked for. */
  ghost predicate KeepsName(resolve: Resolver) {
    forall n, r :: resolve(n, r).Some? ==> resolve(n, r).value.name == n
  }

  /** The resolver only ever returns one of `values`. */
  ghost predicate FindsAmong(resolve: Resolver, values: seq<Profile>) {
    forall n, r :: resolve(n, r).Some? ==> resolve(n, r).value in values
  }

  /** The name the walk moves to next: `profile.inherits`, where None and "" both stop it. */
  function NextName(p: Profile): string {
    match p.inherits
    case Some(n) => n
    case None => ""
  }

  /** Visiting one more name of `names` leaves fewer of them unvisited. */
  lemma VisitShrinksUnvisited(names: set<string>, visited: set<string>, current: string)
    requires current in names && current !in visited
    ensures |names - (visited + {current})| < |names - visited|
  {
    assert names - visited == (names - (visited + {current})) + {current};
  }

  /** The rest of the walk from `current`, the previous profile having been found at `requesting`
      and the names in `visited` having been requested already. */
  function Walk(resolve: Resolver, names: set<string>, current: string, requesting: Option<Path>,
                visited: set<string>): seq<Profile>
    requires FindsOnlyIn(resolve, names)
    decreases |names - visited|
  {
    if current == "" || current in visited then []
    else match resolve(current, requesting)
      case None => []
      case Some(p) =>
        VisitShrinksUnvisited(names, visited, current);
        [p] + Walk(resolve, names, NextName(p), Some(p.filePath), visited + {current})
  }

  /** One step: a non-empty walk is the resolved profile followed by the walk from its parent
      name, resolved with the resolved profile's own file. */
  lemma WalkStep(resolve: Resolver, names: set<string>, current: string, requesting: Option<Path>,
                 visited: set<string>)
    requires FindsOnlyIn(resolve, names)
    requires Walk(resolve, names, current, requesting, visited) != []
    ensures current != "" && current !in visited && resolve(current, requesting).Some?
    ensures var p := resolve(current, requesting).value;
      Walk(resolve, names, current, requesting, visited)
        == [p] + Walk(resolve, names, NextName(p), Some(p.filePath), visited + {current})
    ensures |names - (visited + {current})| < |names - visited|
  {
    VisitShrinksUnvisited(names, visited, current);
  }

  /** The walk from a name not yet requested that resolves to `p` is `p` followed by the walk from
      `p`'s parent name. */
  lemma WalkFound(resolve: Resolver, names: set<string>, current: string, requesting: Option<Path>,
                  visited: set<string>, p: Profile, done: seq<Profile>)
    requires FindsOnlyIn(resolve, names)
    requires current != "" && current !in visited && resolve(current, requesting) == Some(p)
    ensures done + Walk(resolve, names, current, requesting, visited)
              == (done + [p]) + Walk(resolve, names, NextName(p), Some(p.filePath), visited + {current})
    ensures |names - (visited + {current})| < |names - visited|
  {
    VisitShrinksUnvisited(names, visited, current);
    var rest := Walk(resolve, names, NextName(p), Some(p.filePath), visited + {current});
    assert done + ([p] + rest) == (done + [p]) + rest;
  }

  /** The walk from a name that resolves to nothing is empty. */
  lemma WalkNotFound(resolve: Resolver, names: set<string>, current: string, requesting: Option<Path>,
                     visited: set<string>)
    requires FindsOnlyIn(resolve, names)
    requires resolve(current, requesting).None?
    ensures Walk(resolve, names, current, requesting, visited) == []
  {
  }

  /** The walk is empty once the name is "", already visited, or finds nothing. */
  lemma WalkStops(resolve: Resolver, names: set<string>, current: string, requesting: Option<Path>,
                  visited: set<string>)
    requires FindsOnlyIn(resolve, names)
    requires current == "" || current in visited || resolve(current, requesting).None?
    ensures Walk(resolve, names, current, requesting, visited) == []
  {
  }

  /** Starting a walk: it is empty exactly when the name is "" or finds nothing, and otherwise
      begins with what the name resolves to. */
  lemma WalkStart(resolve: Resolver, names: set<string>, name: string)
    requires FindsOnlyIn(resolve, names)
    ensures Walk(resolve, names, name, None, {}) == [] <==> name == "" || resolve(name, None).None?
    ensures Walk(resolve, names, name, None, {}) != [] ==> Walk(resolve, names, name, None, {})[0] == resolve(name, None).value
  {
  }

  /** Every element of the walk was returned by the resolver for a name not requested before; with
      a name-keeping resolver, the first element carries the start name. */
  lemma {:induction false} WalkMembers(resolve: Resolver, names: set<string>, current: string,
                                       requesting: Option<Path>, visited: set<string>)
    requires FindsOnlyIn(resolve, names) && KeepsName(resolve)
    ensures var c := Walk(resolve, names, current, requesting, visited);
      && (forall i :: 0 <= i < |c| ==> c[i].name in names && c[i].name !in visited)
      && (|c| > 0 ==> c[0].name == current)
    decreases |names - visited|
  {
    var c := Walk(resolve, names, current, requesting, visited);
    if c != [] {
      WalkStep(resolve, names, current, requesting, visited);
      var p := resolve(current, requesting).value;
      WalkMembers(resolve, names, NextName(p), Some(p.filePath), visited + {current});
    }
  }

  /** Every element of the walk is one of the resolver's `values`. */
  lemma {:induction false} WalkStored(resolve: Resolver, names: set<string>, values: seq<Profile>,
                                      current: string, requesting: Option<Path>, visited: set<string>)
    requires FindsOnlyIn(resolve, names) && FindsAmong(resolve, values)
    ensures var c := Walk(resolve, names, current, requesting, visited);
      forall i :: 0 <= i < |c| ==> c[i] in values
    decreases |names - visited|
  {
    var c := Walk(resolve, names, current, requesting, visited);
    if c != [] {
      WalkStep(resolve, names, current, requesting, visited);
      var p := resolve(current, requesting).value;
      WalkStored(resolve, names, values, NextName(p), Some(p.filePath), visited + {current});
      assert forall i :: 1 <= i < |c| ==> c[i] == Walk(resolve, names, NextName(p), Some(p.filePath), visited + {current})[i - 1];
    }
  }

  /** Each element of the walk names the next one as its parent. */
  lemma {:induction false} WalkLinked(resolve: Resolver, names: set<string>, current: string,
                                      requesting: Option<Path>, visited: set<string>)
    requires FindsOnlyIn(resolve, names) && KeepsName(resolve)
    ensures Linked(Walk(resolve, names, current, requesting, visited))
    decreases |names - visited|
  {
    var c := Walk(resolve, names, current, requesting, visited);
    if c != [] {
      WalkStep(resolve, names, current, requesting, visited);
      var p := resolve(current, requesting).value;
      var rest := Walk(resolve, names, NextName(p), Some(p.filePath), visited + {current});
      WalkLinked(resolve, names, NextName(p), Some(p.filePath), visited + {current});
      if rest != [] {
        WalkMembers(resolve, names, NextName(p), Some(p.filePath), visited + {current});
        WalkStep(resolve, names, NextName(p), Some(p.filePath), visited + {current});
        assert IsChildOf(c[0], c[1].name);
      }
      assert forall i :: 1 <= i < |c| - 1 ==> c[i] == rest[i - 1] && c[i + 1] == rest[i];
    }
  }

  /** No name occurs twice in the walk. */
  lemma {:induction false} WalkDistinct(resolve: Resolver, names: set<string>, current: string,
                                        requesting: Option<Path>, visited: set<string>)
    requires FindsOnlyIn(resolve, names) && KeepsName(resolve)
    ensures Distinct(NamesOf(Walk(resolve, names, current, requesting, visited)))
    decreases |names - visited|
  {
    var c := Walk(resolve, names, current, requesting, visited);
    if c != [] {
      WalkStep(resolve, names, current, requesting, visited);
      var p := resolve(current, requesting).value;
      var rest := Walk(resolve, names, NextName(p), Some(p.filePath), visited + {current});
      WalkDistinct(resolve, names, NextName(p), Some(p.filePath), visited + {current});
      WalkMembers(resolve, names, NextName(p), Some(p.filePath), visited + {current});
      forall i, j | 0 <= i < j < |c| ensures NamesOf(c)[i] != NamesOf(c)[j] {
        assert c[j] == rest[j - 1];
        if i > 0 {
          assert c[i] == rest[i - 1];
          assert NamesOf(rest)[i - 1] != NamesOf(rest)[j - 1];
        }
      }
    }
  }

  /** Each hop after the first resolves the previous element's parent name with the previous
      element's file as the requesting path. */
  lemma {:induction false} WalkHopsUsePreviousPath(resolve: Resolver, names: set<string>, current: string,
                                                   requesting: Option<Path>, visited: set<string>, i: nat)
    requires FindsOnlyIn(resolve, names)
    requires 0 < i < |Walk(resolve, names, current, requesting, visited)|
    ensures var c := Walk(resolve, names, current, requesting, visited);
      c[i - 1].inherits.Some? && resolve(c[i - 1].inherits.value, Some(c[i - 1].filePath)) == Some(c[i])
    decreases |names - visited|
  {
    WalkStep(resolve, names, current, requesting, visited);
    var p := resolve(current, requesting).value;
    if i > 1 {
      WalkHopsUsePreviousPath(resolve, names, NextName(p), Some(p.filePath), visited + {current}, i - 1);
    } else {
      WalkStep(resolve, names, NextName(p), Some(p.filePath), visited + {current});
    }
  }

  /** The walk stops after its last element exactly because that element has no parent name, its
      parent name was requested already (before the walk or within it), or the parent name
      resolves to nothing: a dangling `inherits` ends the chain silently. */
  lemma {:induction false} WalkEnd(resolve: Resolver, names: set<string>, current: string,
                                   requesting: Option<Path>, visited: set<string>)
    requires FindsOnlyIn(resolve, names) && KeepsName(resolve)
    requires Walk(resolve, names, current, requesting, visited) != []
    ensures var c := Walk(resolve, names, current, requesting, visited);
      var last := c[|c| - 1];
      var next := NextName(last);
      || next == ""
      || next in visited
      || (exists m :: 0 <= m < |c| && c[m].name == next)
      || resolve(next, Some(last.filePath)).None?
    decreases |names - visited|
  {
    var c := Walk(resolve, names, current, requesting, visited);
    WalkStep(resolve, names, current, requesting, visited);
    var p := resolve(current, requesting).value;
    var rest := Walk(resolve, names, NextName(p), Some(p.filePath), visited + {current});
    if rest != [] {
      WalkEnd(resolve, names, NextName(p), Some(p.filePath), visited + {current});
      var next := NextName(rest[|rest| - 1]);
      assert c[|c| - 1] == rest[|rest| - 1];
      if exists m :: 0 <= m < |rest| && rest[m].name == next {
        var m :| 0 <= m < |rest| && rest[m].name == next;
        assert c[m + 1].name == next;
      } else if next == current {
        assert c[0].name == next;
      }
    } else if NextName(p) == current {
      assert c[0].name == NextName(p);
    }
  }
}
