/** File paths as `pathlib` presents them to the analyzers (POSIX flavour, separator "/"). */
module Paths {

  /** A path as its parts: `rooted` when it starts with "/", then the remaining segments. The loader
      builds paths with pathlib, so a segment never contains "/". */
  datatype Path = Path(rooted: bool, segments: seq<string>)

  predicate NoSlashInSegments(p: Path) {
    forall i :: 0 <= i < |p.segments| ==> '/' !in p.segments[i]
  }

  /** `Path(p).parts`: the root "/" counts as a part of its own. */
  function Parts(p: Path): (r: seq<string>)
    ensures |r| == |p.segments| + (if p.rooted then 1 else 0)
  {
    (if p.rooted then ["/"] else []) + p.segments
  }

  /** `Path(p).parent`; the root and the empty path are their own parent. */
  function Parent(p: Path): Path {
    if |p.segments| == 0 then p else Path(p.rooted, p.segments[..|p.segments| - 1])
  }

  /** `a.parent == b.parent`. */
  predicate SameDirectory(a: Path, b: Path) {
    Parts(Parent(a)) == Parts(Parent(b))
  }

  /** `"/".join(segs)`. */
  function Join(segs: seq<string>): string {
    if |segs| == 0 then ""
    else if |segs| == 1 then segs[0]
    else segs[0] + "/" + Join(segs[1..])
  }

  /** `str(p)`. */
  function Render(p: Path): string {
    if p.rooted then "/" + Join(p.segments)
    else if p.segments == [] then "."
    else Join(p.segments)
  }

  /** `s.split("/")`. */
  function Split(s: string): (r: seq<string>)
    ensures |r| >= 1
  {
    if s == [] then [""]
    else
      var rest := Split(s[1..]);
      if s[0] == '/' then [""] + rest else [[s[0]] + rest[0]] + rest[1..]
  }

  /** `needle in haystack` for strings. */
  predicate Contains(haystack: string, needle: string) {
    exists i :: 0 <= i <= |haystack| - |needle| && OccursAt(haystack, needle, i)
  }

  predicate OccursAt(haystack: string, needle: string, i: int)
    requires 0 <= i <= |haystack| - |needle|
  {
    haystack[i..i + |needle|] == needle
  }

  /** `haystack.startswith(needle)`. */
  predicate StartsWith(haystack: string, needle: string) {
    |needle| <= |haystack| && haystack[..|needle|] == needle
  }

  /** The suffix a duplicate profile's store key gets: the last two entries of
      `str(path.parent).split("/")`, joined by "/", or the only entry when there is one. */
  function DirSuffix(p: Path): string {
    var dirParts := Split(Render(Parent(p)));
    if |dirParts| >= 2 then dirParts[|dirParts| - 2] + "/" + dirParts[|dirParts| - 1]
    else dirParts[|dirParts| - 1]
  }

  /** Number of leading parts two paths share. */
  function CommonPrefixLength(a: seq<string>, b: seq<string>): (n: nat)
    ensures n <= |a| && n <= |b|
    ensures a[..n] == b[..n]
    ensures n < |a| && n < |b| ==> a[n] != b[n]
  {
    if |a| == 0 || |b| == 0 || a[0] != b[0] then 0
    else 1 + CommonPrefixLength(a[1..], b[1..])
  }

  /** Two lengths that both have the longest-common-prefix property are equal. */
  lemma CommonPrefixUnique(a: seq<string>, b: seq<string>, n: nat)
    requires n <= |a| && n <= |b| && a[..n] == b[..n]
    requires n < |a| && n < |b| ==> a[n] != b[n]
    ensures n == CommonPrefixLength(a, b)
  {
  }

  /** The counting loop of `_find_closest_profile`: walk both part lists until they differ. */
  method CountCommonParts(requestingParts: seq<string>, candidateParts: seq<string>) returns (commonLength: nat)
    ensures commonLength <= |requestingParts| && commonLength <= |candidateParts|
    ensures requestingParts[..commonLength] == candidateParts[..commonLength]
    ensures commonLength < |requestingParts| && commonLength < |candidateParts|
            ==> requestingParts[commonLength] != candidateParts[commonLength]
    ensures commonLength == CommonPrefixLength(requestingParts, candidateParts)
  {
    commonLength := 0;
    var minLen := if |requestingParts| < |candidateParts| then |requestingParts| else |candidateParts|;
    var i := 0;
    while i < minLen
      invariant 0 <= i <= minLen
      invariant commonLength == i
      invariant requestingParts[..i] == candidateParts[..i]
    {
      if requestingParts[i] == candidateParts[i] {
        commonLength := commonLength + 1;
      } else {
        break;
      }
      i := i + 1;
    }
    CommonPrefixUnique(requestingParts, candidateParts, commonLength);
  }

  // ---- Properties of the string forms ----

  lemma {:induction false} SplitNoSlashPrefix(a: string, t: string)
    requires '/' !in a
    ensures Split(a + t) == [a + Split(t)[0]] + Split(t)[1..]
  {
    if a != [] {
      assert (a + t)[1..] == a[1..] + t;
      SplitNoSlashPrefix(a[1..], t);
      assert [a[0]] + (a[1..] + Split(t)[0]) == a + Split(t)[0];
    } else {
      assert a + t == t;
      assert a + Split(t)[0] == Split(t)[0];
      assert [Split(t)[0]] + Split(t)[1..] == Split(t);
    }
  }

  /** Splitting a joined list of slash-free segments gives the segments back. */
  lemma {:induction false} SplitJoin(segs: seq<string>)
    requires |segs| >= 1
    requires forall i :: 0 <= i < |segs| ==> '/' !in segs[i]
    ensures Split(Join(segs)) == segs
  {
    if |segs| == 1 {
      SplitNoSlashPrefix(segs[0], "");
      assert segs[0] + "" == segs[0];
    } else {
      var rest := Join(segs[1..]);
      SplitJoin(segs[1..]);
      assert segs[0] + "/" + rest == segs[0] + ("/" + rest);
      SplitNoSlashPrefix(segs[0], "/" + rest);
      assert ("/" + rest)[1..] == rest;
      assert Split("/" + rest) == [""] + segs[1..];
      assert segs[0] + "" == segs[0];
      assert [segs[0]] + segs[1..] == segs;
    }
  }

  /** For a normalised path with at least two directories above the file, the store-key suffix is
      exactly the two innermost directory names. */
  lemma DirSuffixIsLastTwoDirectories(p: Path)
    requires NoSlashInSegments(p)
    requires |p.segments| >= 3
    ensures DirSuffix(p) == p.segments[|p.segments| - 3] + "/" + p.segments[|p.segments| - 2]
  {
    var dir := Parent(p).segments;
    assert forall i :: 0 <= i < |dir| ==> dir[i] == p.segments[i];
    SplitJoin(dir);
    if p.rooted {
      assert ("/" + Join(dir))[1..] == Join(dir);
    }
  }

  /** `Join` distributes over a cut of the segment list. */
  lemma {:induction false} JoinAt(segs: seq<string>, i: nat)
    requires 0 < i < |segs|
    ensures Join(segs) == Join(segs[..i]) + "/" + Join(segs[i..])
  {
    if i > 1 {
      JoinAt(segs[1..], i - 1);
      assert segs[1..][..i - 1] == segs[1..i];
      assert segs[1..][i - 1..] == segs[i..];
      assert segs[..i][1..] == segs[1..i];
    }
  }

  /** A segment strictly inside the list is rendered after a separator and before another. */
  lemma JoinAround(segs: seq<string>, i: nat)
    requires 0 < i && i + 1 < |segs|
    ensures Join(segs) == Join(segs[..i]) + "/" + (segs[i] + "/" + Join(segs[i + 1..]))
  {
    JoinAt(segs, i);
    var rest := segs[i..];
    assert rest[1..] == segs[i + 1..];
  }

  /** A segment between two separators is found with both of them. */
  lemma SlashSegmentInside(a: string, b: string, t: string)
    ensures Contains(a + "/" + (b + "/" + t), "/" + b + "/")
  {
    var h, needle := a + "/" + (b + "/" + t), "/" + b + "/";
    assert h[|a|..|a| + |needle|] == needle;
    assert OccursAt(h, needle, |a|);
  }

  /** A first segment after the root separator is found with both separators. */
  lemma SlashSegmentFirst(b: string, t: string)
    ensures Contains("/" + (b + "/" + t), "/" + b + "/")
  {
    var h, needle := "/" + (b + "/" + t), "/" + b + "/";
    assert h[..|needle|] == needle;
    assert OccursAt(h, needle, 0);
  }

  /** Text put in front keeps an occurrence. */
  lemma ContainsPrepend(a: string, h: string, needle: string)
    requires Contains(h, needle)
    ensures Contains(a + h, needle)
  {
    var k :| 0 <= k <= |h| - |needle| && OccursAt(h, needle, k);
    assert (a + h)[|a| + k..|a| + k + |needle|] == h[k..k + |needle|];
    assert OccursAt(a + h, needle, |a| + k);
  }

  /** A directory segment `name` (one that is neither the file name nor, in a relative path, the
      first part) shows up in `str(p)` as "/name/". */
  lemma DirectorySegmentInRender(p: Path, i: nat, name: string)
    requires i + 1 < |p.segments| && p.segments[i] == name
    requires p.rooted || i > 0
    ensures Contains(Render(p), "/" + name + "/")
  {
    var segs := p.segments;
    var tail := Join(segs[i + 1..]);
    if i == 0 {
      assert segs[1..] == segs[i + 1..];
      assert Render(p) == "/" + (name + "/" + tail);
      SlashSegmentFirst(name, tail);
    } else {
      JoinAround(segs, i);
      SlashSegmentInside(Join(segs[..i]), name, tail);
      if p.rooted {
        ContainsPrepend("/", Join(segs), "/" + name + "/");
      }
    }
  }

  /** `'/system/X' in s` and `s.startswith('system/X')` each imply `'system/X' in s`. */
  lemma ContainsSuffixOfNeedle(h: string, c: char, needle: string)
    requires Contains(h, [c] + needle)
    ensures Contains(h, needle)
  {
    var i :| 0 <= i <= |h| - |[c] + needle| && OccursAt(h, [c] + needle, i);
    assert h[i + 1..i + 1 + |needle|] == ([c] + needle)[1..];
    assert OccursAt(h, needle, i + 1);
  }

  lemma StartsWithContains(h: string, needle: string)
    requires StartsWith(h, needle)
    ensures Contains(h, needle)
  {
    assert OccursAt(h, needle, 0);
  }
}
