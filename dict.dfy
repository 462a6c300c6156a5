/** Python's `dict[str, V]` as an insertion-ordered list of entries: iteration follows insertion,
    and assigning to a key that is already present keeps the key where it was. */
module Dict {
  import opened Json

  datatype Entry<V> = Entry(key: string, value: V)

  predicate KeysDistinct<V>(d: seq<Entry<V>>) {
    forall i, j :: 0 <= i < j < |d| ==> d[i].key != d[j].key
  }

  predicate HasKey<V>(d: seq<Entry<V>>, k: string) {
    exists i :: 0 <= i < |d| && d[i].key == k
  }

  /** Position of `k`, if present. */
  function IndexOf<V>(d: seq<Entry<V>>, k: string): (r: Option<nat>)
    ensures r.Some? ==> r.value < |d| && d[r.value].key == k && forall j :: 0 <= j < r.value ==> d[j].key != k
    ensures r.None? <==> !HasKey(d, k)
  {
    if |d| == 0 then None
    else if d[0].key == k then Some(0)
    else match IndexOf(d[1..], k)
      case None => None
      case Some(i) => Some(i + 1)
  }

  /** `d.get(k)`. */
  function Get<V>(d: seq<Entry<V>>, k: string): (r: Option<V>)
    ensures r.Some? <==> HasKey(d, k)
    ensures KeysDistinct(d) ==> forall i :: 0 <= i < |d| && d[i].key == k ==> r == Some(d[i].value)
  {
    match IndexOf(d, k)
    case Some(i) => Some(d[i].value)
    case None => None
  }

  /** `d.values()`, in iteration order. */
  function Values<V>(d: seq<Entry<V>>): (r: seq<V>)
    ensures |r| == |d|
    ensures forall i :: 0 <= i < |d| ==> r[i] == d[i].value
  {
    seq(|d|, i requires 0 <= i < |d| => d[i].value)
  }

  /** `d[k] = v`. */
  function Assign<V>(d: seq<Entry<V>>, k: string, v: V): (r: seq<Entry<V>>)
  {
    match IndexOf(d, k)
    case Some(i) => d[i := Entry(k, v)]
    case None => d + [Entry(k, v)]
  }

  /** After `d[k] = v` the key maps to `v`, every other key to what it mapped to before, no key
      is duplicated, and the iteration order of the keys is the old one, with a new key last. */
  lemma AssignSpec<V>(d: seq<Entry<V>>, k: string, v: V)
    requires KeysDistinct(d)
    ensures var r := Assign(d, k, v);
      && KeysDistinct(r)
      && Get(r, k) == Some(v)
      && (forall k' :: k' != k ==> Get(r, k') == Get(d, k'))
      && (HasKey(d, k) ==> |r| == |d| && forall i :: 0 <= i < |d| ==> r[i].key == d[i].key)
      && (!HasKey(d, k) ==> r == d + [Entry(k, v)])
  {
    var r := Assign(d, k, v);
    match IndexOf(d, k)
    case Some(i) =>
      assert r[i] == Entry(k, v);
      assert KeysDistinct(r);
      forall k' | k' != k ensures Get(r, k') == Get(d, k') {
        if HasKey(d, k') {
          var j :| 0 <= j < |d| && d[j].key == k';
          assert r[j] == d[j];
        } else {
          assert !HasKey(r, k');
        }
      }
    case None =>
      assert r[|d|] == Entry(k, v);
      forall k' | k' != k ensures Get(r, k') == Get(d, k') {
        if HasKey(d, k') {
          var j :| 0 <= j < |d| && d[j].key == k';
          assert r[j] == d[j];
        } else {
          assert !HasKey(r, k');
        }
      }
  }

  /** The values after `d[k] = v`: the entry for `k` is replaced in place or appended. */
  lemma AssignValues<V>(d: seq<Entry<V>>, k: string, v: V, x: V)
    requires KeysDistinct(d)
    ensures x in Values(Assign(d, k, v)) <==>
              x == v || exists i :: 0 <= i < |d| && d[i].key != k && d[i].value == x
  {
    var r := Assign(d, k, v);
    if x in Values(r) {
      var i :| 0 <= i < |r| && Values(r)[i] == x;
      if i < |d| && d[i].key != k {
        assert r[i] == d[i];
      }
    }
    if x == v {
      match IndexOf(d, k)
      case Some(i) => assert Values(r)[i] == v;
      case None => assert Values(r)[|d|] == v;
    } else if exists i :: 0 <= i < |d| && d[i].key != k && d[i].value == x {
      var i :| 0 <= i < |d| && d[i].key != k && d[i].value == x;
      assert r[i] == d[i];
      assert Values(r)[i] == x;
    }
  }
}
