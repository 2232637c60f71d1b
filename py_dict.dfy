/**
 * A Python `dict` with string keys: an insertion-ordered list of entries with distinct
 * keys. Reading a key (`d.get(k)`) gives the entry's value or nothing; assigning a key
 * (`d[k] = v`) overwrites an existing entry in place and appends a new one at the end,
 * which is the order `d.items()` later iterates in.
 */
module PyDict {
  import opened Wrappers

  predicate DistinctKeys<V>(d: seq<(string, V)>)
  {
    forall i, j :: 0 <= i < j < |d| ==> d[i].0 != d[j].0
  }

  type Dict<V> = d: seq<(string, V)> | DistinctKeys(d) witness []

  function Keys<V>(d: Dict<V>): (ks: seq<string>)
    ensures |ks| == |d| && forall i :: 0 <= i < |d| ==> ks[i] == d[i].0
  {
    seq(|d|, i requires 0 <= i < |d| => d[i].0)
  }

  predicate HasKey<V>(d: Dict<V>, k: string)
  {
    exists i :: 0 <= i < |d| && d[i].0 == k
  }

  /** Position of the entry for `k`, or -1. */
  function IndexOf<V>(d: seq<(string, V)>, k: string): (i: int)
    ensures -1 <= i < |d|
    ensures i == -1 <==> forall j :: 0 <= j < |d| ==> d[j].0 != k
    ensures i != -1 ==> d[i].0 == k
  {
    if d == [] then -1
    else if d[0].0 == k then 0
    else
      var i := IndexOf(d[1..], k);
      assert forall j :: 1 <= j < |d| ==> d[j] == d[1..][j - 1];
      if i == -1 then -1 else i + 1
  }

  /** In a dict, the entry whose key is `d[i].0` is entry `i`. */
  lemma IndexOfAt<V>(d: Dict<V>, i: nat)
    requires i < |d|
    ensures IndexOf(d, d[i].0) == i
  {
  }

  /** `d.get(k)`. */
  function Get<V>(d: Dict<V>, k: string): (r: Option<V>)
    ensures r.None? <==> !HasKey(d, k)
  {
    var i := IndexOf(d, k);
    if i == -1 then None else Some(d[i].1)
  }

  /** The value at entry `i` is what `get` returns for its key. */
  lemma GetAt<V>(d: Dict<V>, i: nat)
    requires i < |d|
    ensures Get(d, d[i].0) == Some(d[i].1)
  {
    IndexOfAt(d, i);
  }

  /** `d.get(k, default)`. */
  function GetOr<V>(d: Dict<V>, k: string, default: V): V
  {
    match Get(d, k)
    case Some(v) => v
    case None => default
  }

  /** `d[k] = v`. */
  function Set<V>(d: Dict<V>, k: string, v: V): (r: Dict<V>)
    ensures Get(r, k) == Some(v)
    ensures forall k' :: k' != k ==> Get(r, k') == Get(d, k')
    ensures HasKey(d, k) ==> |r| == |d|
    ensures !HasKey(d, k) ==> r == d + [(k, v)]
    ensures |r| >= |d| && forall i :: 0 <= i < |d| ==> r[i].0 == d[i].0
    ensures Get(d, k) == Some(v) ==> r == d
  {
    var i := IndexOf(d, k);
    var r: seq<(string, V)> := if i == -1 then d + [(k, v)] else d[i := (k, v)];
    assert forall j :: 0 <= j < |d| ==> r[j].0 == d[j].0;
    assert DistinctKeys(r);
    var n := if i == -1 then |d| else i;
    assert r[n] == (k, v);
    IndexOfAt(r, n);
    forall k' | k' != k ensures Get(r, k') == Get(d, k') {
      var j := IndexOf(d, k');
      if j != -1 {
        assert r[j] == d[j];
        IndexOfAt(r, j);
      } else {
        assert forall m :: 0 <= m < |r| ==> r[m].0 != k';
      }
    }
    r
  }
}
