/** Python dicts remember the order in which keys were first inserted; where that order
    is visible to the program, a dict is modelled as a sequence of (key, value) entries
    with distinct keys. `d[k] = v` replaces the value in place when `k` is present and
    appends otherwise. */
module OrderedDicts {
  import opened Common

  type Dict<V> = seq<(string, V)>

  ghost predicate DistinctKeys<V>(d: Dict<V>) {
    forall i, j :: 0 <= i < j < |d| ==> d[i].0 != d[j].0
  }

  function Keys<V>(d: Dict<V>): (ks: seq<string>)
    ensures |ks| == |d|
    ensures forall i :: 0 <= i < |d| ==> ks[i] == d[i].0
  {
    seq(|d|, i requires 0 <= i < |d| => d[i].0)
  }

  function Values<V>(d: Dict<V>): (vs: seq<V>)
    ensures |vs| == |d|
    ensures forall i :: 0 <= i < |d| ==> vs[i] == d[i].1
  {
    seq(|d|, i requires 0 <= i < |d| => d[i].1)
  }

  /** Position of key `k` in `d`, or `|d|` when `k` is not a key. */
  function IndexOfKey<V>(d: Dict<V>, k: string): (i: nat)
    ensures i <= |d|
    ensures i < |d| ==> d[i].0 == k
    ensures forall j :: 0 <= j < i ==> d[j].0 != k
  {
    if d == [] then 0 else if d[0].0 == k then 0 else 1 + IndexOfKey(d[1..], k)
  }

  lemma IndexOfKeyUnique<V>(d: Dict<V>, k: string, i: nat)
    requires i <= |d| && (i < |d| ==> d[i].0 == k)
    requires forall j :: 0 <= j < i ==> d[j].0 != k
    ensures IndexOfKey(d, k) == i
  {
  }

  /** `d.get(k)`. */
  function Get<V>(d: Dict<V>, k: string): (r: Option<V>)
    ensures r.None? <==> k !in Keys(d)
    ensures r.Some? ==> (k, r.value) in d
  {
    var i := IndexOfKey(d, k);
    if i < |d| then Some(d[i].1) else None
  }

  /** `d[k] = v`. */
  function Put<V>(d: Dict<V>, k: string, v: V): (r: Dict<V>)
    ensures k in Keys(d) ==> Keys(r) == Keys(d)
    ensures k !in Keys(d) ==> Keys(r) == Keys(d) + [k]
    ensures Get(r, k) == Some(v)
    ensures forall k' :: k' != k ==> Get(r, k') == Get(d, k')
    ensures DistinctKeys(d) ==> DistinctKeys(r)
  {
    var i := IndexOfKey(d, k);
    var r := if i < |d| then d[i := (k, v)] else d + [(k, v)];
    IndexOfKeyUnique(r, k, i);
    forall k' | k' != k ensures Get(r, k') == Get(d, k') {
      var j := IndexOfKey(d, k');
      if j < |d| {
        IndexOfKeyUnique(r, k', j);
      } else {
        IndexOfKeyUnique(r, k', |r|);
      }
    }
    r
  }

  /** The value of the last pair in `ps` whose key is `k`. */
  function LastWith<V>(ps: seq<(string, V)>, k: string): Option<V>
  {
    if ps == [] then None
    else if ps[|ps| - 1].0 == k then Some(ps[|ps| - 1].1)
    else LastWith(ps[..|ps| - 1], k)
  }

  /** The elements of `s` without repetitions, in the order of their first occurrence. */
  function DedupFirst<T(==)>(s: seq<T>): seq<T>
  {
    if s == [] then []
    else
      var p := DedupFirst(s[..|s| - 1]);
      if s[|s| - 1] in p then p else p + [s[|s| - 1]]
  }

  ghost predicate Distinct<T>(s: seq<T>) {
    forall i, j :: 0 <= i < j < |s| ==> s[i] != s[j]
  }

  /** What `DedupFirst` promises: no repetitions, the same elements, and the
      result for every prefix of the input is a prefix of the result (which fixes
      the order as the order of first occurrence). */
  lemma {:induction false} DedupFirstSpec<T>(s: seq<T>)
    ensures Distinct(DedupFirst(s))
    ensures forall x :: x in DedupFirst(s) <==> x in s
    ensures forall n :: 0 <= n <= |s| ==> IsPrefixOf(DedupFirst(s[..n]), DedupFirst(s))
  {
    if s != [] {
      var init := s[..|s| - 1];
      DedupFirstSpec(init);
      forall n | 0 <= n <= |s| ensures IsPrefixOf(DedupFirst(s[..n]), DedupFirst(s)) {
        if n == |s| {
          assert s[..n] == s;
        } else {
          assert s[..n] == init[..n];
        }
      }
    }
  }

  ghost predicate IsPrefixOf<T>(p: seq<T>, s: seq<T>) {
    |p| <= |s| && s[..|p|] == p
  }

  /** Building a dict by assigning every pair of `ps` in turn. */
  function PutAll<V>(d: Dict<V>, ps: seq<(string, V)>): Dict<V>
  {
    if ps == [] then d
    else Put(PutAll(d, ps[..|ps| - 1]), ps[|ps| - 1].0, ps[|ps| - 1].1)
  }

  /** A dict built from pairs keeps one entry per distinct key, in the order of the
      key's first occurrence, holding the value of the key's last occurrence. */
  lemma {:induction false} PutAllSpec<V>(ps: seq<(string, V)>)
    ensures Keys(PutAll([], ps)) == DedupFirst(Keys(ps))
    ensures forall k :: Get(PutAll([], ps), k) == LastWith(ps, k)
    ensures DistinctKeys(PutAll([], ps))
  {
    if ps != [] {
      var init := ps[..|ps| - 1];
      PutAllSpec(init);
      DedupFirstSpec(Keys(init));
      assert Keys(ps)[..|ps| - 1] == Keys(init);
    }
  }
}
