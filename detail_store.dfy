/** The `details` dict of the output file, keyed by detail URL, and how freshly
    fetched details are merged back into it.

    Two spellings of one page (with a query string, a fragment or a trailing '/')
    must not yield two entries, so keys are compared by their normalised URL: a
    fetched detail goes under the existing key with the same normal form, or under
    its own URL when there is none. The normaliser is a parameter `norm`; the
    scraper and the retry script pass `Urls.NormalizeDetailUrl`. */
module DetailStore {
  import opened Common
  import opened OrderedDicts

  type Norm = string -> string

  /** The index from normal form to key, as `{norm(k): k for k in keys}` builds it:
      for a normal form shared by several keys, the last of them. */
  function NormIndex(keys: seq<string>, norm: Norm): map<string, string>
  {
    if keys == [] then map[]
    else NormIndex(keys[..|keys| - 1], norm)[norm(keys[|keys| - 1]) := keys[|keys| - 1]]
  }

  /** Every key is reachable through the index, and the index points only at keys
      with the normal form it is filed under. */
  ghost predicate Indexed(keys: seq<string>, index: map<string, string>, norm: Norm)
  {
    (forall n :: n in index ==> norm(index[n]) == n && index[n] in keys)
    && (forall i :: 0 <= i < |keys| ==> norm(keys[i]) in index)
  }

  lemma {:induction false} NormIndexSpec(keys: seq<string>, norm: Norm)
    ensures Indexed(keys, NormIndex(keys, norm), norm)
    ensures forall i ::
      (0 <= i < |keys| && forall j :: i < j < |keys| ==> norm(keys[j]) != norm(keys[i]))
      ==> NormIndex(keys, norm)[norm(keys[i])] == keys[i]
  {
    if keys != [] {
      var init := keys[..|keys| - 1];
      NormIndexSpec(init, norm);
      assert forall i :: 0 <= i < |init| ==> init[i] == keys[i];
    }
  }

  /** The index loop of the fill-missing pass. */
  method BuildNormIndex(keys: seq<string>, norm: Norm) returns (index: map<string, string>)
    ensures index == NormIndex(keys, norm)
  {
    index := map[];
    for i := 0 to |keys|
      invariant index == NormIndex(keys[..i], norm)
    {
      assert keys[..i + 1][..i] == keys[..i];
      index := index[norm(keys[i]) := keys[i]];
    }
    assert keys[..|keys|] == keys;
  }

  /** The entries of an ordered dict as a map. */
  function AsMap<V>(d: Dict<V>): (m: map<string, V>)
    ensures m.Keys == set i | 0 <= i < |d| :: d[i].0
    ensures DistinctKeys(d) ==> forall i :: 0 <= i < |d| ==> m[d[i].0] == d[i].1
    ensures forall k :: k in m <==> k in Keys(d)
  {
    if d == [] then map[]
    else
      var init := d[..|d| - 1];
      assert forall i :: 0 <= i < |init| ==> init[i] == d[i];
      assert Keys(d) == Keys(init) + [d[|d| - 1].0];
      AsMap(init)[d[|d| - 1].0 := d[|d| - 1].1]
  }

  /** The store: details by key, and the index from normal form to key. */
  datatype Store = Store(details: map<string, Detail>, index: map<string, string>)

  /** Every key is reachable through the index, and the index points only at keys
      with the normal form it is filed under. */
  ghost predicate Consistent(st: Store, norm: Norm)
  {
    (forall n :: n in st.index ==> norm(st.index[n]) == n && st.index[n] in st.details)
    && (forall k :: k in st.details ==> norm(k) in st.index)
  }

  /** The store of an ordered `details` dict, indexed as the scripts index it. */
  function StoreOf(details: Dict<Detail>, norm: Norm): (st: Store)
    ensures Consistent(st, norm)
  {
    NormIndexSpec(Keys(details), norm);
    Store(AsMap(details), NormIndex(Keys(details), norm))
  }

  /** Merging one fetched detail: it goes under the key indexed for its normal
      form, or under its own URL, which the index then records. */
  function MergeOne(st: Store, entry: (string, Detail), norm: Norm): (r: Store)
    ensures Consistent(st, norm) ==> Consistent(r, norm)
    ensures st.details.Keys <= r.details.Keys
    ensures Consistent(st, norm) ==> r.details.Keys <= st.details.Keys + {entry.0}
    ensures forall n :: n in st.index ==> n in r.index && r.index[n] == st.index[n]
    ensures Consistent(st, norm) ==>
      forall k :: k in st.details && r.details[k] != st.details[k] ==> norm(k) == norm(entry.0)
    ensures norm(entry.0) in r.index && r.index[norm(entry.0)] in r.details
    ensures r.details[r.index[norm(entry.0)]] == entry.1
  {
    var n := norm(entry.0);
    var key := if n in st.index then st.index[n] else entry.0;
    Store(st.details[key := entry.1], st.index[n := key])
  }

  /** The store after merging `fetched` (URL to detail, in the order the fetcher
      returned them). */
  function MergeFetched(st: Store, fetched: Dict<Detail>, norm: Norm): Store
  {
    if fetched == [] then st
    else MergeOne(MergeFetched(st, fetched[..|fetched| - 1], norm), fetched[|fetched| - 1], norm)
  }

  /** The merge-back loop. */
  method MergeBack(st: Store, fetched: Dict<Detail>, norm: Norm) returns (merged: Store)
    ensures merged == MergeFetched(st, fetched, norm)
  {
    var details, index := st.details, st.index;
    for i := 0 to |fetched|
      invariant Store(details, index) == MergeFetched(st, fetched[..i], norm)
    {
      assert fetched[..i + 1][..i] == fetched[..i];
      var (url, detail) := fetched[i];
      var n := norm(url);
      var key := if n in index then index[n] else url;
      details := details[key := detail];
      index := index[n := key];
    }
    assert fetched[..|fetched|] == fetched;
    merged := Store(details, index);
  }

  /** Some fetched URL has the normal form `n`. */
  predicate Fetched(fetched: Dict<Detail>, n: string, norm: Norm)
  {
    fetched != [] && (norm(fetched[|fetched| - 1].0) == n || Fetched(fetched[..|fetched| - 1], n, norm))
  }

  /** The last fetched detail whose URL has the normal form `n`. */
  function LastFetched(fetched: Dict<Detail>, n: string, norm: Norm): Option<Detail>
  {
    if fetched == [] then None
    else if norm(fetched[|fetched| - 1].0) == n then Some(fetched[|fetched| - 1].1)
    else LastFetched(fetched[..|fetched| - 1], n, norm)
  }

  /** Merging keeps the store consistent, loses no key, and keeps the key of a
      normal form that already had one. */
  lemma {:induction false} MergeKeeps(st: Store, fetched: Dict<Detail>, norm: Norm)
    requires Consistent(st, norm)
    ensures var r := MergeFetched(st, fetched, norm);
      Consistent(r, norm)
      && st.details.Keys <= r.details.Keys
      && (forall n :: n in st.index ==> n in r.index && r.index[n] == st.index[n])
  {
    if fetched != [] {
      MergeKeeps(st, fetched[..|fetched| - 1], norm);
    }
  }

  /** Every new key is the raw URL of a fetched detail. */
  lemma {:induction false} MergeNewKeys(st: Store, fetched: Dict<Detail>, norm: Norm)
    requires Consistent(st, norm)
    ensures var r := MergeFetched(st, fetched, norm);
      forall k :: k in r.details && k !in st.details ==> k in Keys(fetched)
  {
    if fetched != [] {
      var init := fetched[..|fetched| - 1];
      var last := fetched[|fetched| - 1];
      MergeNewKeys(st, init, norm);
      MergeKeeps(st, init, norm);
      assert Keys(fetched) == Keys(init) + [last.0];
    }
  }

  /** Details whose normal form was not fetched keep their key and value. */
  lemma {:induction false} MergeUnfetchedUnchanged(st: Store, fetched: Dict<Detail>, norm: Norm)
    requires Consistent(st, norm)
    ensures var r := MergeFetched(st, fetched, norm);
      forall k :: k in st.details && !Fetched(fetched, norm(k), norm) ==> k in r.details && r.details[k] == st.details[k]
  {
    if fetched != [] {
      var init := fetched[..|fetched| - 1];
      var last := fetched[|fetched| - 1];
      MergeUnfetchedUnchanged(st, init, norm);
      MergeKeeps(st, init, norm);
    }
  }

  /** Each fetched normal form leads, through the index, to the last detail
      fetched for it. */
  lemma {:induction false} MergeLatest(st: Store, fetched: Dict<Detail>, norm: Norm)
    requires Consistent(st, norm)
    ensures var r := MergeFetched(st, fetched, norm);
      forall n :: LastFetched(fetched, n, norm).Some? ==>
        n in r.index && r.index[n] in r.details && r.details[r.index[n]] == LastFetched(fetched, n, norm).value
  {
    if fetched != [] {
      var init := fetched[..|fetched| - 1];
      var last := fetched[|fetched| - 1];
      MergeLatest(st, init, norm);
      MergeKeeps(st, init, norm);
      var s := MergeFetched(st, init, norm);
      var r := MergeOne(s, last, norm);
      forall n | LastFetched(fetched, n, norm).Some?
        ensures n in r.index && r.index[n] in r.details && r.details[r.index[n]] == LastFetched(fetched, n, norm).value
      {
        if n != norm(last.0) {
          assert norm(s.index[n]) == n;
        }
      }
    }
  }

  /** Merging into the store of a `details` dict keeps every old key, leaves the
      details whose normal form was not fetched unchanged, and adds only fetched
      URLs as keys. */
  lemma MergeIntoDetails(details: Dict<Detail>, fetched: Dict<Detail>, norm: Norm)
    requires DistinctKeys(details)
    ensures var r := MergeFetched(StoreOf(details, norm), fetched, norm).details;
      (forall i :: 0 <= i < |details| ==> details[i].0 in r)
      && (forall i :: 0 <= i < |details| && !Fetched(fetched, norm(details[i].0), norm) ==>
            r[details[i].0] == details[i].1)
      && (forall k :: k in r ==> k in Keys(details) || k in Keys(fetched))
      && (forall n :: LastFetched(fetched, n, norm).Some? ==>
            exists k :: k in r && norm(k) == n && r[k] == LastFetched(fetched, n, norm).value)
  {
    var st := StoreOf(details, norm);
    MergeKeeps(st, fetched, norm);
    MergeLatest(st, fetched, norm);
    MergeUnfetchedUnchanged(st, fetched, norm);
    MergeNewKeys(st, fetched, norm);
    forall i | 0 <= i < |details| ensures details[i].0 in st.details {
      assert Keys(details)[i] == details[i].0;
    }
  }
}
