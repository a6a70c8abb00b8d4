// The one-off patch script: it replaces the AMD 2019 and 2024 listings of the
// main output file by those of a separately scraped file, de-duplicates the
// result by detail URL and re-counts the matching filter entries.

module ListingPatch {
  import opened Common
  import opened OrderedDicts
  import opened Text

  /** A prior listing the patch throws away: AMD, from 2019 or 2024. */
  predicate Replaced(x: Listing) {
    x.manufacturer == "AMD" && (x.year == 2019 || x.year == 2024)
  }

  /** The prior listings that survive, in their order. */
  function Kept(prior: seq<Listing>): (r: seq<Listing>)
    ensures forall x :: x in r <==> x in prior && !Replaced(x)
  {
    if prior == [] then []
    else
      var x := prior[|prior| - 1];
      Kept(prior[..|prior| - 1]) + (if Replaced(x) then [] else [x])
  }

  /** Filtering keeps the relative order: it distributes over concatenation. */
  lemma {:induction false} KeptAppend(a: seq<Listing>, b: seq<Listing>)
    ensures Kept(a + b) == Kept(a) + Kept(b)
  {
    if b == [] {
      assert a + b == a;
    } else {
      var init := b[..|b| - 1];
      assert (a + b)[..|a + b| - 1] == a + init;
      assert (a + b)[|a + b| - 1] == b[|b| - 1];
      KeptAppend(a, init);
    }
  }

  /** The de-duplication key: the detail URL without trailing slashes. */
  function DedupKey(x: Listing): string {
    RStripChar(x.detailUrl, '/')
  }

  /** The assignments `seen[u] = item` the de-duplication loop performs:
      one per item with a non-empty key, in item order. */
  function KeyedPairs(items: seq<Listing>): (ps: seq<(string, Listing)>)
    ensures |ps| <= |items|
  {
    if items == [] then []
    else
      var x := items[|items| - 1];
      var ps := KeyedPairs(items[..|items| - 1]);
      if DedupKey(x) != "" then ps + [(DedupKey(x), x)] else ps
  }

  /** `list(seen.values())` after the loop. */
  function Deduped(items: seq<Listing>): seq<Listing> {
    Values(PutAll([], KeyedPairs(items)))
  }

  /** The non-empty keys of `items`, in item order, repetitions included. */
  function KeysOf(items: seq<Listing>): seq<string> {
    Keys(KeyedPairs(items))
  }

  /** An item whose key is non-empty contributes that key. */
  lemma {:induction false} KeyedPairsCover(items: seq<Listing>, x: Listing)
    requires x in items && DedupKey(x) != ""
    ensures DedupKey(x) in KeysOf(items)
  {
    var init := items[..|items| - 1];
    var ps := KeyedPairs(items);
    if x == items[|items| - 1] {
      assert ps[|ps| - 1] == (DedupKey(x), x);
      assert Keys(ps)[|ps| - 1] == DedupKey(x);
    } else {
      assert x in init;
      KeyedPairsCover(init, x);
      var j :| 0 <= j < |KeysOf(init)| && KeysOf(init)[j] == DedupKey(x);
      assert ps[j] == KeyedPairs(init)[j];
      assert Keys(ps)[j] == DedupKey(x);
    }
  }

  /** The pair last assigned under key `u` carries an item with that key. */
  lemma {:induction false} LastKeyed(items: seq<Listing>, u: string)
    requires LastWith(KeyedPairs(items), u).Some?
    ensures var x := LastWith(KeyedPairs(items), u).value; u != "" && DedupKey(x) == u && x in items
  {
    var ps := KeyedPairs(items);
    var init := items[..|items| - 1];
    var x := items[|items| - 1];
    if DedupKey(x) != "" && DedupKey(x) == u {
      assert ps[|ps| - 1] == (u, x);
    } else {
      if DedupKey(x) != "" {
        assert ps[..|ps| - 1] == KeyedPairs(init);
      }
      LastKeyed(init, u);
    }
  }

  /** Each entry of the dict the loop builds holds, under its key, the last item
      assigned with that key. */
  lemma SeenEntry(items: seq<Listing>, i: nat)
    requires i < |PutAll([], KeyedPairs(items))|
    ensures var e := PutAll([], KeyedPairs(items))[i];
      e.0 != "" && DedupKey(e.1) == e.0 && Some(e.1) == LastWith(KeyedPairs(items), e.0) && e.1 in items
  {
    var ps := KeyedPairs(items);
    var d := PutAll([], ps);
    PutAllSpec(ps);
    IndexOfKeyUnique(d, d[i].0, i);
    LastKeyed(items, d[i].0);
  }

  /** The de-duplicated listings: one per non-empty key, the keys distinct and in
      the order of their first occurrence, each holding the last item with that
      key. */
  lemma DedupedSpec(items: seq<Listing>)
    ensures var r := Deduped(items);
      |r| == |DedupFirst(KeysOf(items))|
      && (forall i :: 0 <= i < |r| ==> DedupKey(r[i]) == DedupFirst(KeysOf(items))[i])
      && (forall i :: 0 <= i < |r| ==> Some(r[i]) == LastWith(KeyedPairs(items), DedupKey(r[i])))
      && (forall i, j :: 0 <= i < j < |r| ==> DedupKey(r[i]) != DedupKey(r[j]))
  {
    var d := PutAll([], KeyedPairs(items));
    var r := Deduped(items);
    var ks := DedupFirst(KeysOf(items));
    PutAllSpec(KeyedPairs(items));
    assert r == Values(d);
    assert Keys(d) == ks;
    assert |r| == |ks|;
    forall i | 0 <= i < |r|
      ensures DedupKey(r[i]) == ks[i] && Some(r[i]) == LastWith(KeyedPairs(items), DedupKey(r[i]))
    {
      SeenEntry(items, i);
      assert r[i] == d[i].1 && ks[i] == d[i].0;
    }
    DedupFirstSpec(KeysOf(items));
  }

  /** Every de-duplicated listing is one of the items, and has a non-empty key. */
  lemma DedupedFromItems(items: seq<Listing>)
    ensures forall x :: x in Deduped(items) ==> x in items && DedupKey(x) != ""
  {
    var r := Deduped(items);
    forall x | x in r ensures x in items && DedupKey(x) != "" {
      var i :| 0 <= i < |r| && r[i] == x;
      SeenEntry(items, i);
    }
  }

  /** Every item with a non-empty key has its key represented. */
  lemma DedupedCovers(items: seq<Listing>, x: Listing)
    requires x in items && DedupKey(x) != ""
    ensures exists i :: 0 <= i < |Deduped(items)| && DedupKey(Deduped(items)[i]) == DedupKey(x)
  {
    var ks := DedupFirst(KeysOf(items));
    KeyedPairsCover(items, x);
    DedupFirstSpec(KeysOf(items));
    assert DedupKey(x) in ks;
    var i :| 0 <= i < |ks| && ks[i] == DedupKey(x);
    DedupedSpec(items);
    assert DedupKey(Deduped(items)[i]) == DedupKey(x);
  }

  /** One more item: the loop assigns it when its key is non-empty. */
  lemma KeyedPairsStep(items: seq<Listing>, i: nat)
    requires i < |items|
    ensures DedupKey(items[i]) == "" ==> PutAll([], KeyedPairs(items[..i + 1])) == PutAll([], KeyedPairs(items[..i]))
    ensures DedupKey(items[i]) != "" ==>
      PutAll([], KeyedPairs(items[..i + 1])) == Put(PutAll([], KeyedPairs(items[..i])), DedupKey(items[i]), items[i])
  {
    var pre := items[..i + 1];
    assert pre[..i] == items[..i];
    assert pre[|pre| - 1] == items[i];
    if DedupKey(items[i]) != "" {
      var ps := KeyedPairs(pre);
      assert ps[..|ps| - 1] == KeyedPairs(items[..i]);
    }
  }

  /** The de-duplication loop. */
  method DedupByUrl(items: seq<Listing>) returns (listings: seq<Listing>)
    ensures listings == Deduped(items)
  {
    var seen: Dict<Listing> := [];
    for i := 0 to |items|
      invariant seen == PutAll([], KeyedPairs(items[..i]))
    {
      KeyedPairsStep(items, i);
      var u := RStripChar(items[i].detailUrl, '/');
      if u != "" {
        seen := Put(seen, u, items[i]);
      }
    }
    assert items[..|items|] == items;
    listings := Values(seen);
  }

  /** The number of listings of manufacturer `m` from `year`. */
  function Tally(listings: seq<Listing>, m: string, year: int): (n: nat)
    ensures n <= |listings|
    ensures n == 0 <==> forall x :: x in listings ==> !(x.manufacturer == m && x.year == year)
    ensures n == |listings| <==> forall x :: x in listings ==> x.manufacturer == m && x.year == year
  {
    if listings == [] then 0
    else
      var x := listings[|listings| - 1];
      Tally(listings[..|listings| - 1], m, year) + (if x.manufacturer == m && x.year == year then 1 else 0)
  }

  /** A filter entry of the output file; `keyed` says whether it has both a
      manufacturer and a year. */
  datatype FilterRow = FilterRow(keyed: bool, manufacturer: string, year: int, results: int)

  predicate Names(f: FilterRow, m: string, year: int) {
    f.keyed && f.manufacturer == m && f.year == year
  }

  /** The entry `idx[(m, year)]` refers to: the last keyed entry for that pair,
      since later entries overwrite earlier ones in the index. */
  function IndexedAt(filters: seq<FilterRow>, m: string, year: int): (r: Option<nat>)
    ensures r.Some? ==> r.value < |filters| && Names(filters[r.value], m, year)
    ensures r.Some? ==> forall j :: r.value < j < |filters| ==> !Names(filters[j], m, year)
    ensures r.None? ==> forall j :: 0 <= j < |filters| ==> !Names(filters[j], m, year)
  {
    if filters == [] then None
    else if Names(filters[|filters| - 1], m, year) then Some(|filters| - 1)
    else IndexedAt(filters[..|filters| - 1], m, year)
  }

  /** The (manufacturer, year) pairs whose filter counts are refreshed. */
  const PatchedPairs: seq<(string, int)> := [("AMD", 2019), ("AMD", 2024)]

  /** Setting the results of the entry at `at`, if any. */
  function SetResults(filters: seq<FilterRow>, at: Option<nat>, n: int): (r: seq<FilterRow>)
    ensures |r| == |filters|
    ensures forall i :: 0 <= i < |filters| ==> r[i] == (if at == Some(i) then filters[i].(results := n) else filters[i])
  {
    if at.Some? && at.value < |filters| then filters[at.value := filters[at.value].(results := n)] else filters
  }

  /** The filters after the refresh loop has handled the first `k` pairs;
      `idx` is built from the filters before the loop. */
  function Refreshed(filters: seq<FilterRow>, listings: seq<Listing>, k: nat): seq<FilterRow>
    requires k <= |PatchedPairs|
  {
    if k == 0 then filters
    else
      var p := PatchedPairs[k - 1];
      SetResults(Refreshed(filters, listings, k - 1), IndexedAt(filters, p.0, p.1), Tally(listings, p.0, p.1))
  }

  /** Exactly the entries the index names for AMD 2019 and AMD 2024 get the incoming
      counts; every other entry is left as it was. */
  lemma RefreshedSpec(filters: seq<FilterRow>, listings: seq<Listing>)
    ensures var r := Refreshed(filters, listings, |PatchedPairs|);
      |r| == |filters|
      && forall i :: 0 <= i < |filters| ==>
        r[i] == (if IndexedAt(filters, "AMD", 2019) == Some(i) then filters[i].(results := Tally(listings, "AMD", 2019))
                 else if IndexedAt(filters, "AMD", 2024) == Some(i) then filters[i].(results := Tally(listings, "AMD", 2024))
                 else filters[i])
  {
    var at19 := IndexedAt(filters, "AMD", 2019);
    var at24 := IndexedAt(filters, "AMD", 2024);
    assert PatchedPairs[0] == ("AMD", 2019) && PatchedPairs[1] == ("AMD", 2024);
    var r1 := SetResults(filters, at19, Tally(listings, "AMD", 2019));
    assert Refreshed(filters, listings, 1) == r1;
    assert Refreshed(filters, listings, 2) == SetResults(r1, at24, Tally(listings, "AMD", 2024));
    forall i | 0 <= i < |filters| && IndexedAt(filters, "AMD", 2019) == Some(i)
      ensures IndexedAt(filters, "AMD", 2024) != Some(i)
    {
      assert Names(filters[i], "AMD", 2019);
    }
  }

  /** The refresh loop over the two pairs. */
  method RefreshFilters(filters: seq<FilterRow>, listings: seq<Listing>) returns (out: seq<FilterRow>)
    ensures out == Refreshed(filters, listings, |PatchedPairs|)
  {
    out := filters;
    for k := 0 to |PatchedPairs|
      invariant out == Refreshed(filters, listings, k)
    {
      var p := PatchedPairs[k];
      var at := IndexedAt(filters, p.0, p.1);
      if at.Some? {
        out := SetResults(out, at, Tally(listings, p.0, p.1));
      }
    }
  }

  /** What the script writes back: the listings, their count and the filters. */
  datatype Patched = Patched(listings: seq<Listing>, count: nat, filters: seq<FilterRow>)

  function Patch(prior: seq<Listing>, incoming: seq<Listing>, filters: seq<FilterRow>): Patched {
    var listings := Deduped(Kept(prior) + incoming);
    Patched(listings, |listings|, Refreshed(filters, listings, |PatchedPairs|))
  }

  /** The script from the two listing lists and the filters to the incoming contents. */
  method ApplyPatch(prior: seq<Listing>, incoming: seq<Listing>, filters: seq<FilterRow>) returns (r: Patched)
    ensures r == Patch(prior, incoming, filters)
  {
    var kept := Kept(prior);
    var listings := DedupByUrl(kept + incoming);
    var out := RefreshFilters(filters, listings);
    r := Patched(listings, |listings|, out);
  }

  /** The patched listings: none of the replaced prior listings survives unless
      the incoming list holds it too, every listing comes from one of the two
      lists, no two listings share a key, and the count is their number. */
  lemma PatchListingsSpec(prior: seq<Listing>, incoming: seq<Listing>, filters: seq<FilterRow>)
    ensures var p := Patch(prior, incoming, filters);
      p.count == |p.listings|
      && (forall x :: x in p.listings ==> DedupKey(x) != "" && ((x in prior && !Replaced(x)) || x in incoming))
      && (forall x :: x in p.listings && Replaced(x) ==> x in incoming)
      && (forall i, j :: 0 <= i < j < |p.listings| ==> DedupKey(p.listings[i]) != DedupKey(p.listings[j]))
  {
    var merged := Kept(prior) + incoming;
    DedupedSpec(merged);
    DedupedFromItems(merged);
  }

  /** The patched filters: the entries the index names for AMD 2019 and 2024
      carry the numbers of patched listings of that manufacturer and year. */
  lemma PatchFiltersSpec(prior: seq<Listing>, incoming: seq<Listing>, filters: seq<FilterRow>)
    ensures var p := Patch(prior, incoming, filters);
      |p.filters| == |filters|
      && (forall i :: IndexedAt(filters, "AMD", 2019) == Some(i) ==> p.filters[i].results == Tally(p.listings, "AMD", 2019))
      && (forall i :: IndexedAt(filters, "AMD", 2024) == Some(i) ==> p.filters[i].results == Tally(p.listings, "AMD", 2024))
  {
    RefreshedSpec(filters, Patch(prior, incoming, filters).listings);
  }

  /** An incoming listing with a non-empty key that no other incoming listing
      shares is in the result: the patch list wins over the prior list. */
  lemma IncomingWins(prior: seq<Listing>, incoming: seq<Listing>, filters: seq<FilterRow>, x: Listing)
    requires x in incoming && DedupKey(x) != ""
    requires forall y :: y in incoming && y != x ==> DedupKey(y) != DedupKey(x)
    ensures x in Patch(prior, incoming, filters).listings
  {
    var merged := Kept(prior) + incoming;
    assert merged[|Kept(prior)|..] == incoming;
    LastWins(merged, |Kept(prior)|, x);
    DedupedCovers(merged, x);
    var r := Deduped(merged);
    var i :| 0 <= i < |r| && DedupKey(r[i]) == DedupKey(x);
    DedupedSpec(merged);
    assert r[i] == x;
  }

  /** When `x` is the only item with its key at or after position `from`, and it
      lies there, the last assignment under its key stores `x`. */
  lemma {:induction false} LastWins(items: seq<Listing>, from: nat, x: Listing)
    requires from <= |items| && x in items[from..] && DedupKey(x) != ""
    requires forall y :: y in items[from..] && y != x ==> DedupKey(y) != DedupKey(x)
    ensures LastWith(KeyedPairs(items), DedupKey(x)) == Some(x)
  {
    var init := items[..|items| - 1];
    var y := items[|items| - 1];
    assert y in items[from..];
    if y != x {
      assert items[from..] == items[from..|items| - 1] + [y];
      assert init[from..] == items[from..|items| - 1];
      LastWins(init, from, x);
      if DedupKey(y) != "" {
        assert KeyedPairs(items)[..|KeyedPairs(items)| - 1] == KeyedPairs(init);
      }
    }
  }
}
