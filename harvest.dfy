/** The bookkeeping of the scraper's `run`: the (manufacturer, year) combinations
    it visits, the listing loop with its `max_gpus` cap and filter log, the payload
    it assembles, the de-duplication of a listing page's rows, and the
    fill-missing pass that fetches only details the output file lacks.

    Fetching is not modelled: the rows and notice a listing page yields, and the
    details and failures a batch of detail fetches yields, are parameters. */
module Harvest {
  import opened Common
  import opened OrderedDicts
  import opened DetailStore
  import Urls
  import ScraperHelpers

  // ---------------------------------------------------------------------------
  // Years and combinations

  /** The year range is refused when it starts at or before year 0 or ends before
      it starts. */
  predicate YearsInvalid(startYear: int, endYear: int) {
    startYear <= 0 || endYear < startYear
  }

  /** One year's combinations, in manufacturer order. */
  function PerYear(ms: seq<string>, year: int): (c: seq<(string, int)>)
    ensures |c| == |ms|
    ensures forall i :: 0 <= i < |ms| ==> c[i] == (ms[i], year)
  {
    seq(|ms|, i requires 0 <= i < |ms| => (ms[i], year))
  }

  /** `[(m, y) for y in range(startYear, endYear + 1) for m in ms]`. */
  function Combos(ms: seq<string>, startYear: int, endYear: int): (c: seq<(string, int)>)
    ensures forall k :: 0 <= k < |c| ==> c[k].0 in ms && startYear <= c[k].1 <= endYear
    decreases endYear - startYear
  {
    if endYear < startYear then []
    else Combos(ms, startYear, endYear - 1) + PerYear(ms, endYear)
  }

  lemma MulMono(a: int, b: int, n: nat)
    requires a <= b
    ensures a * n <= b * n
  {
  }

  lemma {:induction false} CombosLength(ms: seq<string>, startYear: int, endYear: int)
    requires startYear <= endYear + 1
    ensures |Combos(ms, startYear, endYear)| == (endYear - startYear + 1) * |ms|
    decreases endYear - startYear
  {
    if startYear <= endYear {
      CombosLength(ms, startYear, endYear - 1);
    }
  }

  /** The combinations are year-major: year `y`'s block starts at
      `(y - startYear) * |ms|` and lists the manufacturers in order. */
  lemma {:induction false} CombosAt(ms: seq<string>, startYear: int, endYear: int, y: int, i: nat)
    requires startYear <= y <= endYear && i < |ms|
    ensures (y - startYear) * |ms| + i < |Combos(ms, startYear, endYear)|
    ensures Combos(ms, startYear, endYear)[(y - startYear) * |ms| + i] == (ms[i], y)
    decreases endYear - startYear
  {
    var prev := Combos(ms, startYear, endYear - 1);
    CombosLength(ms, startYear, endYear - 1);
    if y < endYear {
      CombosAt(ms, startYear, endYear - 1, y, i);
      MulMono(y - startYear + 1, endYear - startYear, |ms|);
    } else {
      assert (y - startYear) * |ms| == |prev|;
    }
  }

  /** Every manufacturer of every year in range is visited. */
  lemma CombosCover(ms: seq<string>, startYear: int, endYear: int, m: string, y: int)
    requires m in ms && startYear <= y <= endYear
    ensures (m, y) in Combos(ms, startYear, endYear)
  {
    var i :| 0 <= i < |ms| && ms[i] == m;
    CombosAt(ms, startYear, endYear, y, i);
    MulMono(0, y - startYear, |ms|);
    var c := Combos(ms, startYear, endYear);
    var k := (y - startYear) * |ms| + i;
    assert c[k] in c;
  }

  // ---------------------------------------------------------------------------
  // The listing loop

  /** One entry of the payload's `filters` log. */
  datatype FilterEntry = FilterEntry(manufacturer: string, year: int, results: nat, notice: Option<string>)

  /** What fetching the listing page of one (manufacturer, year) yields: its rows
      and the warning notice, if any. */
  type ListingFetch = (string, int) -> (seq<Listing>, Option<string>)

  function Entry(c: (string, int), fetch: ListingFetch): FilterEntry {
    FilterEntry(c.0, c.1, |fetch(c.0, c.1).0|, fetch(c.0, c.1).1)
  }

  /** All rows of the pages of `cs`, in order. */
  function Rows(cs: seq<(string, int)>, fetch: ListingFetch): seq<Listing> {
    if cs == [] then [] else Rows(cs[..|cs| - 1], fetch) + fetch(cs[|cs| - 1].0, cs[|cs| - 1].1).0
  }

  /** The loop's state: the listings kept, the log, and whether the cap stopped it. */
  datatype Scanned = Scanned(listings: seq<Listing>, filters: seq<FilterEntry>, stopped: bool)

  /** `max_gpus` is truthy when non-zero; a negative cap slices from the end, as
      Python's `listings[:max_gpus]` does. */
  predicate CapReached(count: nat, maxGpus: int) {
    maxGpus != 0 && count >= maxGpus
  }

  /** The loop after visiting `cs` (or stopping early). */
  function Scan(cs: seq<(string, int)>, fetch: ListingFetch, maxGpus: int): Scanned {
    if cs == [] then Scanned([], [], false)
    else
      var s := Scan(cs[..|cs| - 1], fetch, maxGpus);
      if s.stopped then s
      else
        var c := cs[|cs| - 1];
        var ls := s.listings + fetch(c.0, c.1).0;
        var log := s.filters + [Entry(c, fetch)];
        if CapReached(|ls|, maxGpus) then Scanned(SlicePrefix(ls, maxGpus), log, true)
        else Scanned(ls, log, false)
  }

  /** Once stopped, later combinations are not visited. */
  lemma {:induction false} ScanStopped(cs: seq<(string, int)>, n: nat, fetch: ListingFetch, maxGpus: int)
    requires n <= |cs| && Scan(cs[..n], fetch, maxGpus).stopped
    ensures Scan(cs, fetch, maxGpus) == Scan(cs[..n], fetch, maxGpus)
  {
    if n < |cs| {
      var init := cs[..|cs| - 1];
      assert init[..n] == cs[..n];
      ScanStopped(init, n, fetch, maxGpus);
    } else {
      assert cs[..n] == cs;
    }
  }

  /** The listing loop of `run`. */
  method CollectListings(combos: seq<(string, int)>, fetch: ListingFetch, maxGpus: int)
    returns (listings: seq<Listing>, filters: seq<FilterEntry>)
    ensures listings == Scan(combos, fetch, maxGpus).listings
    ensures filters == Scan(combos, fetch, maxGpus).filters
  {
    listings, filters := [], [];
    var i := 0;
    while i < |combos|
      invariant 0 <= i <= |combos|
      invariant Scan(combos[..i], fetch, maxGpus) == Scanned(listings, filters, false)
    {
      assert combos[..i + 1][..i] == combos[..i];
      var (manufacturer, year) := combos[i];
      var (rows, notice) := fetch(manufacturer, year);
      filters := filters + [FilterEntry(manufacturer, year, |rows|, notice)];
      listings := listings + rows;
      if maxGpus != 0 && |listings| >= maxGpus {
        listings := SlicePrefix(listings, maxGpus);
        ScanStopped(combos, i + 1, fetch, maxGpus);
        return;
      }
      i := i + 1;
    }
    assert combos[..i] == combos;
  }

  /** The log has one entry per visited combination, in order; without an early
      stop every combination is visited. */
  lemma {:induction false} ScanLog(cs: seq<(string, int)>, fetch: ListingFetch, maxGpus: int)
    ensures var s := Scan(cs, fetch, maxGpus);
      |s.filters| <= |cs|
      && (forall k :: 0 <= k < |s.filters| ==> s.filters[k] == Entry(cs[k], fetch))
      && (!s.stopped ==> |s.filters| == |cs|)
      && (s.stopped ==> |s.filters| >= 1)
  {
    if cs != [] {
      var init := cs[..|cs| - 1];
      ScanLog(init, fetch, maxGpus);
      assert forall k :: 0 <= k < |init| ==> init[k] == cs[k];
    }
  }

  /** The listings kept are a prefix of the rows of the visited pages; without an
      early stop they are all rows of all pages. */
  lemma {:induction false} ScanListings(cs: seq<(string, int)>, fetch: ListingFetch, maxGpus: int)
    ensures var s := Scan(cs, fetch, maxGpus);
      |s.filters| <= |cs|
      && IsPrefixOf(s.listings, Rows(cs[..|s.filters|], fetch))
      && (!s.stopped ==> s.listings == Rows(cs, fetch))
  {
    ScanLog(cs, fetch, maxGpus);
    if cs != [] {
      var init := cs[..|cs| - 1];
      ScanListings(init, fetch, maxGpus);
      ScanLog(init, fetch, maxGpus);
      var s := Scan(init, fetch, maxGpus);
      if s.stopped {
        assert cs[..|s.filters|] == init[..|s.filters|];
      } else {
        var c := cs[|cs| - 1];
        var ls := s.listings + fetch(c.0, c.1).0;
        assert ls == Rows(cs, fetch);
        assert cs[..|cs|] == cs;
        assert |Scan(cs, fetch, maxGpus).filters| == |cs|;
      }
    }
  }

  /** With no cap the loop never stops early. A positive cap bounds the listings,
      and the loop stops at the first page where the rows so far reach it, with
      exactly the cap's worth of listings. */
  lemma {:induction false} ScanCap(cs: seq<(string, int)>, fetch: ListingFetch, maxGpus: int)
    ensures var s := Scan(cs, fetch, maxGpus);
      (maxGpus == 0 ==> !s.stopped && s.listings == Rows(cs, fetch))
      && (maxGpus > 0 ==> |s.listings| <= maxGpus)
      && (maxGpus > 0 && !s.stopped ==> |Rows(cs, fetch)| < maxGpus)
      && (maxGpus > 0 && s.stopped ==>
            1 <= |s.filters| <= |cs| && |s.listings| == maxGpus
            && |Rows(cs[..|s.filters|], fetch)| >= maxGpus
            && |Rows(cs[..|s.filters| - 1], fetch)| < maxGpus)
  {
    ScanLog(cs, fetch, maxGpus);
    ScanListings(cs, fetch, maxGpus);
    if cs != [] {
      var init := cs[..|cs| - 1];
      ScanCap(init, fetch, maxGpus);
      ScanLog(init, fetch, maxGpus);
      ScanListings(init, fetch, maxGpus);
      var s := Scan(init, fetch, maxGpus);
      if s.stopped {
        assert cs[..|s.filters|] == init[..|s.filters|];
        assert cs[..|s.filters| - 1] == init[..|s.filters| - 1];
      } else {
        var c := cs[|cs| - 1];
        var ls := s.listings + fetch(c.0, c.1).0;
        assert s.listings == Rows(init, fetch);
        assert ls == Rows(cs, fetch);
        assert cs[..|cs|] == cs;
        assert cs[..|cs| - 1] == init;
      }
    }
  }

  // ---------------------------------------------------------------------------
  // The payload of a scraping run

  /** The fields of the output file that the model covers. `failedDetails` is
      `None` when the key is absent. */
  datatype Payload = Payload(
    generatedAt: string,
    startYear: int,
    endYear: int,
    manufacturers: seq<string>,
    filters: seq<FilterEntry>,
    count: nat,
    listings: seq<Listing>,
    details: Dict<Detail>,
    failedDetails: Option<seq<Failure>>)

  function DetailUrls(listings: seq<Listing>): (urls: seq<string>)
    ensures |urls| == |listings|
    ensures forall i :: 0 <= i < |listings| ==> urls[i] == listings[i].detailUrl
  {
    seq(|listings|, i requires 0 <= i < |listings| => listings[i].detailUrl)
  }

  /** `run` without `--fill-missing-details`: `None` for a refused year range.
      Details are fetched for every listing unless `skipDetails` is set or no
      listing was found; failures are recorded only when details were fetched. */
  method Scrape(startYear: int, endYear: int, manufacturerArgs: Option<seq<string>>, maxGpus: int,
                skipDetails: bool, generatedAt: string, fetch: ListingFetch, fetchDetails: DetailFetch)
    returns (r: Option<Payload>)
    ensures r.None? <==> YearsInvalid(startYear, endYear)
    ensures r.Some? ==>
      var ms := ScraperHelpers.Resolved(manufacturerArgs);
      var s := Scan(Combos(ms, startYear, endYear), fetch, maxGpus);
      var fetched := !skipDetails && s.listings != [];
      r.value == Payload(generatedAt, startYear, endYear, ms, s.filters, |s.listings|, s.listings,
                         if fetched then fetchDetails(DetailUrls(s.listings)).0 else [],
                         if fetched && fetchDetails(DetailUrls(s.listings)).1 != []
                         then Some(fetchDetails(DetailUrls(s.listings)).1) else None)
  {
    if startYear <= 0 || endYear < startYear {
      return None;
    }
    var ms := ScraperHelpers.ResolveManufacturers(manufacturerArgs);
    var combos := Combos(ms, startYear, endYear);
    var listings, filters := CollectListings(combos, fetch, maxGpus);
    var details: Dict<Detail> := [];
    var failed: seq<Failure> := [];
    if !skipDetails && listings != [] {
      var urls := DetailUrls(listings);
      details, failed := fetchDetails(urls).0, fetchDetails(urls).1;
    }
    var failedDetails := if !skipDetails && failed != [] then Some(failed) else None;
    r := Some(Payload(generatedAt, startYear, endYear, ms, filters, |listings|, listings, details,
                      failedDetails));
  }

  // ---------------------------------------------------------------------------
  // De-duplication of a listing page

  function UrlPairs(listings: seq<Listing>): (ps: seq<(string, Listing)>)
    ensures |ps| == |listings|
    ensures forall i :: 0 <= i < |listings| ==> ps[i] == (listings[i].detailUrl, listings[i])
  {
    seq(|listings|, i requires 0 <= i < |listings| => (listings[i].detailUrl, listings[i]))
  }

  /** `list({item.detail_url: item for item in listings}.values())`. */
  function DedupListings(listings: seq<Listing>): seq<Listing> {
    Values(PutAll([], UrlPairs(listings)))
  }

  lemma {:induction false} LastWithKey(ls: seq<Listing>, u: string)
    requires LastWith(UrlPairs(ls), u).Some?
    ensures LastWith(UrlPairs(ls), u).value.detailUrl == u
  {
    var init := ls[..|ls| - 1];
    assert UrlPairs(ls)[..|ls| - 1] == UrlPairs(init);
    if ls[|ls| - 1].detailUrl != u {
      LastWithKey(init, u);
    }
  }

  /** One listing per detail URL, the URLs in the order of their first occurrence,
      each holding the last row with that URL. */
  lemma DedupListingsSpec(listings: seq<Listing>)
    ensures var r := DedupListings(listings);
      |r| == |DedupFirst(DetailUrls(listings))|
      && (forall i :: 0 <= i < |r| ==> r[i].detailUrl == DedupFirst(DetailUrls(listings))[i])
      && (forall i :: 0 <= i < |r| ==> Some(r[i]) == LastWith(UrlPairs(listings), r[i].detailUrl))
  {
    var ps := UrlPairs(listings);
    var d := PutAll([], ps);
    PutAllSpec(ps);
    assert Keys(ps) == DetailUrls(listings);
    forall i | 0 <= i < |d|
      ensures d[i].1.detailUrl == d[i].0 && Some(d[i].1) == LastWith(ps, d[i].0)
    {
      IndexOfKeyUnique(d, d[i].0, i);
      LastWithKey(listings, d[i].0);
    }
  }

  // ---------------------------------------------------------------------------
  // Filling in missing details

  /** The detail URLs of the listings whose normal form has no details key, in
      listing order (a URL listed twice is requested twice). */
  function MissingUrls(listings: seq<Listing>, index: map<string, string>, norm: Norm): seq<string> {
    if listings == [] then []
    else
      var l := listings[|listings| - 1];
      MissingUrls(listings[..|listings| - 1], index, norm) + (if norm(l.detailUrl) in index then [] else [l.detailUrl])
  }

  lemma {:induction false} MissingUrlsSpec(listings: seq<Listing>, index: map<string, string>, norm: Norm)
    ensures forall u :: u in MissingUrls(listings, index, norm) <==>
      (exists i :: 0 <= i < |listings| && listings[i].detailUrl == u) && norm(u) !in index
  {
    if listings != [] {
      var init := listings[..|listings| - 1];
      MissingUrlsSpec(init, index, norm);
      assert forall i :: 0 <= i < |init| ==> init[i] == listings[i];
    }
  }

  /** The listings read back from the output file that have a detail URL. */
  function WithUrl(listings: seq<Listing>): (r: seq<Listing>)
    ensures forall l :: l in r <==> l in listings && l.detailUrl != []
  {
    if listings == [] then []
    else
      var l := listings[|listings| - 1];
      WithUrl(listings[..|listings| - 1]) + (if l.detailUrl != [] then [l] else [])
  }

  /** The output file as the fill-missing pass reads it. */
  datatype OutputFile = OutputFile(
    generatedAt: string,
    count: int,
    listings: seq<Listing>,
    details: Dict<Detail>,
    failedDetails: Option<seq<Failure>>)

  /** What the fill-missing pass returns: the file unchanged when nothing is
      missing, or the updated fields. */
  datatype FillOutcome =
    | NothingMissing
    | Filled(generatedAt: string, count: nat, details: map<string, Detail>,
             failedDetails: Option<seq<Failure>>, requested: seq<string>)

  /** The URLs the fill-missing pass requests. */
  function Requested(file: OutputFile, maxGpus: int, norm: Norm): seq<string> {
    var missing := MissingUrls(WithUrl(file.listings), NormIndex(Keys(file.details), norm), norm);
    if maxGpus != 0 then SlicePrefix(missing, maxGpus) else missing
  }

  /** The fill-missing pass. The details merged back go under the key with their
      normal form; the count is that of all listings in the file, with or without
      a URL; a previous `failed_details` is replaced only by a non-empty one. */
  function FillMissing(file: OutputFile, maxGpus: int, now: string, fetchDetails: DetailFetch, norm: Norm)
    : FillOutcome
  {
    var urls := Requested(file, maxGpus, norm);
    if urls == [] then NothingMissing
    else
      var got := fetchDetails(urls);
      Filled(now, |file.listings|, MergeFetched(StoreOf(file.details, norm), got.0, norm).details,
             if got.1 != [] then Some(got.1) else file.failedDetails, urls)
  }

  /** The loop that keeps the listings with a detail URL. */
  method KeepWithUrl(listings: seq<Listing>) returns (kept: seq<Listing>)
    ensures kept == WithUrl(listings)
  {
    kept := [];
    for i := 0 to |listings|
      invariant kept == WithUrl(listings[..i])
    {
      assert listings[..i + 1][..i] == listings[..i];
      if listings[i].detailUrl != [] {
        kept := kept + [listings[i]];
      }
    }
    assert listings[..|listings|] == listings;
  }

  /** The loop that collects the URLs whose normal form is not indexed. */
  method CollectMissing(listings: seq<Listing>, index: map<string, string>, norm: Norm)
    returns (missing: seq<string>)
    ensures missing == MissingUrls(listings, index, norm)
  {
    missing := [];
    for i := 0 to |listings|
      invariant missing == MissingUrls(listings[..i], index, norm)
    {
      assert listings[..i + 1][..i] == listings[..i];
      if norm(listings[i].detailUrl) !in index {
        missing := missing + [listings[i].detailUrl];
      }
    }
    assert listings[..|listings|] == listings;
  }

  /** The `--fill-missing-details` branch of `run`, with any URL normaliser. */
  method FillMissingWith(file: OutputFile, maxGpus: int, now: string, fetchDetails: DetailFetch, norm: Norm)
    returns (outcome: FillOutcome)
    ensures outcome == FillMissing(file, maxGpus, now, fetchDetails, norm)
  {
    var listings := KeepWithUrl(file.listings);
    var index := BuildNormIndex(Keys(file.details), norm);
    var missing := CollectMissing(listings, index, norm);
    if maxGpus != 0 {
      missing := SlicePrefix(missing, maxGpus);
    }
    if missing == [] {
      return NothingMissing;
    }
    var (fetched, failed) := fetchDetails(missing);
    assert Store(AsMap(file.details), index) == StoreOf(file.details, norm);
    var merged := MergeBack(Store(AsMap(file.details), index), fetched, norm);
    var failedDetails := file.failedDetails;
    if failed != [] {
      failedDetails := Some(failed);
    }
    outcome := Filled(now, |file.listings|, merged.details, failedDetails, missing);
  }

  /** The branch as the scraper runs it, after the year range was accepted. */
  method FillMissingDetails(file: OutputFile, maxGpus: int, now: string, fetchDetails: DetailFetch)
    returns (outcome: FillOutcome)
    ensures outcome == FillMissing(file, maxGpus, now, fetchDetails, Urls.NormalizeDetailUrl)
  {
    outcome := FillMissingWith(file, maxGpus, now, fetchDetails, Urls.NormalizeDetailUrl);
  }

  /** Which URLs are requested: listed URLs whose normal form matches no details
      key, at most `maxGpus` of them when the cap is positive; nothing is written
      when there are none. */
  lemma FillRequests(file: OutputFile, maxGpus: int, now: string, fetchDetails: DetailFetch, norm: Norm)
    ensures var urls := Requested(file, maxGpus, norm);
      (forall u :: u in urls ==>
        u != [] && (exists i :: 0 <= i < |file.listings| && file.listings[i].detailUrl == u)
        && forall i :: 0 <= i < |file.details| ==> norm(file.details[i].0) != norm(u))
      && (maxGpus > 0 ==> |urls| <= maxGpus)
      && (FillMissing(file, maxGpus, now, fetchDetails, norm).NothingMissing? <==> urls == [])
  {
    var ls := WithUrl(file.listings);
    var index := NormIndex(Keys(file.details), norm);
    MissingUrlsSpec(ls, index, norm);
    NormIndexSpec(Keys(file.details), norm);
    var missing := MissingUrls(ls, index, norm);
    var urls := Requested(file, maxGpus, norm);
    forall u | u in urls
      ensures u != [] && (exists i :: 0 <= i < |file.listings| && file.listings[i].detailUrl == u)
    {
      assert u in missing;
      var j :| 0 <= j < |ls| && ls[j].detailUrl == u;
      assert ls[j] in file.listings;
    }
  }

  /** Without a cap every listed URL is either requested or already has a details
      key with its normal form. */
  lemma FillCoversMissing(file: OutputFile, norm: Norm, l: Listing)
    requires l in file.listings && l.detailUrl != []
    ensures l.detailUrl in Requested(file, 0, norm)
      || exists i :: 0 <= i < |file.details| && norm(file.details[i].0) == norm(l.detailUrl)
  {
    var ls := WithUrl(file.listings);
    var index := NormIndex(Keys(file.details), norm);
    MissingUrlsSpec(ls, index, norm);
    NormIndexSpec(Keys(file.details), norm);
    var j :| 0 <= j < |ls| && ls[j] == l;
    if norm(l.detailUrl) in index {
      var k := index[norm(l.detailUrl)];
      var i :| 0 <= i < |file.details| && Keys(file.details)[i] == k;
    }
  }

  /** After filling: every old key is kept, details whose normal form was not
      fetched are unchanged, each new key is a fetched URL, each fetched normal
      form leads to its last fetched detail, the count is the number of listings,
      and `failed_details` is the new failures when there are any. */
  lemma FillMerges(file: OutputFile, maxGpus: int, now: string, fetchDetails: DetailFetch, norm: Norm)
    requires DistinctKeys(file.details)
    ensures var o := FillMissing(file, maxGpus, now, fetchDetails, norm);
      var fetched := fetchDetails(Requested(file, maxGpus, norm)).0;
      var failed := fetchDetails(Requested(file, maxGpus, norm)).1;
      o.Filled? ==>
        o.generatedAt == now && o.count == |file.listings|
        && (forall i :: 0 <= i < |file.details| ==> file.details[i].0 in o.details)
        && (forall i :: 0 <= i < |file.details| && !Fetched(fetched, norm(file.details[i].0), norm) ==>
              o.details[file.details[i].0] == file.details[i].1)
        && (forall k :: k in o.details ==>
              k in Keys(file.details) || k in Keys(fetched))
        && (forall n :: LastFetched(fetched, n, norm).Some? ==>
              exists k :: k in o.details && norm(k) == n && o.details[k] == LastFetched(fetched, n, norm).value)
        && (failed != [] ==> o.failedDetails == Some(failed))
        && (failed == [] ==> o.failedDetails == file.failedDetails)
  {
    MergeIntoDetails(file.details, fetchDetails(Requested(file, maxGpus, norm)).0, norm);
  }
}
