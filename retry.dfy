/** The retry script: it reads the output file, re-fetches the detail pages
    recorded in its `failed_details` ledger, merges what it gets back into
    `details`, and rewrites the ledger with what is still missing.

    Reading and writing the file and fetching are not modelled: the fields read
    back are inputs, and the fetch outcome is a parameter. The URL cleaner
    `strip` and the normaliser `norm` are parameters too; the script as it runs
    (`RetryFailedDetails`) passes `Text.Strip` and `Urls.NormalizeDetailUrl`. */
module RetryLedger {
  import opened Common
  import opened OrderedDicts
  import opened DetailStore
  import Text
  import Urls

  /** How a ledger URL is cleaned before use. */
  type Cleaner = string -> string

  /** The `failed_details` field as read back: absent, a list, or any other JSON
      value, which Python treats as true or false. */
  datatype LedgerField = Absent | LedgerList(items: seq<LedgerItem>) | OtherValue(truthy: bool)

  /** `payload.get("failed_details") or []`, refused unless it is a list. */
  function LedgerItems(field: LedgerField): Option<seq<LedgerItem>> {
    match field
    case Absent => Some([])
    case LedgerList(items) => Some(items)
    case OtherValue(truthy) => if truthy then None else Some([])
  }

  /** The cleaned, non-blank URLs of the dict entries, in ledger order. */
  function Candidates(items: seq<LedgerItem>, strip: Cleaner): seq<string> {
    if items == [] then []
    else
      var item := items[|items| - 1];
      Candidates(items[..|items| - 1], strip)
        + (if item.FailureEntry? && strip(item.url) != [] then [strip(item.url)] else [])
  }

  lemma {:induction false} CandidatesSpec(items: seq<LedgerItem>, strip: Cleaner)
    ensures forall u :: u in Candidates(items, strip) <==>
      u != [] && exists i :: 0 <= i < |items| && items[i].FailureEntry? && strip(items[i].url) == u
  {
    if items != [] {
      var init := items[..|items| - 1];
      CandidatesSpec(init, strip);
      assert forall i :: 0 <= i < |init| ==> init[i] == items[i];
    }
  }

  lemma {:induction false} CandidatesPrefix(items: seq<LedgerItem>, strip: Cleaner, n: nat)
    requires n <= |items|
    ensures IsPrefixOf(Candidates(items[..n], strip), Candidates(items, strip))
  {
    if n == |items| {
      assert items[..n] == items;
    } else {
      var init := items[..|items| - 1];
      assert init[..n] == items[..n];
      CandidatesPrefix(init, strip, n);
      assert Candidates(items, strip)[..|Candidates(init, strip)|] == Candidates(init, strip);
    }
  }

  /** The URLs to retry, before the cap. */
  function Selection(items: seq<LedgerItem>, strip: Cleaner): seq<string> {
    DedupFirst(Candidates(items, strip))
  }

  /** The selection loop, with its `seen` set. */
  method SelectRetryUrls(items: seq<LedgerItem>, strip: Cleaner) returns (retryUrls: seq<string>)
    ensures retryUrls == Selection(items, strip)
  {
    retryUrls := [];
    var seen: set<string> := {};
    for i := 0 to |items|
      invariant retryUrls == DedupFirst(Candidates(items[..i], strip))
      invariant forall u :: u in seen <==> u in retryUrls
    {
      ghost var before := Candidates(items[..i], strip);
      assert items[..i + 1][..i] == items[..i];
      var item := items[i];
      if !item.FailureEntry? {
        assert Candidates(items[..i + 1], strip) == before;
        continue;
      }
      var url := strip(item.url);
      if url == [] {
        assert Candidates(items[..i + 1], strip) == before;
        continue;
      }
      assert Candidates(items[..i + 1], strip) == before + [url];
      assert (before + [url])[..|before|] == before;
      if url in seen {
        continue;
      }
      seen := seen + {url};
      retryUrls := retryUrls + [url];
    }
    assert items[..|items|] == items;
  }

  /** The selection is duplicate-free and holds exactly the cleaned, non-blank
      URLs of the dict entries (entries of any other type are skipped), each
      at the place of its first occurrence. */
  lemma SelectionSpec(items: seq<LedgerItem>, strip: Cleaner)
    ensures Distinct(Selection(items, strip))
    ensures forall u :: u in Selection(items, strip) <==>
      u != [] && exists i :: 0 <= i < |items| && items[i].FailureEntry? && strip(items[i].url) == u
    ensures forall n :: 0 <= n <= |items| ==> IsPrefixOf(Selection(items[..n], strip), Selection(items, strip))
  {
    CandidatesSpec(items, strip);
    var cs := Candidates(items, strip);
    DedupFirstSpec(cs);
    forall n | 0 <= n <= |items|
      ensures IsPrefixOf(Selection(items[..n], strip), Selection(items, strip))
    {
      CandidatesPrefix(items, strip, n);
      assert Candidates(items[..n], strip) == cs[..|Candidates(items[..n], strip)|];
    }
  }

  /** `retry_urls[:max_retry]` when `--max-retry` is given and not negative. */
  function Capped(urls: seq<string>, maxRetry: Option<int>): (r: seq<string>)
    ensures maxRetry.Some? && maxRetry.value >= 0 ==>
      r == urls[..if maxRetry.value < |urls| then maxRetry.value else |urls|]
    ensures maxRetry.None? || maxRetry.value < 0 ==> r == urls
  {
    if maxRetry.Some? && maxRetry.value >= 0 then SlicePrefix(urls, maxRetry.value) else urls
  }

  /** The ledger entries not attempted: dict entries whose cleaned URL was not
      retried, in ledger order. */
  function Untouched(items: seq<LedgerItem>, attempted: set<string>, strip: Cleaner): seq<LedgerItem> {
    if items == [] then []
    else
      var item := items[|items| - 1];
      Untouched(items[..|items| - 1], attempted, strip)
        + (if item.FailureEntry? && strip(item.url) !in attempted then [item] else [])
  }

  lemma {:induction false} UntouchedSpec(items: seq<LedgerItem>, attempted: set<string>, strip: Cleaner)
    ensures forall e :: e in Untouched(items, attempted, strip) <==>
      e in items && e.FailureEntry? && strip(e.url) !in attempted
  {
    if items != [] {
      UntouchedSpec(items[..|items| - 1], attempted, strip);
      assert items == items[..|items| - 1] + [items[|items| - 1]];
    }
  }

  function AsLedger(failed: seq<Failure>): (r: seq<LedgerItem>)
    ensures |r| == |failed|
    ensures forall i :: 0 <= i < |failed| ==> r[i] == FailureEntry(failed[i].url, failed[i].error)
  {
    seq(|failed|, i requires 0 <= i < |failed| => FailureEntry(failed[i].url, failed[i].error))
  }

  /** What the script does with the file. */
  datatype RetryOutcome =
    | LedgerMalformed
    | NothingToRetry
    | Retried(details: map<string, Detail>, failedDetails: Option<seq<LedgerItem>>, generatedAt: string,
              attempted: seq<string>)

  /** The script's effect, given the `details` field (`None` when it is not a
      dict), the ledger field and the clock reading `now`. */
  function Retry(details: Option<Dict<Detail>>, ledger: LedgerField, maxRetry: Option<int>, now: string,
                 fetchDetails: DetailFetch, strip: Cleaner, norm: Norm): RetryOutcome
  {
    match LedgerItems(ledger)
    case None => LedgerMalformed
    case Some(items) =>
      var urls := Capped(Selection(items, strip), maxRetry);
      if urls == [] then NothingToRetry
      else
        var got := fetchDetails(urls);
        var start := if details.Some? then details.value else [];
        var remaining := Untouched(items, (set u | u in urls), strip) + AsLedger(got.1);
        Retried(MergeFetched(StoreOf(start, norm), got.0, norm).details,
                if remaining != [] then Some(remaining) else None, now, urls)
  }

  /** The loop that keeps the ledger entries not attempted. */
  method KeepUntouched(items: seq<LedgerItem>, attempted: set<string>, strip: Cleaner)
    returns (untouched: seq<LedgerItem>)
    ensures untouched == Untouched(items, attempted, strip)
  {
    untouched := [];
    for i := 0 to |items|
      invariant untouched == Untouched(items[..i], attempted, strip)
    {
      assert items[..i + 1][..i] == items[..i];
      var item := items[i];
      if item.FailureEntry? && strip(item.url) !in attempted {
        untouched := untouched + [item];
      }
    }
    assert items[..|items|] == items;
  }

  /** `run` of the retry script, with any cleaner and normaliser. */
  method RetryWith(details: Option<Dict<Detail>>, ledger: LedgerField, maxRetry: Option<int>, now: string,
                   fetchDetails: DetailFetch, strip: Cleaner, norm: Norm)
    returns (outcome: RetryOutcome)
    ensures outcome == Retry(details, ledger, maxRetry, now, fetchDetails, strip, norm)
  {
    var start: Dict<Detail> := if details.Some? then details.value else [];
    var items: seq<LedgerItem>;
    match ledger {
      case Absent => items := [];
      case LedgerList(xs) => items := xs;
      case OtherValue(truthy) =>
        if truthy {
          return LedgerMalformed;
        }
        items := [];
    }
    var retryUrls := SelectRetryUrls(items, strip);
    if maxRetry.Some? && maxRetry.value >= 0 {
      retryUrls := SlicePrefix(retryUrls, maxRetry.value);
    }
    if retryUrls == [] {
      return NothingToRetry;
    }
    var (fetched, failedAgain) := fetchDetails(retryUrls);
    var index := BuildNormIndex(Keys(start), norm);
    var merged := MergeBack(Store(AsMap(start), index), fetched, norm);
    assert Store(AsMap(start), index) == StoreOf(start, norm);
    var untouched := KeepUntouched(items, (set u | u in retryUrls), strip);
    var remaining := untouched + AsLedger(failedAgain);
    var failedDetails := if remaining != [] then Some(remaining) else None;
    outcome := Retried(merged.details, failedDetails, now, retryUrls);
  }

  /** The script as it runs. */
  method RetryFailedDetails(details: Option<Dict<Detail>>, ledger: LedgerField, maxRetry: Option<int>,
                            now: string, fetchDetails: DetailFetch)
    returns (outcome: RetryOutcome)
    ensures outcome == Retry(details, ledger, maxRetry, now, fetchDetails, Text.Strip, Urls.NormalizeDetailUrl)
  {
    outcome := RetryWith(details, ledger, maxRetry, now, fetchDetails, Text.Strip, Urls.NormalizeDetailUrl);
  }

  /** A ledger that is present and truthy but not a list is refused; an empty
      selection ends the script without fetching or writing. */
  lemma RetryStops(details: Option<Dict<Detail>>, ledger: LedgerField, maxRetry: Option<int>, now: string,
                   fetchDetails: DetailFetch, strip: Cleaner, norm: Norm)
    ensures Retry(details, ledger, maxRetry, now, fetchDetails, strip, norm).LedgerMalformed?
      <==> ledger.OtherValue? && ledger.truthy
    ensures LedgerItems(ledger).Some? ==>
      (Retry(details, ledger, maxRetry, now, fetchDetails, strip, norm).NothingToRetry? <==>
         Capped(Selection(LedgerItems(ledger).value, strip), maxRetry) == [])
  {
  }

  /** The cap keeps a prefix, and no more than `max_retry` URLs. */
  lemma CappedPrefix(urls: seq<string>, maxRetry: Option<int>)
    ensures IsPrefixOf(Capped(urls, maxRetry), urls)
    ensures Distinct(urls) ==> Distinct(Capped(urls, maxRetry))
    ensures maxRetry.Some? && 0 <= maxRetry.value ==> |Capped(urls, maxRetry)| <= maxRetry.value
  {
  }

  /** The URLs attempted: the selection, cut to `max_retry` when it is given and
      not negative; each is a cleaned, non-blank ledger URL, and none repeats. */
  lemma RetryAttempts(details: Option<Dict<Detail>>, items: seq<LedgerItem>, maxRetry: Option<int>, now: string,
                      fetchDetails: DetailFetch, strip: Cleaner, norm: Norm)
    ensures var o := Retry(details, LedgerList(items), maxRetry, now, fetchDetails, strip, norm);
      o.Retried? ==>
        o.attempted == Capped(Selection(items, strip), maxRetry)
        && IsPrefixOf(o.attempted, Selection(items, strip))
        && Distinct(o.attempted)
        && (maxRetry.Some? && 0 <= maxRetry.value ==> |o.attempted| <= maxRetry.value)
        && forall u :: u in o.attempted ==>
             u != [] && exists i :: 0 <= i < |items| && items[i].FailureEntry? && strip(items[i].url) == u
  {
    var sel := Selection(items, strip);
    var urls := Capped(sel, maxRetry);
    SelectionSpec(items, strip);
    CappedPrefix(sel, maxRetry);
    assert forall u :: u in urls ==> u in sel;
  }

  /** The new ledger: the dict entries whose cleaned URL was not attempted (also
      those beyond the cap), in ledger order, then the new failures; the key is
      dropped when that is empty. */
  lemma RetryLedgerRewritten(details: Option<Dict<Detail>>, items: seq<LedgerItem>, maxRetry: Option<int>,
                             now: string, fetchDetails: DetailFetch, strip: Cleaner, norm: Norm)
    ensures var o := Retry(details, LedgerList(items), maxRetry, now, fetchDetails, strip, norm);
      o.Retried? ==>
        var untouched := Untouched(items, (set u | u in o.attempted), strip);
        var failedAgain := fetchDetails(o.attempted).1;
        o.generatedAt == now
        && (o.failedDetails.None? <==> untouched == [] && failedAgain == [])
        && (o.failedDetails.Some? ==> o.failedDetails.value == untouched + AsLedger(failedAgain))
        && (forall e :: e in untouched <==> e in items && e.FailureEntry? && strip(e.url) !in o.attempted)
  {
    var o := Retry(details, LedgerList(items), maxRetry, now, fetchDetails, strip, norm);
    if o.Retried? {
      UntouchedSpec(items, (set u | u in o.attempted), strip);
    }
  }

  /** Merge-back: old keys stay, a detail whose normal form was not fetched is
      unchanged, each new key is a fetched URL, and each fetched normal form leads
      to the last detail fetched for it. */
  lemma RetryMerges(details: Dict<Detail>, items: seq<LedgerItem>, maxRetry: Option<int>, now: string,
                    fetchDetails: DetailFetch, strip: Cleaner, norm: Norm)
    requires DistinctKeys(details)
    ensures var o := Retry(Some(details), LedgerList(items), maxRetry, now, fetchDetails, strip, norm);
      o.Retried? ==>
        var fetched := fetchDetails(o.attempted).0;
        var st := StoreOf(details, norm);
        var r := MergeFetched(st, fetched, norm);
        o.details == r.details
        && (forall i :: 0 <= i < |details| ==> details[i].0 in o.details)
        && (forall i :: 0 <= i < |details| && !Fetched(fetched, norm(details[i].0), norm) ==>
              o.details[details[i].0] == details[i].1)
        && (forall k :: k in o.details ==>
              k in Keys(details) || k in Keys(fetched))
        && (forall n :: LastFetched(fetched, n, norm).Some? ==>
              n in r.index && r.index[n] in o.details && o.details[r.index[n]] == LastFetched(fetched, n, norm).value)
  {
    var o := Retry(Some(details), LedgerList(items), maxRetry, now, fetchDetails, strip, norm);
    if o.Retried? {
      var fetched := fetchDetails(o.attempted).0;
      MergeIntoDetails(details, fetched, norm);
      MergeLatest(StoreOf(details, norm), fetched, norm);
    }
  }
}
