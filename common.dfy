/** Records shared by the scraper, the retry script and the exporter. */
module Common {

  datatype Option<T> = None | Some(value: T)

  /** `GPUListing`: one row of a listing page. */
  datatype Listing = Listing(manufacturer: string, year: int, name: string, detailUrl: string)

  /** `GPUDetail`: one parsed detail page. The hero block and every section are
      label-to-value maps; a section is stored under its heading text. */
  datatype Detail = Detail(
    url: string,
    title: string,
    hero: map<string, string>,
    sections: map<string, map<string, string>>,
    images: seq<string>)

  /** A detail page that could not be fetched, as appended to `failed_details`. */
  datatype Failure = Failure(url: string, error: string)

  /** What fetching the detail pages of a list of URLs yields: the details
      fetched, keyed by URL in the order the fetcher returned them, and the
      failures in the order they were recorded. */
  type DetailFetch = seq<string> -> (seq<(string, Detail)>, seq<Failure>)

  /** One entry of the `failed_details` ledger as read back from JSON: a dict whose
      `str(item.get("url") or "")` is `url`, or any other JSON value. */
  datatype LedgerItem = FailureEntry(url: string, error: string) | NotADict

  /** Python's `s[:n]`, including the negative `n` that counts from the end. */
  function SlicePrefix<T>(s: seq<T>, n: int): (r: seq<T>)
    ensures |r| <= |s| && r == s[..|r|]
    ensures 0 <= n <= |s| ==> |r| == n
    ensures n > |s| ==> r == s
    ensures n < 0 ==> |r| == if |s| + n > 0 then |s| + n else 0
  {
    if n >= 0 then s[..if n < |s| then n else |s|]
    else s[..if |s| + n > 0 then |s| + n else 0]
  }
}
