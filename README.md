# gpu_ladder bookkeeping, modelled in Dafny

gpu_ladder scrapes the GPU database of techpowerup.com into a JSON file and
exports it to an Excel workbook. This project models the deterministic
bookkeeping around the network and DOM work, and proves what it promises.

It covers these parts:

- **The scraper** (`scrape_techpowerup.py`):
  - section-title normalisation and the first-writer-wins merge of section data;
  - the one-section-per-normalised-title store of `collect_sections`;
  - multi-GPU detection and the rescaling of per-chip figures, including the integer path of `multiply_value_numbers`;
  - detail-URL normalisation;
  - the cookie-refresh debounce of the HTTP session;
  - block-page detection and manufacturer resolution;
  - the (manufacturer, year) combinations, the listing loop with its `max_gpus` cap and filter log, and the assembled payload;
  - the de-duplication of a listing page;
  - the fill-missing pass that fetches only the details the output file lacks.
- **The retry script** (`retry_failed_details.py`):
  - selection of the URLs to retry from the `failed_details` ledger, and its cap;
  - merge-back of the re-fetched details by normalised URL;
  - the rewritten ledger.
- **The exporter** (`export_gpu_excel.py`):
  - tier bands;
  - the join of details with listings;
  - the stable sort, ranks and tiers of `build_records`;
  - the grouping and group ranks of `write_group_sheet`.
- **The patch script** (`tmp.py`): it replaces the AMD 2019/2024 listings, de-duplicates by trailing-slash-stripped URL, recounts, and refreshes the matching filter counts.

How the model is built:

- **Fetching is a parameter.** A listing fetch yields a page's rows and notice. A detail fetch yields the details and failures for a batch of URLs, in the order the fetcher produced them. Clocks are parameters too.
- **Ordered dicts.** Python dicts whose order shows in the output are sequences of (key, value) pairs (`OrderedDicts`). Dicts whose order does not matter are Dafny maps.
- **Loops are methods.** Each loop becomes a method. It is proved equal to a specification function, and the properties are proved about that function.

Modules, one per file:

| file | module | what it models |
|---|---|---|
| `common.dfy` | `Common` | `GPUListing`, `GPUDetail`, failure records, Python's `s[:n]` |
| `text.dfy` | `Text` | `str.lower` (ASCII), `str.isspace`, `strip`, `rstrip(c)`, `split()`, `" ".join` |
| `ordered_dict.dfy` | `OrderedDicts` | insertion-ordered dict: get, assign, build from pairs |
| `urls.dfy` | `Urls` | `normalize_detail_url` / `normalize_url` over a model of `urlsplit`/`urlunsplit` |
| `sections.dfy` | `Sections` | `normalize_section_title`, `merge_section_data`, `collect_sections` |
| `value_scaling.dfy` | `ValueScaling` | `multiply_value_numbers` as written and as intended |
| `multi_gpu.dfy` | `MultiGpu` | `detect_multi_chip_multiplier(_from_classes)`, `apply_multi_chip_multiplier` |
| `session.dfy` | `Session` | `_refresh_cookies_with_callback` |
| `helpers.dfy` | `ScraperHelpers` | `detect_block_reason`, `resolve_manufacturers` |
| `detail_store.dfy` | `DetailStore` | the normalised-key index and the merge of fetched details |
| `harvest.dfy` | `Harvest` | combos, listing loop and cap, payload, listing dedup, fill-missing |
| `retry.dfy` | `RetryLedger` | the retry script's `run` |
| `export.dfy` | `Export` | `detect_tier`, `build_records`, `write_group_sheet` |
| `listing_patch.dfy` | `ListingPatch` | `tmp.py` |

## Model

| member | source | states |
|---|---|---|
| Common.SlicePrefix | src/gpu_ladder/scrape_techpowerup.py:834-835 | Python's `s[:n]`: a prefix of length n for 0 <= n <= len, the whole list beyond it, and the list without its last -n items for negative n |
| Text.Lower | src/gpu_ladder/scrape_techpowerup.py:302 | same length, each character lower-cased (ASCII letters) |
| Text.LStrip | src/gpu_ladder/scrape_techpowerup.py:302 | `lstrip()`: a suffix of the text, not starting with whitespace, only whitespace removed |
| Text.RStrip | src/gpu_ladder/scrape_techpowerup.py:302 | `rstrip()`: a prefix of the text, not ending with whitespace, only whitespace removed |
| Text.Strip | src/gpu_ladder/scrape_techpowerup.py:302 | `strip()`: the result has no whitespace at either end |
| Text.StripSlice | src/gpu_ladder/scrape_techpowerup.py:302 | the stripped text is the slice of the input left after removing only whitespace before and after it |
| Text.RStripChar | src/gpu_ladder/scrape_techpowerup.py:260 | the result is the longest prefix not ending with the character, and only that character was removed |
| Text.Words | src/gpu_ladder/scrape_techpowerup.py:302 | `split()` yields non-empty words without whitespace |
| Text.WordsNoUpper | src/gpu_ladder/scrape_techpowerup.py:302 | splitting lower-case text yields lower-case words |
| Text.JoinShape | src/gpu_ladder/scrape_techpowerup.py:302 | joining such words with " " gives trimmed, single-spaced text, lower case if the words are, non-empty if there are words |
| Text.WordsOfJoin | src/gpu_ladder/scrape_techpowerup.py:302 | splitting the joined words gives the words back (round trip) |
| Text.JoinStripped | src/gpu_ladder/scrape_techpowerup.py:302 | stripping joined words changes nothing |
| Text.JoinLowered | src/gpu_ladder/scrape_techpowerup.py:302 | lower-casing joined lower-case words changes nothing |
| OrderedDicts.Get | src/gpu_ladder/retry_failed_details.py:163 | `dict.get`: None exactly when the key is absent, else the stored value |
| OrderedDicts.Put | tmp.py:25 | `d[k] = v`: an existing key keeps its place, a new key is appended, k then maps to v and no other key changes |
| OrderedDicts.DedupFirstSpec | src/gpu_ladder/scrape_techpowerup.py:235 | first occurrences: no element twice, the same elements as the input, and the result for a prefix is a prefix of the result |
| OrderedDicts.PutAllSpec | src/gpu_ladder/scrape_techpowerup.py:235 | building a dict from pairs: keys in order of first occurrence, each holding its last value, no key twice |
| Urls.SplitScheme | src/gpu_ladder/scrape_techpowerup.py:259 | `urlsplit`'s scheme: a lower-cased valid scheme before the first ':', or none and the text unchanged |
| Urls.SplitUrl | src/gpu_ladder/scrape_techpowerup.py:259 | the authority holds no '/', and a path after an authority starts with '/' |
| Urls.WithoutQuery | src/gpu_ladder/scrape_techpowerup.py:259-261 | the prefix before the first '?' or '#' |
| Urls.UnsplitShape | src/gpu_ladder/scrape_techpowerup.py:261 | `urlunsplit` of parts without '?'/'#' whose path does not end in '/' yields such a URL |
| Urls.NormalizedShape | src/gpu_ladder/scrape_techpowerup.py:258-261 | a normalised URL has no query, no fragment and no trailing '/' |
| Urls.QueryAndFragmentIgnored | src/gpu_ladder/scrape_techpowerup.py:258-261 | whatever follows the first '?' or '#' does not change the normalised URL |
| Urls.SplitUnsplit | src/gpu_ladder/scrape_techpowerup.py:259-261 | splitting a joined URL with an authority gives its parts back (round trip) |
| Urls.NormalizeJoined | src/gpu_ladder/scrape_techpowerup.py:258-261 | normalising a URL keeps scheme and authority and strips the trailing '/' of the path |
| Urls.NormalizeIdempotent | src/gpu_ladder/scrape_techpowerup.py:258-261 | normalising twice equals normalising once, for URLs with an authority whose normal form is trimmed |
| Urls.SameStripSameKey | src/gpu_ladder/scrape_techpowerup.py:259 | URLs equal after stripping have the same normal form |
| Urls.TrailingSlashExample | src/gpu_ladder/scrape_techpowerup.py:258-261 | "https://x/y/" normalises to "https://x/y" |
| Urls.QueryExample | src/gpu_ladder/scrape_techpowerup.py:258-261 | "https://x/y?ajax=" normalises to "https://x/y" |
| Urls.NotIdempotentOnInnerSpace | src/gpu_ladder/scrape_techpowerup.py:258-261 | "https://x/a /" normalises to "https://x/a ", which normalises to "https://x/a": the side condition of idempotence is needed |
| Sections.NormalizedForm | src/gpu_ladder/scrape_techpowerup.py:301-302 | a normalised title is lower case, trimmed and single-spaced |
| Sections.NormalizeIdempotent | src/gpu_ladder/scrape_techpowerup.py:301-302 | normalising a title twice equals normalising it once |
| Sections.JoinIsNormal | src/gpu_ladder/scrape_techpowerup.py:301-302 | lower-case words joined by single spaces are already normal |
| Sections.NormalizeEmptyIffBlank | src/gpu_ladder/scrape_techpowerup.py:301-302 | a title normalises to "" exactly when it is all whitespace |
| Sections.MergedSpec | src/gpu_ladder/scrape_techpowerup.py:305-309 | target entries are never changed; every source entry with non-empty key and value is present; only such entries under new keys are added |
| Sections.MergedIdempotent | src/gpu_ladder/scrape_techpowerup.py:305-309 | merging the same source twice adds nothing the second time |
| Sections.MergeSectionData | src/gpu_ladder/scrape_techpowerup.py:305-309 | the merge loop computes `Merged(target, source)` |
| Sections.MergedCharacterised | src/gpu_ladder/scrape_techpowerup.py:305-309 | any map that keeps the target, adds the non-empty new source entries and nothing else is the merge |
| Sections.UpsertSpec | src/gpu_ladder/scrape_techpowerup.py:316-327 | for every normal form, the stored (title, data) pair after upsert is `Track` of the one before: nothing for an empty title, empty data or blank normal form; a new normal form stores this title with exactly this data; a known one merges the data into the section of its first title; every other section is unchanged and no other title or normal form is added |
| Sections.UpsertSeen | src/gpu_ladder/scrape_techpowerup.py:316-327 | upsert records the title's normal form when it stores something and forgets no normal form |
| Sections.ConsistentTitlesDistinct | src/gpu_ladder/scrape_techpowerup.py:322-327 | no two stored titles share a normalised title |
| Sections.AfterHeadings | src/gpu_ladder/scrape_techpowerup.py:329-342 | the heading pass keeps the store consistent |
| Sections.RequiredStep | src/gpu_ladder/scrape_techpowerup.py:344-359 | one required-section step keeps the store consistent |
| Sections.AfterRequired | src/gpu_ladder/scrape_techpowerup.py:344-359 | the required-section pass keeps the store consistent |
| Sections.HeadingData | src/gpu_ladder/scrape_techpowerup.py:339-341 | a heading's blocks merged in order into an empty dict |
| Sections.HeadingPass | src/gpu_ladder/scrape_techpowerup.py:329-342 | the heading loop computes the heading pass |
| Sections.RequiredPass | src/gpu_ladder/scrape_techpowerup.py:344-359 | the required-section loop computes the required pass |
| Sections.CollectSections | src/gpu_ladder/scrape_techpowerup.py:312-361 | `collect_sections` returns the sections of the two passes |
| Sections.HeadingsCovered | src/gpu_ladder/scrape_techpowerup.py:329-342 | after the heading pass each normal form holds the `Tracked` section (first storable title, its data with later same-form data merged in order); every storable heading gets a section; a normal form new to the store is owned by its first storable heading; recorded normal forms stay recorded |
| Sections.HeadingsTracked | src/gpu_ladder/scrape_techpowerup.py:329-342 | the heading pass changes each normal form's section as the headings' upserts do, in order |
| Sections.TrackedNone | src/gpu_ladder/scrape_techpowerup.py:316-342 | from nothing, a normal form gets a section exactly when some heading with that form is storable |
| Sections.TrackedKeepsTitle | src/gpu_ladder/scrape_techpowerup.py:322-325 | once stored, a section keeps its title through later headings |
| Sections.TrackedFirstTitle | src/gpu_ladder/scrape_techpowerup.py:322-327 | the title stored for a normal form is that of the first storable heading with it |
| Sections.HeadingStored | src/gpu_ladder/scrape_techpowerup.py:329-342 | a storable heading's normal form, and every one recorded before, is recorded after the heading pass |
| Sections.HeadingOwns | src/gpu_ladder/scrape_techpowerup.py:322-342 | a normal form new to the store is owned after the heading pass by its first storable heading |
| Sections.RequiredCovered | src/gpu_ladder/scrape_techpowerup.py:344-359 | after the required pass each normal form holds the `RequiredTracked` section; forms already recorded keep their exact section; every required section the fallback found with data gets one; a new form is owned by the first required name found with it, holding exactly the data found |
| Sections.RequiredStepsTracked | src/gpu_ladder/scrape_techpowerup.py:344-359 | the required pass changes each normal form's section as its steps do, in order |
| Sections.RequiredKeeps | src/gpu_ladder/scrape_techpowerup.py:345-347 | the required pass never touches a normal form that already has a section |
| Sections.RequiredNone | src/gpu_ladder/scrape_techpowerup.py:344-359 | from nothing, a normal form gets a section exactly when some required name with that form is found with data |
| Sections.RequiredFirst | src/gpu_ladder/scrape_techpowerup.py:344-359 | a normal form with no section gets the first required name found with it and exactly the data found for it |
| Sections.RequiredStored | src/gpu_ladder/scrape_techpowerup.py:344-359 | recorded forms keep their section and found required names are recorded |
| Sections.RequiredOwns | src/gpu_ladder/scrape_techpowerup.py:344-359 | a normal form new to the store gets, in the required pass, the first required name found with it and its data |
| Sections.RequiredTitlesNotBlank | src/gpu_ladder/scrape_techpowerup.py:37-49 | the required section names and their normal forms are non-empty |
| Sections.CollectedCovers | src/gpu_ladder/scrape_techpowerup.py:312-361 | after collection: consistent store; every storable heading and every found required section present; each normal form's section is the headings' `Tracked` section or else the required pass's; the first storable heading of a normal form owns its section |
| ValueScaling.DigitRun | src/gpu_ladder/scrape_techpowerup.py:473 | the run of digits at the start of the text, and no longer |
| ValueScaling.RemoveCommas | src/gpu_ladder/scrape_techpowerup.py:461 | `token.replace(",", "")`: no comma left, no other character added |
| ValueScaling.FormatThousands | src/gpu_ladder/scrape_techpowerup.py:469 | `f"{n:,}"` starts with a digit |
| ValueScaling.FormattedValue | src/gpu_ladder/scrape_techpowerup.py:461-469 | removing the commas of `f"{n:,}"` gives digits whose value is n (round trip) |
| ValueScaling.ValueDecimal | src/gpu_ladder/scrape_techpowerup.py:468 | `int(str(n)) == n` |
| ValueScaling.NoDigitsUnchanged | src/gpu_ladder/scrape_techpowerup.py:458-473 | text without digits is returned unchanged, by both versions |
| ValueScaling.ScanFormatted | src/gpu_ladder/scrape_techpowerup.py:473 | a comma-formatted number is scanned as at most three digits then its ",ddd" groups |
| ValueScaling.ScaleDigits | src/gpu_ladder/scrape_techpowerup.py:468-469 | a digits-only token becomes its value times the multiplier, comma-formatted |
| ValueScaling.ScalesFormattedInteger | src/gpu_ladder/scrape_techpowerup.py:458-473 | a comma-formatted integer before a boundary is multiplied as a whole, in both versions |
| ValueScaling.ScalesPlainInteger | src/gpu_ladder/scrape_techpowerup.py:458-473 | in the corrected version a plain digit run before a boundary is multiplied as a whole |
| ValueScaling.PlainToken | src/gpu_ladder/scrape_techpowerup.py:473 | the corrected pattern takes a whole plain digit run as one token |
| ValueScaling.AsWrittenFirstChunk | src/gpu_ladder/scrape_techpowerup.py:473 | as written, any run of more than three digits is cut after its third digit and the rest is scanned afresh |
| ValueScaling.FourDigitsSplitAsWritten | src/gpu_ladder/scrape_techpowerup.py:458-473 | as written, "4096" times 2 gives "81812" |
| ValueScaling.FourDigitsScaled | src/gpu_ladder/scrape_techpowerup.py:458-473 | corrected, "4096" times 2 gives "8,192" |
| MultiGpu.MaxValidSpec | src/gpu_ladder/scrape_techpowerup.py:406-411 | the detected count is between 1 and 8, at least every count in 2..8, and either 1 or one of the counts |
| MultiGpu.MaxValidAppend | src/gpu_ladder/scrape_techpowerup.py:410-411 | `multiplier = max(multiplier, value)` only for values in 2..8 |
| MultiGpu.MultiplierFromClasses | src/gpu_ladder/scrape_techpowerup.py:415-426 | the class loop returns the largest believed "multigpu-x<N>" count, or 1 |
| MultiGpu.FirstHint | src/gpu_ladder/scrape_techpowerup.py:375-379 | the count of the first hint contained in the normalised title or URL; none exactly when no hint is contained |
| MultiGpu.HintCounts | src/gpu_ladder/scrape_techpowerup.py:50-53 | a title hint yields 2 or 4 |
| MultiGpu.MatchAt | src/gpu_ladder/scrape_techpowerup.py:405 | a count match ends after its start, within the text |
| MultiGpu.AllValuesMembers | src/gpu_ladder/scrape_techpowerup.py:400-411 | the counts gathered are exactly the counts of the individual probe texts |
| MultiGpu.MultiplierFromTexts | src/gpu_ladder/scrape_techpowerup.py:400-412 | the text loop returns the largest believed count over all texts, or 1 |
| MultiGpu.HeroProbes | src/gpu_ladder/scrape_techpowerup.py:381-392 | the probe list holds the title and the hero values under a probe label, and nothing else |
| MultiGpu.SectionProbes | src/gpu_ladder/scrape_techpowerup.py:393-398 | a section adds all its values if "graphics processor" is in its name, else its values under a probe label |
| MultiGpu.ProbeValues | src/gpu_ladder/scrape_techpowerup.py:381-398 | the probe texts are exactly the title, probe hero values and probe section values |
| MultiGpu.MultiplierFromProbes | src/gpu_ladder/scrape_techpowerup.py:381-412 | the result is in 1..8, at least every believed count of any probe text, and either 1 or one of them |
| MultiGpu.DetectMultiChipMultiplier | src/gpu_ladder/scrape_techpowerup.py:364-412 | in 1..8; a class count above 1 wins, then the first title hint, then the largest believed count of the probe texts |
| MultiGpu.ScaleItems | src/gpu_ladder/scrape_techpowerup.py:447-454 | the entry loop computes the scaled entries of one section, for a given number scaler |
| MultiGpu.ScaleSections | src/gpu_ladder/scrape_techpowerup.py:440-455 | the section loop computes the scaled sections, for a given number scaler |
| MultiGpu.ApplyMultiChipMultiplier | src/gpu_ladder/scrape_techpowerup.py:429-455 | `apply_multi_chip_multiplier` with normalised labels and the number pattern as written |
| MultiGpu.ApplyMultiChipMultiplierCorrected | src/gpu_ladder/scrape_techpowerup.py:429-473 | the same pass with the corrected number pattern |
| MultiGpu.ScaledSectionsSpec | src/gpu_ladder/scrape_techpowerup.py:429-455 | every section and label kept; sections outside the three targets and "memory" clock entries unchanged; a multiplier of 1 or less changes nothing |
| MultiGpu.ScaledFormattedValue | src/gpu_ladder/scrape_techpowerup.py:447-473 | in a target section a comma-formatted integer (not a memory clock) becomes the integer times the multiplier, with the pattern as written and corrected alike |
| Session.RefreshRule | src/gpu_ladder/scrape_techpowerup.py:155-180 | no callback: false; within the cooldown (before or after the lock): true without a call; empty result: false, state unchanged; otherwise true, jar replaced, timestamp set |
| Session.CookieRefresher.constructor | src/gpu_ladder/scrape_techpowerup.py:98-101 | a fresh refresher: timestamp 0, the given cookies, no invocations |
| Session.CookieRefresher.RefreshCookies | src/gpu_ladder/scrape_techpowerup.py:155-180 | updates the timestamp and jar as the rule says, clearing and refilling the jar with exactly the fetched cookies, and logs each callback invocation |
| Session.RefreshesSpaced | src/gpu_ladder/scrape_techpowerup.py:158-179 | over any request sequence, cookies are installed at most once per cooldown |
| Session.DebouncedAfterRefresh | src/gpu_ladder/scrape_techpowerup.py:158-163 | right after a refresh, a request within the cooldown gets true without a callback and changes nothing |
| ScraperHelpers.FirstMarker | src/gpu_ladder/scrape_techpowerup.py:604-609 | the first marker contained case-insensitively, none exactly when no marker is contained |
| ScraperHelpers.InProgressReported | src/gpu_ladder/scrape_techpowerup.py:54-59 | a page with "automated bot check in progress" reports that marker, not the shorter one |
| ScraperHelpers.BlockPagesReported | src/gpu_ladder/scrape_techpowerup.py:604-609 | any page mentioning the bot check or "http 429", in any case, is reported blocked |
| ScraperHelpers.CanonicalNamesBuilt | src/gpu_ladder/scrape_techpowerup.py:631 | the canonical map is the lower-cased defaults mapped to themselves |
| ScraperHelpers.Canonical | src/gpu_ladder/scrape_techpowerup.py:631-637 | a token equal to a default manufacturer ignoring case becomes that manufacturer's spelling; any other token is kept as it is |
| ScraperHelpers.ResolveManufacturers | src/gpu_ladder/scrape_techpowerup.py:628-638 | the resolution loop computes `Resolved` |
| ScraperHelpers.CanonicalIdempotent | src/gpu_ladder/scrape_techpowerup.py:631-637 | canonicalising twice is canonicalising once |
| ScraperHelpers.ResolveOneIdempotent | src/gpu_ladder/scrape_techpowerup.py:633-637 | a resolved name resolves to itself |
| ScraperHelpers.DefaultsSettled | src/gpu_ladder/scrape_techpowerup.py:31-36 | the defaults are non-empty, stripped and canonical |
| ScraperHelpers.KeptFrom | src/gpu_ladder/scrape_techpowerup.py:633-637 | every resolved token comes from some input value |
| ScraperHelpers.KeptFixed | src/gpu_ladder/scrape_techpowerup.py:633-637 | values that resolve to themselves are all kept, in order |
| ScraperHelpers.KeptIdempotent | src/gpu_ladder/scrape_techpowerup.py:633-637 | filtering twice is filtering once |
| ScraperHelpers.ResolvedIdempotent | src/gpu_ladder/scrape_techpowerup.py:628-638 | the result is never empty, has no blank or padded name, and resolving it again gives it back |
| ScraperHelpers.ResolvedDefaults | src/gpu_ladder/scrape_techpowerup.py:628-638 | an absent option, or values that are all blank, give the default manufacturers |
| ScraperHelpers.BlanksDropped | src/gpu_ladder/scrape_techpowerup.py:633-636 | blank values contribute no token |
| ScraperHelpers.ResolvedNames | src/gpu_ladder/scrape_techpowerup.py:633-638 | every non-blank value appears, stripped and canonicalised |
| ScraperHelpers.ResolvedTokensMembers | src/gpu_ladder/scrape_techpowerup.py:633-637 | every non-blank value contributes its canonical token |
| DetailStore.NormIndexSpec | src/gpu_ladder/retry_failed_details.py:160 | every key is reachable through its normal form, the index points only at keys of that normal form, and a key last of its normal form is the one indexed |
| DetailStore.BuildNormIndex | src/gpu_ladder/scrape_techpowerup.py:825-827 | the index loop computes `{norm(k): k}` |
| DetailStore.StoreOf | src/gpu_ladder/retry_failed_details.py:160 | the store built from a details dict is consistent |
| DetailStore.MergeOne | src/gpu_ladder/retry_failed_details.py:161-165 | one fetched detail goes under the key indexed for its normal form (or its own URL, then indexed); the store stays consistent, no key is lost, and only keys of that normal form change |
| DetailStore.MergeBack | src/gpu_ladder/retry_failed_details.py:161-165 | the merge loop computes `MergeFetched` |
| DetailStore.MergeKeeps | src/gpu_ladder/retry_failed_details.py:160-165 | merging keeps the store consistent, loses no key and keeps each indexed key |
| DetailStore.MergeNewKeys | src/gpu_ladder/retry_failed_details.py:161-165 | every new key is a fetched URL |
| DetailStore.MergeUnfetchedUnchanged | src/gpu_ladder/retry_failed_details.py:161-165 | details of a normal form not fetched keep their key and value |
| DetailStore.MergeLatest | src/gpu_ladder/retry_failed_details.py:161-165 | each fetched normal form leads through the index to the last detail fetched for it |
| DetailStore.MergeIntoDetails | src/gpu_ladder/retry_failed_details.py:160-165 | on a details dict: old keys kept, unfetched details unchanged, keys only old keys or fetched URLs, and each fetched normal form holds, under some key of that form, the detail fetched last for it |
| Harvest.PerYear | src/gpu_ladder/scrape_techpowerup.py:731-735 | one year's combinations, in manufacturer order |
| Harvest.Combos | src/gpu_ladder/scrape_techpowerup.py:731-735 | every combination has a listed manufacturer and a year in range |
| Harvest.CombosLength | src/gpu_ladder/scrape_techpowerup.py:731-735 | there are (years) × (manufacturers) combinations |
| Harvest.CombosAt | src/gpu_ladder/scrape_techpowerup.py:731-735 | year-major order: (ms[i], y) sits at (y - start) × \|ms\| + i |
| Harvest.CombosCover | src/gpu_ladder/scrape_techpowerup.py:731-735 | every manufacturer of every year in range is visited |
| Harvest.ScanStopped | src/gpu_ladder/scrape_techpowerup.py:907-910 | once the cap stops the loop, later combinations are not visited |
| Harvest.CollectListings | src/gpu_ladder/scrape_techpowerup.py:867-912 | the listing loop computes the listings and filter log of `Scan` |
| Harvest.ScanLog | src/gpu_ladder/scrape_techpowerup.py:895-902 | one log entry per visited combination, in order, all of them without an early stop |
| Harvest.ScanListings | src/gpu_ladder/scrape_techpowerup.py:906-910 | the listings are a prefix of the visited pages' rows, all of them without an early stop |
| Harvest.ScanCap | src/gpu_ladder/scrape_techpowerup.py:907-910 | no cap: no stop; a positive cap bounds the listings and stops at the first page reaching it, with exactly the cap's worth |
| Harvest.DetailUrls | src/gpu_ladder/scrape_techpowerup.py:915 | the listings' detail URLs, in order |
| Harvest.Scrape | src/gpu_ladder/scrape_techpowerup.py:726-943 | refused exactly for an invalid year range; otherwise the payload of resolved manufacturers, scanned combos, count, listings, fetched details and failures |
| Harvest.DedupListingsSpec | src/gpu_ladder/scrape_techpowerup.py:235-236 | one listing per detail URL, URLs in first-occurrence order, each holding the last row with that URL |
| Harvest.MissingUrlsSpec | src/gpu_ladder/scrape_techpowerup.py:829-833 | a URL is missing exactly when it is listed and its normal form is not indexed |
| Harvest.WithUrl | src/gpu_ladder/scrape_techpowerup.py:813-822 | exactly the listings with a non-empty detail URL |
| Harvest.KeepWithUrl | src/gpu_ladder/scrape_techpowerup.py:813-822 | the filtering loop computes `WithUrl` |
| Harvest.CollectMissing | src/gpu_ladder/scrape_techpowerup.py:829-833 | the missing-URL loop computes `MissingUrls` |
| Harvest.FillMissingWith | src/gpu_ladder/scrape_techpowerup.py:807-864 | the fill-missing branch computes `FillMissing` |
| Harvest.FillMissingDetails | src/gpu_ladder/scrape_techpowerup.py:807-864 | the branch as run, with `normalize_detail_url` |
| Harvest.FillRequests | src/gpu_ladder/scrape_techpowerup.py:829-838 | requested URLs are listed, non-empty and match no details key by normal form; at most `max_gpus` when positive; nothing written exactly when none |
| Harvest.FillCoversMissing | src/gpu_ladder/scrape_techpowerup.py:829-833 | without a cap every listed URL is requested or already has a details key of its normal form |
| Harvest.FillMerges | src/gpu_ladder/scrape_techpowerup.py:849-858 | old keys kept, unfetched details unchanged, keys only old keys or fetched URLs, each fetched normal form holds its last fetched detail, count is all listings, `failed_details` replaced only by new failures |
| RetryLedger.CandidatesSpec | src/gpu_ladder/retry_failed_details.py:67-76 | candidates are exactly the stripped, non-blank URLs of dict entries |
| RetryLedger.CandidatesPrefix | src/gpu_ladder/retry_failed_details.py:67-76 | the candidates of a prefix of the ledger are a prefix of the candidates |
| RetryLedger.SelectRetryUrls | src/gpu_ladder/retry_failed_details.py:67-76 | the loop with its `seen` set computes `Selection` |
| RetryLedger.SelectionSpec | src/gpu_ladder/retry_failed_details.py:67-76 | the selection is duplicate-free, holds exactly the stripped non-blank dict URLs, in first-occurrence order |
| RetryLedger.Capped | src/gpu_ladder/retry_failed_details.py:78-79 | a cap >= 0 keeps that prefix; no cap or a negative one keeps all |
| RetryLedger.CappedPrefix | src/gpu_ladder/retry_failed_details.py:78-79 | the capped list is a prefix, stays duplicate-free, and is no longer than the cap |
| RetryLedger.UntouchedSpec | src/gpu_ladder/retry_failed_details.py:167-172 | untouched entries are exactly the dict entries whose stripped URL was not attempted |
| RetryLedger.AsLedger | src/gpu_ladder/retry_failed_details.py:173 | new failures become ledger entries, one each, in order |
| RetryLedger.KeepUntouched | src/gpu_ladder/retry_failed_details.py:167-172 | the comprehension computes `Untouched` |
| RetryLedger.RetryWith | src/gpu_ladder/retry_failed_details.py:58-180 | the script computes `Retry` |
| RetryLedger.RetryFailedDetails | src/gpu_ladder/retry_failed_details.py:58-180 | the script as run, with `strip` and `normalize_detail_url` |
| RetryLedger.RetryStops | src/gpu_ladder/retry_failed_details.py:63-83 | refused exactly for a truthy non-list ledger; nothing to retry exactly when the capped selection is empty |
| RetryLedger.RetryAttempts | src/gpu_ladder/retry_failed_details.py:67-79 | attempted URLs are the capped selection: a duplicate-free prefix of stripped non-blank ledger URLs |
| RetryLedger.RetryLedgerRewritten | src/gpu_ladder/retry_failed_details.py:167-180 | the new ledger is the unattempted dict entries in order, then the new failures; the key is absent exactly when both are empty |
| RetryLedger.RetryMerges | src/gpu_ladder/retry_failed_details.py:160-165 | details merged by normal form: old keys kept, unfetched unchanged, new keys fetched URLs, each normal form leads to its last fetched detail |
| Export.DetectTier | src/gpu_ladder/export_gpu_excel.py:74-84 | "S", "A", "B", "C", "D" exactly for rank/max(total,1) in (.., 0.1], (0.1, 0.3], (0.3, 0.6], (0.6, 0.85], above 0.85 |
| Export.TierMonotone | src/gpu_ladder/export_gpu_excel.py:74-84 | a worse rank never gets a better tier |
| Export.ListingMapSpec | src/gpu_ladder/export_gpu_excel.py:91-95 | a non-empty normalised URL maps to the last listing with that normal form; empty ones are left out |
| Export.IndexListings | src/gpu_ladder/export_gpu_excel.py:91-95 | the listing loop computes `ListingMap` |
| Export.FirstDate | src/gpu_ladder/export_gpu_excel.py:109-114 | the first non-empty release date among the sections, "" exactly when there is none |
| Export.Joined | src/gpu_ladder/export_gpu_excel.py:98-137 | one joined record per details entry, in order |
| Export.JoinSpec | src/gpu_ladder/export_gpu_excel.py:98-123 | a record takes name, maker and year from the last listing of its normal form (title and blanks without one), and the first release date |
| Export.NameLeTotal | src/gpu_ladder/export_gpu_excel.py:139 | string order is total |
| Export.NameLeTrans | src/gpu_ladder/export_gpu_excel.py:139 | string order is transitive |
| Export.NameLeAntisym | src/gpu_ladder/export_gpu_excel.py:139 | string order is antisymmetric |
| Export.KeyLeTotal | src/gpu_ladder/export_gpu_excel.py:139 | the sort key order is total |
| Export.KeyLeTrans | src/gpu_ladder/export_gpu_excel.py:139 | the sort key order is transitive |
| Export.InsertPerm | src/gpu_ladder/export_gpu_excel.py:139 | insertion adds exactly the element |
| Export.InsertSorted | src/gpu_ladder/export_gpu_excel.py:139 | insertion keeps the list sorted |
| Export.SortSpec | src/gpu_ladder/export_gpu_excel.py:139 | the sort yields a sorted permutation |
| Export.SortSorted | src/gpu_ladder/export_gpu_excel.py:139 | sorting a sorted list changes nothing |
| Export.Ranked | src/gpu_ladder/export_gpu_excel.py:140-143 | ranks 1..n in list order, each tier that of its rank |
| Export.AssignRanks | src/gpu_ladder/export_gpu_excel.py:140-143 | the ranking loop computes `Ranked` |
| Export.BuildRecordsWith | src/gpu_ladder/export_gpu_excel.py:87-144 | `build_records` computes `Records` |
| Export.BuildRecords | src/gpu_ladder/export_gpu_excel.py:87-144 | `build_records` as run, with `normalize_url` |
| Export.RecordsRanked | src/gpu_ladder/export_gpu_excel.py:97-144 | one record per details entry; the sorted records are a permutation of the joined ones, rows with an FP32 value before rows without, descending, ties by name; ranks 1..n in order; each tier that of its rank |
| Export.MembersSpec | src/gpu_ladder/export_gpu_excel.py:269-274 | a group's members are exactly the records with that key, in order |
| Export.Block | src/gpu_ladder/export_gpu_excel.py:281-294 | a group's rows, numbered 1, 2, … in order |
| Export.GroupRecords | src/gpu_ladder/export_gpu_excel.py:269-274 | `grouped` holds, for each non-blank key, its members in order; a blank key is never grouped |
| Export.NumberGroup | src/gpu_ladder/export_gpu_excel.py:281-294 | the numbering loop computes `Block` |
| Export.WriteGroupSheet | src/gpu_ladder/export_gpu_excel.py:269-294 | grouping and numbering compute `Sheet` |
| Export.BlockMembers | src/gpu_ladder/export_gpu_excel.py:276-294 | a group's rows hold records of that group |
| Export.SheetMembers | src/gpu_ladder/export_gpu_excel.py:269-294 | every row holds a record of its own listed, non-blank group |
| Export.SheetRanks | src/gpu_ladder/export_gpu_excel.py:281-285 | group ranks start at 1 with each group and rise by one within it |
| Export.SheetCovers | src/gpu_ladder/export_gpu_excel.py:269-294 | every record with a non-blank key among the group values appears under its group |
| Export.GroupsKeepOrder | src/gpu_ladder/export_gpu_excel.py:280 | on records in rank order, each group is already in order |
| ListingPatch.Kept | tmp.py:14-17 | exactly the old listings that are not AMD from 2019 or 2024 |
| ListingPatch.KeptAppend | tmp.py:14-17 | the filter keeps the relative order |
| ListingPatch.KeyedPairs | tmp.py:21-25 | no more assignments than items |
| ListingPatch.KeyedPairsCover | tmp.py:22-25 | every item with a non-empty key contributes its key |
| ListingPatch.LastKeyed | tmp.py:22-25 | the last assignment under a key stores an item with that key, from the list |
| ListingPatch.SeenEntry | tmp.py:21-27 | each dict entry holds, under a non-empty key, the last item with that key |
| ListingPatch.DedupedSpec | tmp.py:21-27 | one listing per non-empty key, keys distinct and in first-occurrence order, each the last item with that key |
| ListingPatch.DedupedFromItems | tmp.py:21-27 | every deduplicated listing is an input item with a non-empty key |
| ListingPatch.DedupedCovers | tmp.py:21-27 | every item with a non-empty key has its key represented |
| ListingPatch.KeyedPairsStep | tmp.py:22-25 | one more item is assigned exactly when its key is non-empty |
| ListingPatch.DedupByUrl | tmp.py:21-27 | the dedup loop computes `Deduped` |
| ListingPatch.Tally | tmp.py:35-36 | the count is at most the number of listings, 0 exactly when none match, all exactly when all match |
| ListingPatch.IndexedAt | tmp.py:31-32 | `idx[(m, y)]` is the last keyed filter entry for that pair; none exactly when there is none |
| ListingPatch.SetResults | tmp.py:33-36 | only the indexed entry's results change |
| ListingPatch.RefreshedSpec | tmp.py:31-36 | the entries indexed for AMD 2019 and AMD 2024 get their counts; all others unchanged |
| ListingPatch.RefreshFilters | tmp.py:33-36 | the refresh loop computes `Refreshed` |
| ListingPatch.ApplyPatch | tmp.py:14-36 | the script computes `Patch` |
| ListingPatch.PatchListingsSpec | tmp.py:14-28 | the count is the listing count; every listing comes from the kept old list or the patch list; a replaced listing survives only from the patch list; keys distinct |
| ListingPatch.PatchFiltersSpec | tmp.py:31-36 | the filter list keeps its length and the indexed entries carry the new counts |
| ListingPatch.IncomingWins | tmp.py:19-27 | a patch listing whose key no other patch listing shares is in the result |
| ListingPatch.LastWins | tmp.py:21-25 | the only item with its key in a suffix is the one last stored under that key |

## Left out

- `_fetch_text`: the retry and backoff loop is not modelled. Its control flow is decided by tenacity's `AsyncRetrying` and httpx exceptions, whose code is not part of this model.
- `_resolve_retry_after_seconds` is not modelled. It parses floats.
- Browser work is not modelled: Playwright, `bootstrap_storage_state`, `fetch_html_via_browser`, and the refresh and browser callbacks built in `run`.
- DOM traversal is not modelled: `parse_listing_document`'s XPath, `collect_key_values`, `find_section_block`, the selectors and image collection of `parse_detail_document`. Their outputs are inputs here: rows, headings with their blocks, fallback hits, hero and section maps, and class lists.
- `fetch_details_concurrently` is not modelled. Its semaphore, pacing and gather are concurrency. Its outcome is a parameter: the details in the order returned, and the failures.
- The `asyncio.Lock` of the cookie refresher is not modelled. The debounce is a sequential rule. The clock readings before and after the lock are separate inputs.
- The decimal branch of `multiply_value_numbers` (`:.4f` formatting) is a parameter `scaleDecimal`. It is floating point.
- `parse_number_with_unit` and `parse_flops_to_tflops` are not modelled. They are floating point. The parsed FP32 value is a parameter `parseFlops`, and its result is only compared.
- Export.DetectTier: computed exactly on rationals. The source's float division can only differ for totals too large for a double to represent.
- `merge_url_query`, `to_human_listing_url` and `build_listing_filter_url` are not modelled. They depend on urllib's percent-encoding.
- JSON reading and writing, `load_cookies`, `build_parser`, `main` and its exit codes, `write_excel` and its charts, and every `print` are not modelled. These are I/O. Fields read back from JSON are inputs. In `tmp.py`, a missing `detail_url` is the empty string.
- `src/gpu_ladder/__init__.py` is not part of this model. It only re-exports.
- Text.Lower: `str.lower` is modelled for ASCII letters only, and `\d`, `\w` and `\b` are read as their ASCII forms. Non-ASCII case folding is not modelled.
- Urls.SplitUrl: `urlsplit` is modelled for the scheme, `//authority`, path, query and fragment. Not modelled: the removal of tab and newline characters, the IPv6 bracket check, and the `//` re-inserted by `urlunsplit` for schemes that use a netloc when the authority is empty.
- Urls.NormalizeIdempotent: idempotence is proved only for URLs with an authority whose normal form has no trailing whitespace. Urls.NotIdempotentOnInnerSpace shows that the condition is needed.
- Export.BuildRecords: the exporter's own `normalize_url` (export_gpu_excel.py:39-41) has the same body as `normalize_detail_url`, so it is modelled by `Urls.NormalizeDetailUrl`.
- Export.RecordsRanked: does not state that records with equal sort keys keep their details order. `SortRecords` is a stable insertion sort, as Python's sort is, but its stability is not proved.
- Export.WriteGroupSheet: the group key and the blank test (`None`, `""`, `0`) are parameters. The sheets' cell layout is not modelled.
- Harvest.Scrape: the cookie bootstrap, the `--http2` dependency check and the missing-cookie error before the listing loop are not modelled.
- Harvest.FillMissingWith: the error raised when the output file is missing, and the `--pretty` indentation, are not modelled. Insertion order of `details` keys is modelled only through the merged map.
- DetailStore.MergeBack: the result is a map, so the key order of the rewritten `details` dict is not modelled.
- ListingPatch.ApplyPatch: the script updates the loaded JSON document and its filter dicts in place. Here those updates are returned values. A filter dict is identified by its position, which stands for the aliasing between `idx` and `a["filters"]`. Fields of a filter entry other than manufacturer, year and results are not modelled.

## Findings

| source | as written | input that shows it | evidently intended | confidence | as-written member | corrected member |
|---|---|---|---|---|---|---|
| src/gpu_ladder/scrape_techpowerup.py:473 | The first alternative `\d{1,3}(?:,\d{3})*(?:\.\d+)?` matches at every digit, so a comma-free run of more than three digits is split into 3-digit tokens, each scaled on its own; the second alternative is never used | `multiply_value_numbers("4096", 2)` gives "81812" | the whole number scaled: "8,192" | high, not executed | ValueScaling.FourDigitsSplitAsWritten | ValueScaling.FourDigitsScaled |
