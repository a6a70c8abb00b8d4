/** The exporter: it turns the scraper's output into ranked GPU records and
    groups them for the per-year and per-manufacturer sheets.

    Parsing numbers out of spec values is floating-point work and is not
    modelled: the parsed FP32 throughput is given by a parameter `parseFlops`,
    whose integer result stands for the parsed value and is only compared. The
    URL normaliser `norm` is a parameter too; `BuildRecords` passes
    `Urls.NormalizeDetailUrl`, which has the same body as the exporter's
    `normalize_url`. */
module Export {
  import opened Common
  import opened OrderedDicts
  import DetailStore
  import Urls

  // ---------------------------------------------------------------------------
  // Tiers

  /** `rank / max(total, 1)`, exactly. */
  function Ratio(rank: int, total: int): real {
    (rank as real) / ((if total > 1 then total else 1) as real)
  }

  lemma RatioAtMost(rank: int, t: int, num: int, den: int)
    requires t >= 1 && den >= 1
    ensures (rank as real) / (t as real) <= (num as real) / (den as real) <==> rank * den <= num * t
  {
    var x := (rank as real) / (t as real);
    var y := (num as real) / (den as real);
    assert x * (t as real) == rank as real;
    assert y * (den as real) == num as real;
    assert (rank * den) as real == x * (t as real) * (den as real);
    assert (num * t) as real == y * (den as real) * (t as real);
    if x <= y {
      assert x * ((t * den) as real) <= y * ((t * den) as real);
    } else {
      assert y * ((t * den) as real) < x * ((t * den) as real);
    }
  }

  /** `detect_tier`, computed on integers: the bands are rank/total at most 0.1,
      0.3, 0.6 and 0.85. */
  function DetectTier(rank: int, total: int): (tier: string)
    ensures tier == "S" <==> Ratio(rank, total) <= 0.1
    ensures tier == "A" <==> 0.1 < Ratio(rank, total) <= 0.3
    ensures tier == "B" <==> 0.3 < Ratio(rank, total) <= 0.6
    ensures tier == "C" <==> 0.6 < Ratio(rank, total) <= 0.85
    ensures tier == "D" <==> 0.85 < Ratio(rank, total)
  {
    var t := if total > 1 then total else 1;
    RatioAtMost(rank, t, 1, 10);
    RatioAtMost(rank, t, 3, 10);
    RatioAtMost(rank, t, 6, 10);
    RatioAtMost(rank, t, 17, 20);
    if rank * 10 <= t then "S"
    else if rank * 10 <= 3 * t then "A"
    else if rank * 10 <= 6 * t then "B"
    else if rank * 20 <= 17 * t then "C"
    else "D"
  }

  /** The position of a tier from best to worst. */
  function TierLevel(tier: string): nat {
    if tier == "S" then 0 else if tier == "A" then 1 else if tier == "B" then 2 else if tier == "C" then 3 else 4
  }

  /** A worse rank never gets a better tier. */
  lemma {:induction false} TierMonotone(rank1: int, rank2: int, total: int)
    requires rank1 <= rank2
    ensures TierLevel(DetectTier(rank1, total)) <= TierLevel(DetectTier(rank2, total))
  {
    var t := if total > 1 then total else 1;
    assert rank1 * 10 <= rank2 * 10 && rank1 * 20 <= rank2 * 20;
  }

  // ---------------------------------------------------------------------------
  // Records

  /** `GPURecord` with the fields the ranking uses; `fp32` is `None` when no
      FP32 value could be parsed. */
  datatype Record = Record(
    rank: int,
    tier: string,
    name: string,
    manufacturer: string,
    year: int,
    detailUrl: string,
    fp32: Option<int>,
    releaseDate: string)

  /** The listing map: normalised URL to listing, later listings overwriting
      earlier ones, listings whose URL normalises to "" left out. */
  function ListingMap(listings: seq<Listing>, norm: DetailStore.Norm): map<string, Listing> {
    if listings == [] then map[]
    else
      var m := ListingMap(listings[..|listings| - 1], norm);
      var l := listings[|listings| - 1];
      var u := norm(l.detailUrl);
      if u != [] then m[u := l] else m
  }

  /** The last listing whose URL normalises to `u`. */
  function LastListing(listings: seq<Listing>, u: string, norm: DetailStore.Norm): Option<Listing> {
    if listings == [] then None
    else if norm(listings[|listings| - 1].detailUrl) == u then Some(listings[|listings| - 1])
    else LastListing(listings[..|listings| - 1], u, norm)
  }

  /** A non-empty normalised URL finds the last listing with that normal form. */
  lemma {:induction false} ListingMapSpec(listings: seq<Listing>, norm: DetailStore.Norm)
    ensures forall u :: u in ListingMap(listings, norm) <==> u != [] && LastListing(listings, u, norm).Some?
    ensures forall u :: u in ListingMap(listings, norm) ==>
      ListingMap(listings, norm)[u] == LastListing(listings, u, norm).value
  {
    if listings != [] {
      ListingMapSpec(listings[..|listings| - 1], norm);
    }
  }

  /** The sections a release date is read from, in order. */
  const ReleaseDateSections: seq<string> := ["Graphics Card", "Mobile Graphics", "Integrated Graphics"]

  /** The "Release Date" of `section`, "" when the section or the label is missing. */
  function DateIn(sections: map<string, map<string, string>>, section: string): string {
    if section in sections && "Release Date" in sections[section] then sections[section]["Release Date"] else ""
  }

  /** The first non-empty release date among `names`, else "". */
  function FirstDate(sections: map<string, map<string, string>>, names: seq<string>): (date: string)
    ensures date == "" <==> forall i :: 0 <= i < |names| ==> DateIn(sections, names[i]) == ""
    ensures date != "" ==>
      exists i :: 0 <= i < |names| && date == DateIn(sections, names[i])
        && forall j :: 0 <= j < i ==> DateIn(sections, names[j]) == ""
  {
    if names == [] then ""
    else if DateIn(sections, names[0]) != "" then DateIn(sections, names[0])
    else
      var date := FirstDate(sections, names[1..]);
      assert forall i :: 1 <= i < |names| ==> names[i] == names[1..][i - 1];
      date
  }

  /** The record of one details entry, before ranking. */
  function Join(url: string, d: Detail, listingMap: map<string, Listing>, parseFlops: string -> Option<int>,
                norm: DetailStore.Norm): Record
  {
    var u := norm(url);
    var listing := if u in listingMap then Some(listingMap[u]) else None;
    var perf := if "Theoretical Performance" in d.sections then d.sections["Theoretical Performance"] else map[];
    Record(
      0, "",
      if listing.Some? && listing.value.name != [] then listing.value.name else d.title,
      if listing.Some? then listing.value.manufacturer else "",
      if listing.Some? then listing.value.year else 0,
      url,
      parseFlops(if "FP32 (float)" in perf then perf["FP32 (float)"] else ""),
      FirstDate(d.sections, ReleaseDateSections))
  }

  function Joined(details: Dict<Detail>, listingMap: map<string, Listing>, parseFlops: string -> Option<int>,
                  norm: DetailStore.Norm): (rows: seq<Record>)
    ensures |rows| == |details|
    ensures forall i :: 0 <= i < |details| ==> rows[i] == Join(details[i].0, details[i].1, listingMap, parseFlops, norm)
  {
    seq(|details|, i requires 0 <= i < |details| => Join(details[i].0, details[i].1, listingMap, parseFlops, norm))
  }

  // ---------------------------------------------------------------------------
  // Ordering

  /** Python's `<=` on strings: code point by code point, a prefix first. */
  predicate NameLe(a: string, b: string) {
    a == [] || (b != [] && (a[0] < b[0] || (a[0] == b[0] && NameLe(a[1..], b[1..]))))
  }

  lemma {:induction false} NameLeTotal(a: string, b: string)
    ensures NameLe(a, b) || NameLe(b, a)
  {
    if a != [] && b != [] && a[0] == b[0] {
      NameLeTotal(a[1..], b[1..]);
    }
  }

  lemma {:induction false} NameLeTrans(a: string, b: string, c: string)
    requires NameLe(a, b) && NameLe(b, c)
    ensures NameLe(a, c)
  {
    if a != [] && b != [] && c != [] && a[0] == b[0] && b[0] == c[0] {
      NameLeTrans(a[1..], b[1..], c[1..]);
    }
  }

  lemma {:induction false} NameLeAntisym(a: string, b: string)
    requires NameLe(a, b) && NameLe(b, a)
    ensures a == b
  {
    if a != [] && b != [] {
      NameLeAntisym(a[1..], b[1..]);
      assert a == [a[0]] + a[1..] && b == [b[0]] + b[1..];
    }
  }

  /** The sort key `(fp32 is None, -(fp32 or 0), name)`, compared: records with
      a value first, larger values first, then by name. */
  predicate KeyLe(x: Record, y: Record) {
    match (x.fp32, y.fp32)
    case (Some(a), Some(b)) => a > b || (a == b && NameLe(x.name, y.name))
    case (Some(_), None) => true
    case (None, Some(_)) => false
    case (None, None) => NameLe(x.name, y.name)
  }

  lemma KeyLeTotal(x: Record, y: Record)
    ensures KeyLe(x, y) || KeyLe(y, x)
  {
    NameLeTotal(x.name, y.name);
  }

  lemma KeyLeTrans(x: Record, y: Record, z: Record)
    requires KeyLe(x, y) && KeyLe(y, z)
    ensures KeyLe(x, z)
  {
    if NameLe(x.name, y.name) && NameLe(y.name, z.name) {
      NameLeTrans(x.name, y.name, z.name);
    }
  }

  ghost predicate Sorted(s: seq<Record>) {
    forall i, j :: 0 <= i < j < |s| ==> KeyLe(s[i], s[j])
  }

  /** Inserting after every element whose key is not greater, which keeps equal
      keys in their original order. */
  function Insert(s: seq<Record>, x: Record): seq<Record> {
    if s == [] then [x]
    else if KeyLe(s[|s| - 1], x) then s + [x]
    else Insert(s[..|s| - 1], x) + [s[|s| - 1]]
  }

  /** A stable sort by `KeyLe`, as `list.sort` with that key. */
  function SortRecords(s: seq<Record>): seq<Record> {
    if s == [] then [] else Insert(SortRecords(s[..|s| - 1]), s[|s| - 1])
  }

  lemma {:induction false} InsertPerm(s: seq<Record>, x: Record)
    ensures multiset(Insert(s, x)) == multiset(s) + multiset{x}
  {
    if s != [] {
      var init := s[..|s| - 1];
      assert s == init + [s[|s| - 1]];
      if !KeyLe(s[|s| - 1], x) {
        InsertPerm(init, x);
      }
    }
  }

  lemma {:induction false} InsertSorted(s: seq<Record>, x: Record)
    requires Sorted(s)
    ensures Sorted(Insert(s, x))
  {
    if s != [] {
      var init := s[..|s| - 1];
      var last := s[|s| - 1];
      if KeyLe(last, x) {
        forall i | 0 <= i < |s| ensures KeyLe(s[i], x) {
          if i < |s| - 1 {
            KeyLeTrans(s[i], last, x);
          }
        }
        var r := s + [x];
        forall i, j | 0 <= i < j < |r| ensures KeyLe(r[i], r[j]) {
          if j < |s| {
            assert r[i] == s[i] && r[j] == s[j];
          }
        }
      } else {
        assert Sorted(init);
        InsertSorted(init, x);
        InsertPerm(init, x);
        var t := Insert(init, x);
        KeyLeTotal(last, x);
        forall i | 0 <= i < |t| ensures KeyLe(t[i], last) {
          assert t[i] in multiset(t);
          if t[i] != x {
            assert t[i] in multiset(init);
            var k :| 0 <= k < |init| && init[k] == t[i];
            assert s[k] == init[k];
          }
        }
        var r := t + [last];
        forall i, j | 0 <= i < j < |r| ensures KeyLe(r[i], r[j]) {
          if j < |t| {
            assert r[i] == t[i] && r[j] == t[j];
          }
        }
      }
    }
  }

  /** The sort orders the records by key and keeps them all. */
  lemma {:induction false} SortSpec(s: seq<Record>)
    ensures Sorted(SortRecords(s))
    ensures multiset(SortRecords(s)) == multiset(s)
  {
    if s != [] {
      var init := s[..|s| - 1];
      SortSpec(init);
      InsertSorted(SortRecords(init), s[|s| - 1]);
      InsertPerm(SortRecords(init), s[|s| - 1]);
      assert s == init + [s[|s| - 1]];
    }
  }

  /** Sorting records already in order changes nothing. */
  lemma {:induction false} SortSorted(s: seq<Record>)
    requires Sorted(s)
    ensures SortRecords(s) == s
  {
    if s != [] {
      var init := s[..|s| - 1];
      assert Sorted(init);
      SortSorted(init);
      assert s == init + [s[|s| - 1]];
      if |s| > 1 {
        assert KeyLe(s[|s| - 2], s[|s| - 1]);
      }
    }
  }

  // ---------------------------------------------------------------------------
  // Building the records

  /** Ranks and tiers assigned in list order. */
  function Ranked(s: seq<Record>): (r: seq<Record>)
    ensures |r| == |s|
    ensures forall i :: 0 <= i < |s| ==> r[i] == s[i].(rank := i + 1, tier := DetectTier(i + 1, |s|))
  {
    seq(|s|, i requires 0 <= i < |s| => s[i].(rank := i + 1, tier := DetectTier(i + 1, |s|)))
  }

  /** What `build_records` returns. */
  function Records(listings: seq<Listing>, details: Dict<Detail>, parseFlops: string -> Option<int>,
                   norm: DetailStore.Norm): seq<Record>
  {
    Ranked(SortRecords(Joined(details, ListingMap(listings, norm), parseFlops, norm)))
  }

  /** The URL-to-listing loop of `build_records`. */
  method IndexListings(listings: seq<Listing>, norm: DetailStore.Norm) returns (listingMap: map<string, Listing>)
    ensures listingMap == ListingMap(listings, norm)
  {
    listingMap := map[];
    for i := 0 to |listings|
      invariant listingMap == ListingMap(listings[..i], norm)
    {
      assert listings[..i + 1][..i] == listings[..i];
      var url := norm(listings[i].detailUrl);
      if url != [] {
        listingMap := listingMap[url := listings[i]];
      }
    }
    assert listings[..|listings|] == listings;
  }

  /** The ranking loop of `build_records`. */
  method AssignRanks(sorted: seq<Record>) returns (rows: seq<Record>)
    ensures rows == Ranked(sorted)
  {
    rows := sorted;
    var total := |rows|;
    for i := 0 to total
      invariant |rows| == total
      invariant forall k :: 0 <= k < i ==> rows[k] == sorted[k].(rank := k + 1, tier := DetectTier(k + 1, total))
      invariant forall k :: i <= k < total ==> rows[k] == sorted[k]
    {
      rows := rows[i := rows[i].(rank := i + 1, tier := DetectTier(i + 1, total))];
    }
  }

  /** `build_records` with any URL normaliser. */
  method BuildRecordsWith(listings: seq<Listing>, details: Dict<Detail>, parseFlops: string -> Option<int>,
                          norm: DetailStore.Norm)
    returns (rows: seq<Record>)
    ensures rows == Records(listings, details, parseFlops, norm)
  {
    var listingMap := IndexListings(listings, norm);
    rows := [];
    for i := 0 to |details|
      invariant |rows| == i
      invariant forall k :: 0 <= k < i ==> rows[k] == Join(details[k].0, details[k].1, listingMap, parseFlops, norm)
    {
      rows := rows + [Join(details[i].0, details[i].1, listingMap, parseFlops, norm)];
    }
    assert rows == Joined(details, listingMap, parseFlops, norm);
    rows := AssignRanks(SortRecords(rows));
  }

  /** `build_records` as the exporter runs it. */
  method BuildRecords(listings: seq<Listing>, details: Dict<Detail>, parseFlops: string -> Option<int>)
    returns (rows: seq<Record>)
    ensures rows == Records(listings, details, parseFlops, Urls.NormalizeDetailUrl)
  {
    rows := BuildRecordsWith(listings, details, parseFlops, Urls.NormalizeDetailUrl);
  }

  /** One record per details entry, in sort order: records with an FP32 value
      first, by descending value, ties and records without a value by name;
      ranks run 1..n and each tier is that of its rank. */
  lemma RecordsRanked(listings: seq<Listing>, details: Dict<Detail>, parseFlops: string -> Option<int>,
                      norm: DetailStore.Norm)
    ensures var rows := Records(listings, details, parseFlops, norm);
      var joined := Joined(details, ListingMap(listings, norm), parseFlops, norm);
      |rows| == |details|
      && multiset(SortRecords(joined)) == multiset(joined)
      && (forall i :: 0 <= i < |rows| ==>
            rows[i].rank == i + 1 && rows[i].tier == DetectTier(i + 1, |rows|)
            && rows[i] == SortRecords(joined)[i].(rank := i + 1, tier := DetectTier(i + 1, |rows|)))
      && (forall i, j :: 0 <= i < j < |rows| ==>
            (rows[j].fp32.Some? ==> rows[i].fp32.Some?)
            && (rows[i].fp32.Some? && rows[j].fp32.Some? ==> rows[i].fp32.value >= rows[j].fp32.value)
            && (rows[i].fp32 == rows[j].fp32 ==> NameLe(rows[i].name, rows[j].name)))
  {
    var joined := Joined(details, ListingMap(listings, norm), parseFlops, norm);
    SortSpec(joined);
    var s := SortRecords(joined);
    assert |s| == |joined| by {
      assert |multiset(s)| == |multiset(joined)|;
    }
    var rows := Ranked(s);
    forall i, j | 0 <= i < j < |rows|
      ensures (rows[j].fp32.Some? ==> rows[i].fp32.Some?)
        && (rows[i].fp32.Some? && rows[j].fp32.Some? ==> rows[i].fp32.value >= rows[j].fp32.value)
        && (rows[i].fp32 == rows[j].fp32 ==> NameLe(rows[i].name, rows[j].name))
    {
      assert KeyLe(s[i], s[j]);
      assert rows[i].fp32 == s[i].fp32 && rows[i].name == s[i].name;
      assert rows[j].fp32 == s[j].fp32 && rows[j].name == s[j].name;
    }
  }

  /** The join: a record takes its name, maker and year from the last listing
      whose URL has the detail key's normal form (the detail's title when there
      is none or its name is empty), its FP32 value from "Theoretical
      Performance", and its release date from the first of the three sections
      that has one. */
  lemma JoinSpec(listings: seq<Listing>, url: string, d: Detail, parseFlops: string -> Option<int>,
                 norm: DetailStore.Norm)
    ensures var r := Join(url, d, ListingMap(listings, norm), parseFlops, norm);
      var l := LastListing(listings, norm(url), norm);
      r.detailUrl == url && r.rank == 0 && r.tier == ""
      && (norm(url) != [] && l.Some? ==>
            r.manufacturer == l.value.manufacturer && r.year == l.value.year
            && r.name == (if l.value.name != [] then l.value.name else d.title))
      && (norm(url) == [] || l.None? ==> r.manufacturer == "" && r.year == 0 && r.name == d.title)
      && (r.releaseDate == "" <==> forall i :: 0 <= i < 3 ==> DateIn(d.sections, ReleaseDateSections[i]) == "")
  {
    ListingMapSpec(listings, norm);
  }

  // ---------------------------------------------------------------------------
  // Group sheets

  /** One row of a group sheet: the group, the rank within it and the record. */
  datatype GroupRow<K> = GroupRow(group: K, groupRank: int, record: Record)

  /** The records whose key is `g`, in order. */
  function Members<K(==)>(records: seq<Record>, g: K, key: Record -> K): seq<Record> {
    if records == [] then []
    else
      var r := records[|records| - 1];
      Members(records[..|records| - 1], g, key) + (if key(r) == g then [r] else [])
  }

  lemma {:induction false} MembersSpec<K>(records: seq<Record>, g: K, key: Record -> K)
    ensures forall r :: r in Members(records, g, key) <==> r in records && key(r) == g
    ensures Sorted(records) ==> Sorted(Members(records, g, key))
  {
    if records != [] {
      var init := records[..|records| - 1];
      var last := records[|records| - 1];
      MembersSpec(init, g, key);
      assert records == init + [last];
      var m := Members(init, g, key);
      assert Members(records, g, key) == m + (if key(last) == g then [last] else []);
      if Sorted(records) && key(last) == g {
        assert Sorted(init) by {
          forall i, j | 0 <= i < j < |init| ensures KeyLe(init[i], init[j]) {
            assert init[i] == records[i] && init[j] == records[j];
          }
        }
        forall i | 0 <= i < |m| ensures KeyLe(m[i], last) {
          assert m[i] in init;
          var k :| 0 <= k < |init| && init[k] == m[i];
          assert records[k] == init[k];
        }
        SortedAppend(m, last);
      }
    }
  }

  lemma SortedAppend(s: seq<Record>, x: Record)
    requires Sorted(s)
    requires forall i :: 0 <= i < |s| ==> KeyLe(s[i], x)
    ensures Sorted(s + [x])
  {
    var t := s + [x];
    forall i, j | 0 <= i < j < |t| ensures KeyLe(t[i], t[j]) {
      assert t[i] == s[i];
    }
  }

  /** The rows of one group: ranks 1, 2, … in the order of `items`. */
  function Block<K>(g: K, items: seq<Record>): (b: seq<GroupRow<K>>)
    ensures |b| == |items|
    ensures forall i :: 0 <= i < |items| ==> b[i] == GroupRow(g, i + 1, items[i])
  {
    seq(|items|, i requires 0 <= i < |items| => GroupRow(g, i + 1, items[i]))
  }

  /** The sheet: for each group value in order, its members sorted and numbered;
      a blank key (`None`, "" or 0) is never grouped, and a group without
      members yields no rows. */
  function Sheet<K(==)>(records: seq<Record>, groupValues: seq<K>, key: Record -> K, blank: K -> bool)
    : seq<GroupRow<K>>
  {
    if groupValues == [] then []
    else
      var g := groupValues[|groupValues| - 1];
      Sheet(records, groupValues[..|groupValues| - 1], key, blank)
        + (if blank(g) then [] else Block(g, SortRecords(Members(records, g, key))))
  }

  /** The `grouped` dict of `write_group_sheet`: the members of each non-blank
      key, in order. */
  method GroupRecords<K(==)>(records: seq<Record>, key: Record -> K, blank: K -> bool)
    returns (grouped: map<K, seq<Record>>)
    ensures forall g :: g in grouped ==> !blank(g) && grouped[g] == Members(records, g, key)
    ensures forall g :: g !in grouped && !blank(g) ==> Members(records, g, key) == []
  {
    grouped := map[];
    for i := 0 to |records|
      invariant forall g :: g in grouped ==> !blank(g) && grouped[g] == Members(records[..i], g, key)
      invariant forall g :: g !in grouped && !blank(g) ==> Members(records[..i], g, key) == []
    {
      assert records[..i + 1][..i] == records[..i];
      var r := records[i];
      forall h
        ensures Members(records[..i + 1], h, key) == Members(records[..i], h, key) + (if key(r) == h then [r] else [])
      {
      }
      var g := key(r);
      if blank(g) {
        continue;
      }
      var items := if g in grouped then grouped[g] else [];
      assert items == Members(records[..i], g, key);
      grouped := grouped[g := items + [r]];
    }
    assert records[..|records|] == records;
  }

  /** The numbering of one group's rows, from 1. */
  method NumberGroup<K>(g: K, items: seq<Record>) returns (rows: seq<GroupRow<K>>)
    ensures rows == Block(g, items)
  {
    rows := [];
    for idx := 0 to |items|
      invariant rows == Block(g, items[..idx])
    {
      assert Block(g, items[..idx + 1]) == Block(g, items[..idx]) + [GroupRow(g, idx + 1, items[idx])];
      rows := rows + [GroupRow(g, idx + 1, items[idx])];
    }
    assert items[..|items|] == items;
  }

  /** The grouping and numbering of `write_group_sheet`. */
  method WriteGroupSheet<K(==)>(records: seq<Record>, groupValues: seq<K>, key: Record -> K, blank: K -> bool)
    returns (rows: seq<GroupRow<K>>)
    ensures rows == Sheet(records, groupValues, key, blank)
  {
    var grouped := GroupRecords(records, key, blank);
    rows := [];
    for j := 0 to |groupValues|
      invariant rows == Sheet(records, groupValues[..j], key, blank)
    {
      assert groupValues[..j + 1][..j] == groupValues[..j];
      var g := groupValues[j];
      ghost var next := if blank(g) then [] else Block(g, SortRecords(Members(records, g, key)));
      assert Sheet(records, groupValues[..j + 1], key, blank) == rows + next;
      var items := if g in grouped then grouped[g] else [];
      if items == [] {
        assert next == [];
        continue;
      }
      var block := NumberGroup(g, SortRecords(items));
      rows := rows + block;
    }
    assert groupValues[..|groupValues|] == groupValues;
  }

  /** The rows of one group hold that group's records. */
  lemma BlockMembers<K>(records: seq<Record>, g: K, key: Record -> K)
    ensures forall row :: row in Block(g, SortRecords(Members(records, g, key))) ==>
      row.group == g && row.record in records && key(row.record) == g
  {
    var m := Members(records, g, key);
    MembersSpec(records, g, key);
    SortSpec(m);
    var items := SortRecords(m);
    var b := Block(g, items);
    forall row | row in b ensures row.group == g && row.record in records && key(row.record) == g {
      var i :| 0 <= i < |b| && b[i] == row;
      assert items[i] in multiset(m);
    }
  }

  /** Every row holds a record of its own, listed, non-blank group. */
  ghost predicate Belong<K>(rows: seq<GroupRow<K>>, records: seq<Record>, groupValues: seq<K>, key: Record -> K,
                            blank: K -> bool)
  {
    forall row :: row in rows ==>
      row.record in records && key(row.record) == row.group && !blank(row.group) && row.group in groupValues
  }

  lemma {:induction false} SheetMembers<K>(records: seq<Record>, groupValues: seq<K>, key: Record -> K,
                                           blank: K -> bool)
    ensures Belong(Sheet(records, groupValues, key, blank), records, groupValues, key, blank)
  {
    if groupValues != [] {
      var init := groupValues[..|groupValues| - 1];
      var g := groupValues[|groupValues| - 1];
      assert groupValues == init + [g];
      SheetMembers(records, init, key, blank);
      var prev := Sheet(records, init, key, blank);
      var sheet := Sheet(records, groupValues, key, blank);
      if blank(g) {
        assert sheet == prev;
      } else {
        var b := Block(g, SortRecords(Members(records, g, key)));
        assert sheet == prev + b;
        BlockMembers(records, g, key);
        assert Belong(prev, records, init, key, blank);
      }
    }
  }

  /** Group ranks restart at 1 with each group and go up by one within it. */
  ghost predicate Numbered<K>(rows: seq<GroupRow<K>>) {
    forall i :: 0 <= i < |rows| ==>
      rows[i].groupRank == 1
      || (i > 0 && rows[i - 1].group == rows[i].group && rows[i].groupRank == rows[i - 1].groupRank + 1)
  }

  lemma {:induction false} SheetRanks<K>(records: seq<Record>, groupValues: seq<K>, key: Record -> K,
                                         blank: K -> bool)
    ensures Numbered(Sheet(records, groupValues, key, blank))
  {
    if groupValues != [] {
      var init := groupValues[..|groupValues| - 1];
      var g := groupValues[|groupValues| - 1];
      SheetRanks(records, init, key, blank);
      var prev := Sheet(records, init, key, blank);
      assert Numbered(prev);
      var sheet := Sheet(records, groupValues, key, blank);
      if blank(g) {
        assert sheet == prev;
      } else {
        var items := SortRecords(Members(records, g, key));
        var b := Block(g, items);
        assert sheet == prev + b;
        forall i | 0 <= i < |sheet|
          ensures sheet[i].groupRank == 1
            || (i > 0 && sheet[i - 1].group == sheet[i].group && sheet[i].groupRank == sheet[i - 1].groupRank + 1)
        {
          if i > |prev| {
            var j := i - |prev|;
            assert sheet[i] == b[j] == GroupRow(g, j + 1, items[j]);
            assert sheet[i - 1] == b[j - 1] == GroupRow(g, j, items[j - 1]);
          } else if i == |prev| {
            assert sheet[i] == b[0] == GroupRow(g, 1, items[0]);
          } else {
            assert sheet[i] == prev[i];
            if i > 0 {
              assert sheet[i - 1] == prev[i - 1];
            }
          }
        }
      }
    }
  }

  /** Every record with a non-blank key among the group values appears under
      that group. */
  lemma {:induction false} SheetCovers<K>(records: seq<Record>, groupValues: seq<K>, key: Record -> K,
                                          blank: K -> bool, r: Record)
    requires r in records && !blank(key(r)) && key(r) in groupValues
    ensures exists row :: row in Sheet(records, groupValues, key, blank) && row.record == r && row.group == key(r)
  {
    var init := groupValues[..|groupValues| - 1];
    var g := groupValues[|groupValues| - 1];
    assert groupValues == init + [g];
    var prev := Sheet(records, init, key, blank);
    var sheet := Sheet(records, groupValues, key, blank);
    if key(r) in init {
      SheetCovers(records, init, key, blank, r);
      var row :| row in prev && row.record == r && row.group == key(r);
      assert sheet == prev + (if blank(g) then [] else Block(g, SortRecords(Members(records, g, key))));
      assert row in sheet;
    } else {
      assert g == key(r);
      var m := Members(records, g, key);
      MembersSpec(records, g, key);
      SortSpec(m);
      var items := SortRecords(m);
      assert r in multiset(items);
      var k :| 0 <= k < |items| && items[k] == r;
      var b := Block(g, items);
      assert sheet == prev + b;
      assert b[k] in sheet;
    }
  }

  /** On records in rank order, each group lists its members in that order. */
  lemma GroupsKeepOrder<K>(records: seq<Record>, g: K, key: Record -> K)
    requires Sorted(records)
    ensures SortRecords(Members(records, g, key)) == Members(records, g, key)
  {
    MembersSpec(records, g, key);
    SortSorted(Members(records, g, key));
  }
}
