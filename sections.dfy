/** How the scraper gathers the label/value sections of a detail page.

    Section titles are compared by their normalised form (lower case, single spaces).
    The first title seen for a normalised form owns the section; later blocks with
    the same normalised title only add labels the section does not have yet. */
module Sections {
  import opened Text
  import opened Common

  /** `normalize_section_title`: strip, lower-case and collapse whitespace runs. */
  function NormalizeSectionTitle(title: string): string
  {
    Join(Words(Lower(Strip(title))))
  }

  ghost predicate Blank(s: string) {
    forall i :: 0 <= i < |s| ==> IsSpace(s[i])
  }

  /** The normalised form is lower case, trimmed and single-spaced. */
  lemma NormalizedForm(title: string)
    ensures var n := NormalizeSectionTitle(title);
      NoUpper(n) && Trimmed(n) && SingleSpaced(n)
  {
    var s := Lower(Strip(title));
    LowerKeepsNoUpper(Strip(title));
    WordsNoUpper(s);
    JoinShape(Words(s));
  }

  /** Normalising a normalised title changes nothing. */
  lemma NormalizeIdempotent(title: string)
    ensures NormalizeSectionTitle(NormalizeSectionTitle(title)) == NormalizeSectionTitle(title)
  {
    var ws := Words(Lower(Strip(title)));
    LowerKeepsNoUpper(Strip(title));
    WordsNoUpper(Lower(Strip(title)));
    JoinIsNormal(ws);
  }

  /** Joining non-empty lower-case words gives a title that normalises to itself. */
  lemma JoinIsNormal(ws: seq<string>)
    requires forall w :: w in ws ==> w != [] && NoSpace(w) && NoUpper(w)
    ensures NormalizeSectionTitle(Join(ws)) == Join(ws)
  {
    JoinStripped(ws);
    JoinLowered(ws);
    WordsOfJoin(ws);
  }

  lemma WordsOfBlank(s: string)
    ensures Words(s) == [] <==> Blank(s)
  {
    var t := LStrip(s);
    if t != [] {
      assert !IsSpace(s[|s| - |t|]);
    }
  }

  lemma LowerKeepsBlank(s: string)
    ensures Blank(Lower(s)) <==> Blank(s)
  {
    if Blank(Lower(s)) {
      forall i | 0 <= i < |s| ensures IsSpace(s[i]) {
        assert IsSpace(Lower(s)[i]);
      }
    }
  }

  lemma StripKeepsBlank(s: string)
    ensures Blank(Strip(s)) <==> Blank(s)
  {
  }

  /** A title normalises to "" exactly when it is made of whitespace only. */
  lemma NormalizeEmptyIffBlank(title: string)
    ensures NormalizeSectionTitle(title) == [] <==> Blank(title)
  {
    var s := Lower(Strip(title));
    WordsOfBlank(s);
    LowerKeepsBlank(Strip(title));
    StripKeepsBlank(title);
    JoinShape(Words(s));
  }

  /** `merge_section_data` as a value: `target` plus every entry of `source` with a
      non-empty key and value whose key `target` lacks. */
  function Merged(target: map<string, string>, source: map<string, string>): map<string, string>
  {
    map k | k in target.Keys + source.Keys && (k in target || (k != "" && source[k] != ""))
      :: if k in target then target[k] else source[k]
  }

  /** What merging promises: entries of the target are never changed, and the only
      entries added are non-empty source entries under new keys. */
  lemma MergedSpec(target: map<string, string>, source: map<string, string>)
    ensures var r := Merged(target, source);
      (forall k :: k in target ==> k in r && r[k] == target[k])
      && (forall k :: k in source && k != "" && source[k] != "" ==> k in r)
      && (forall k :: k in r && k !in target ==> k in source && k != "" && r[k] == source[k] != "")
  {
  }

  /** Merging the same data twice adds nothing the second time. */
  lemma MergedIdempotent(target: map<string, string>, source: map<string, string>)
    ensures Merged(Merged(target, source), source) == Merged(target, source)
  {
  }

  /** `merge_section_data`: loops over the source entries and adds those the target
      lacks. */
  method MergeSectionData(target: map<string, string>, source: map<string, string>)
    returns (merged: map<string, string>)
    ensures merged == Merged(target, source)
  {
    merged := target;
    var todo := source.Keys;
    while todo != {}
      invariant todo <= source.Keys
      invariant forall k :: k in target ==> k in merged && merged[k] == target[k]
      invariant forall k :: k in merged && k !in target ==>
        k in source && k !in todo && k != "" && merged[k] == source[k] != ""
      invariant forall k :: k in source && k !in todo && k != "" && source[k] != "" ==> k in merged
      decreases |todo|
    {
      var k :| k in todo;
      if k != "" && source[k] != "" && k !in merged {
        merged := merged[k := source[k]];
      }
      todo := todo - {k};
    }
    MergedCharacterised(target, source, merged);
  }

  /** A map that keeps the target, adds every non-empty source entry under a
      non-empty key, and nothing else, is the merge. */
  lemma MergedCharacterised(target: map<string, string>, source: map<string, string>, m: map<string, string>)
    requires forall k :: k in target ==> k in m && m[k] == target[k]
    requires forall k :: k in m && k !in target ==> k in source && k != "" && m[k] == source[k] != ""
    requires forall k :: k in source && k != "" && source[k] != "" ==> k in m
    ensures m == Merged(target, source)
  {
    var r := Merged(target, source);
    assert m.Keys == r.Keys;
    forall k | k in m ensures m[k] == r[k] {
    }
  }

  /** The two dictionaries `collect_sections` keeps: the sections by their first
      title, and the first title seen for each normalised title. */
  datatype Store = Store(sections: map<string, map<string, string>>, seen: map<string, string>)

  /** The store logic is stated for any title key; the scraper's key is
      `NormalizeSectionTitle`. */
  type TitleKey = string -> string

  /** `seen` maps each key to the one title under which that section is stored, and
      every stored title is recorded there under its own key. */
  ghost predicate Consistent(st: Store, key: TitleKey) {
    "" !in st.seen
    && (forall n :: n in st.seen ==> st.seen[n] in st.sections && key(st.seen[n]) == n)
    && (forall t :: t in st.sections ==> key(t) in st.seen && st.seen[key(t)] == t)
  }

  /** A title and its data are stored unless one of them is empty or the title's key
      is. */
  predicate Storable(title: string, data: map<string, string>, key: TitleKey) {
    title != "" && data != map[] && key(title) != ""
  }

  /** `upsert_section`. */
  function Upsert(st: Store, title: string, data: map<string, string>, key: TitleKey): Store
    requires Consistent(st, key)
  {
    var norm := key(title);
    if !Storable(title, data, key) then st
    else if norm in st.seen then
      var existing := st.seen[norm];
      Store(st.sections[existing := Merged(st.sections[existing], data)], st.seen)
    else
      Store(st.sections[title := data], st.seen[norm := title])
  }

  /** The section a store holds for key `n`: the title it is stored under and its
      data. */
  function EntryAt(st: Store, n: string): Option<(string, map<string, string>)>
  {
    if n in st.seen && st.seen[n] in st.sections then Some((st.seen[n], st.sections[st.seen[n]])) else None
  }

  /** What one upsert does to the section for key `n`: the first storable title with
      that key is stored with its data as given, and the data of a later title with
      the same key is merged into the section under the first title. */
  function Track(e: Option<(string, map<string, string>)>, title: string, data: map<string, string>,
                 n: string, key: TitleKey): Option<(string, map<string, string>)>
  {
    if !Storable(title, data, key) || key(title) != n then e
    else if e.None? then Some((title, data))
    else Some((e.value.0, Merged(e.value.1, data)))
  }

  /** Upserting keeps the two dictionaries consistent and changes the section of each
      key as `Track` says: a new key gets this title with the data as given, an
      existing key gets the data merged into its first title's section, and every
      other section is left alone. */
  lemma UpsertSpec(st: Store, title: string, data: map<string, string>, key: TitleKey)
    requires Consistent(st, key)
    ensures var r := Upsert(st, title, data, key);
      Consistent(r, key)
      && (forall n :: n in st.seen ==> n in r.seen && r.seen[n] == st.seen[n])
      && (forall t, k :: t in st.sections && k in st.sections[t] ==>
            t in r.sections && k in r.sections[t] && r.sections[t][k] == st.sections[t][k])
      && (Storable(title, data, key) ==>
            key(title) in r.seen
            && forall k :: k in data && k != "" && data[k] != "" ==> k in r.sections[r.seen[key(title)]])
      && (!Storable(title, data, key) ==> r == st)
    ensures var r := Upsert(st, title, data, key);
      forall n :: EntryAt(r, n) == Track(EntryAt(st, n), title, data, n, key)
    ensures var r := Upsert(st, title, data, key);
      r.sections.Keys == st.sections.Keys + (if Storable(title, data, key) && key(title) !in st.seen then {title} else {})
    ensures var r := Upsert(st, title, data, key);
      r.seen.Keys == st.seen.Keys + (if Storable(title, data, key) then {key(title)} else {})
    ensures var r := Upsert(st, title, data, key);
      Storable(title, data, key) && key(title) !in st.seen ==>
        key(title) in r.seen && r.seen[key(title)] == title && title in r.sections && r.sections[title] == data
    ensures var r := Upsert(st, title, data, key);
      Storable(title, data, key) && key(title) in st.seen ==>
        st.seen[key(title)] in r.sections
        && r.sections[st.seen[key(title)]] == Merged(st.sections[st.seen[key(title)]], data)
    ensures var r := Upsert(st, title, data, key);
      forall t :: t in st.sections && key(t) != key(title) ==> t in r.sections && r.sections[t] == st.sections[t]
  {
    var norm := key(title);
    var r := Upsert(st, title, data, key);
    if Storable(title, data, key) {
      if norm in st.seen {
        MergedSpec(st.sections[st.seen[norm]], data);
      } else {
        assert title !in st.sections;
      }
    }
    forall n
      ensures EntryAt(r, n) == Track(EntryAt(st, n), title, data, n, key)
    {
      if Storable(title, data, key) && n != norm && n in st.seen {
        assert key(st.seen[n]) == n;
      }
    }
  }

  /** Upserting records the title's key when it stores something, and forgets no key. */
  lemma UpsertSeen(st: Store, title: string, data: map<string, string>, key: TitleKey)
    requires Consistent(st, key)
    ensures var r := Upsert(st, title, data, key);
      st.seen.Keys <= r.seen.Keys && (Storable(title, data, key) ==> key(title) in r.seen)
  {
  }

  /** Distinct stored titles have distinct keys. */
  lemma ConsistentTitlesDistinct(st: Store, key: TitleKey, t1: string, t2: string)
    requires Consistent(st, key) && t1 in st.sections && t2 in st.sections && t1 != t2
    ensures key(t1) != key(t2)
  {
  }

  /** A heading: its text and the label/value blocks found next to it (its parent,
      then the block that follows it). */
  datatype Heading = Heading(title: string, blocks: seq<map<string, string>>)

  /** A heading found for a required section that the heading pass missed: the
      entries of its parent and of the block that follows it, if any. */
  datatype FallbackHit = FallbackHit(parent: map<string, string>, block: Option<map<string, string>>)

  const RequiredDetailSections: seq<string> := [
    "Graphics Processor", "Clock Speeds", "Memory", "Board Design", "Render Config",
    "Theoretical Performance", "Graphics Features", "IGP Variants", "Mobile Graphics",
    "Graphics Card", "Integrated Graphics"]

  /** The data of a heading: its blocks merged in order into an empty dict. */
  function BlocksData(blocks: seq<map<string, string>>): map<string, string>
  {
    if blocks == [] then map[] else Merged(BlocksData(blocks[..|blocks| - 1]), blocks[|blocks| - 1])
  }

  function FallbackData(hit: FallbackHit): map<string, string>
  {
    match hit.block
    case None => hit.parent
    case Some(b) => Merged(hit.parent, b)
  }

  function AfterHeadings(st: Store, hs: seq<Heading>, key: TitleKey): (r: Store)
    requires Consistent(st, key)
    ensures Consistent(r, key)
  {
    if hs == [] then st
    else
      var prev := AfterHeadings(st, hs[..|hs| - 1], key);
      var h := hs[|hs| - 1];
      UpsertSpec(prev, h.title, BlocksData(h.blocks), key);
      Upsert(prev, h.title, BlocksData(h.blocks), key)
  }

  /** One step of the required-section pass. */
  function RequiredStep(st: Store, required: string, fallback: string -> Option<FallbackHit>, key: TitleKey): (r: Store)
    requires Consistent(st, key)
    ensures Consistent(r, key)
  {
    if key(required) in st.seen then st
    else match fallback(required)
      case None => st
      case Some(hit) =>
        UpsertSpec(st, required, FallbackData(hit), key);
        Upsert(st, required, FallbackData(hit), key)
  }

  function AfterRequired(st: Store, reqs: seq<string>, fallback: string -> Option<FallbackHit>, key: TitleKey): (r: Store)
    requires Consistent(st, key)
    ensures Consistent(r, key)
  {
    if reqs == [] then st
    else RequiredStep(AfterRequired(st, reqs[..|reqs| - 1], fallback, key), reqs[|reqs| - 1], fallback, key)
  }

  /** The section for key `n` after upserting the headings of `hs` in order. */
  function Tracked(e: Option<(string, map<string, string>)>, hs: seq<Heading>, n: string, key: TitleKey)
    : Option<(string, map<string, string>)>
  {
    if hs == [] then e
    else
      var h := hs[|hs| - 1];
      Track(Tracked(e, hs[..|hs| - 1], n, key), h.title, BlocksData(h.blocks), n, key)
  }

  /** What one step of the required pass does to the section for key `n`: a key that
      already has a section is skipped; otherwise the data the fallback finds is
      upserted. */
  function TrackRequired(e: Option<(string, map<string, string>)>, required: string, hit: Option<FallbackHit>,
                         n: string, key: TitleKey): Option<(string, map<string, string>)>
  {
    if e.Some? || hit.None? then e else Track(None, required, FallbackData(hit.value), n, key)
  }

  /** The section for key `n` after the required pass over `reqs`. */
  function RequiredTracked(e: Option<(string, map<string, string>)>, reqs: seq<string>,
                           fallback: string -> Option<FallbackHit>, n: string, key: TitleKey)
    : Option<(string, map<string, string>)>
  {
    if reqs == [] then e
    else
      var q := reqs[|reqs| - 1];
      TrackRequired(RequiredTracked(e, reqs[..|reqs| - 1], fallback, n, key), q, fallback(q), n, key)
  }

  ghost function Collected(hs: seq<Heading>, fallback: string -> Option<FallbackHit>): Store
  {
    var h := AfterHeadings(Store(map[], map[]), hs, NormalizeSectionTitle);
    AfterRequired(h, RequiredDetailSections, fallback, NormalizeSectionTitle)
  }

  /** `collect_sections`: the heading pass, then the pass over the required sections
      the heading pass did not find. Page lookups are the inputs `hs` and `fallback`. */
  method CollectSections(hs: seq<Heading>, fallback: string -> Option<FallbackHit>)
    returns (sections: map<string, map<string, string>>)
    ensures sections == Collected(hs, fallback).sections
  {
    var st := HeadingPass(hs, NormalizeSectionTitle);
    st := RequiredPass(st, RequiredDetailSections, fallback, NormalizeSectionTitle);
    sections := st.sections;
  }

  /** The merged data of one heading's blocks. */
  method HeadingData(blocks: seq<map<string, string>>) returns (data: map<string, string>)
    ensures data == BlocksData(blocks)
  {
    data := map[];
    for j := 0 to |blocks|
      invariant data == BlocksData(blocks[..j])
    {
      assert blocks[..j + 1][..j] == blocks[..j];
      data := MergeSectionData(data, blocks[j]);
    }
    assert blocks[..|blocks|] == blocks;
  }

  /** The loop over the page's headings. */
  method HeadingPass(hs: seq<Heading>, key: TitleKey) returns (st: Store)
    ensures st == AfterHeadings(Store(map[], map[]), hs, key)
  {
    st := Store(map[], map[]);
    for i := 0 to |hs|
      invariant st == AfterHeadings(Store(map[], map[]), hs[..i], key)
    {
      assert hs[..i + 1][..i] == hs[..i];
      var data := HeadingData(hs[i].blocks);
      st := Upsert(st, hs[i].title, data, key);
    }
    assert hs[..|hs|] == hs;
  }

  /** The loop over the required sections. */
  method RequiredPass(st0: Store, reqs: seq<string>, fallback: string -> Option<FallbackHit>, key: TitleKey)
    returns (st: Store)
    requires Consistent(st0, key)
    ensures st == AfterRequired(st0, reqs, fallback, key)
  {
    st := st0;
    for i := 0 to |reqs|
      invariant st == AfterRequired(st0, reqs[..i], fallback, key)
    {
      assert reqs[..i + 1][..i] == reqs[..i];
      var required := reqs[i];
      if key(required) !in st.seen {
        var hit := fallback(required);
        if hit.Some? {
          var data := hit.value.parent;
          if hit.value.block.Some? {
            data := MergeSectionData(data, hit.value.block.value);
          }
          st := Upsert(st, required, data, key);
        }
      }
    }
    assert reqs[..|reqs|] == reqs;
  }

  /** The heading pass changes the section of each key as the headings' upserts do,
      one after the other. */
  lemma {:induction false} HeadingsTracked(st: Store, hs: seq<Heading>, key: TitleKey, n: string)
    requires Consistent(st, key)
    ensures EntryAt(AfterHeadings(st, hs, key), n) == Tracked(EntryAt(st, n), hs, n, key)
  {
    if hs != [] {
      var init := hs[..|hs| - 1];
      var h := hs[|hs| - 1];
      HeadingsTracked(st, init, key, n);
      UpsertSpec(AfterHeadings(st, init, key), h.title, BlocksData(h.blocks), key);
    }
  }

  /** From no section, a key gets one exactly when some heading with that key is
      storable. */
  lemma {:induction false} TrackedNone(hs: seq<Heading>, n: string, key: TitleKey)
    ensures Tracked(None, hs, n, key).None? <==>
      forall j :: 0 <= j < |hs| ==> !(Storable(hs[j].title, BlocksData(hs[j].blocks), key) && key(hs[j].title) == n)
  {
    if hs != [] {
      var init := hs[..|hs| - 1];
      TrackedNone(init, n, key);
      assert forall j :: 0 <= j < |init| ==> init[j] == hs[j];
    }
  }

  /** A section, once stored, keeps its title through later headings. */
  lemma {:induction false} TrackedKeepsTitle(e: Option<(string, map<string, string>)>, hs: seq<Heading>, n: string,
                                             key: TitleKey)
    requires e.Some?
    ensures Tracked(e, hs, n, key).Some? && Tracked(e, hs, n, key).value.0 == e.value.0
  {
    if hs != [] {
      TrackedKeepsTitle(e, hs[..|hs| - 1], n, key);
    }
  }

  /** The title stored for a key is that of the first storable heading with the key. */
  lemma {:induction false} TrackedFirstTitle(hs: seq<Heading>, n: string, key: TitleKey, i: nat)
    requires i < |hs| && Storable(hs[i].title, BlocksData(hs[i].blocks), key) && key(hs[i].title) == n
    requires forall j :: 0 <= j < i ==> !(Storable(hs[j].title, BlocksData(hs[j].blocks), key) && key(hs[j].title) == n)
    ensures Tracked(None, hs, n, key).Some? && Tracked(None, hs, n, key).value.0 == hs[i].title
  {
    var init := hs[..|hs| - 1];
    assert forall j :: 0 <= j < |init| ==> init[j] == hs[j];
    if i == |hs| - 1 {
      TrackedNone(init, n, key);
    } else {
      TrackedFirstTitle(init, n, key, i);
      TrackedKeepsTitle(Tracked(None, init, n, key), [hs[|hs| - 1]], n, key);
      assert Tracked(Tracked(None, init, n, key), [hs[|hs| - 1]], n, key) == Tracked(None, hs, n, key);
    }
  }

  /** Heading `i` is storable and no earlier storable heading has its key. */
  predicate FirstStorable(hs: seq<Heading>, i: nat, key: TitleKey)
    requires i < |hs|
  {
    Storable(hs[i].title, BlocksData(hs[i].blocks), key)
    && forall j :: 0 <= j < i ==> !(Storable(hs[j].title, BlocksData(hs[j].blocks), key) && key(hs[j].title) == key(hs[i].title))
  }

  /** A storable heading's key is recorded after the heading pass, as is every key
      recorded before it. */
  lemma HeadingStored(st: Store, hs: seq<Heading>, key: TitleKey, n: string)
    requires Consistent(st, key)
    requires n in st.seen || exists i :: 0 <= i < |hs| && Storable(hs[i].title, BlocksData(hs[i].blocks), key) && key(hs[i].title) == n
    ensures n in AfterHeadings(st, hs, key).seen
  {
    HeadingsTracked(st, hs, key, n);
    if n !in st.seen {
      TrackedNone(hs, n, key);
    } else {
      TrackedKeepsTitle(EntryAt(st, n), hs, n, key);
    }
  }

  /** A key new to the store is owned, after the heading pass, by its first storable
      heading. */
  lemma HeadingOwns(st: Store, hs: seq<Heading>, key: TitleKey, i: nat)
    requires Consistent(st, key)
    requires i < |hs| && FirstStorable(hs, i, key) && key(hs[i].title) !in st.seen
    ensures key(hs[i].title) in AfterHeadings(st, hs, key).seen
    ensures AfterHeadings(st, hs, key).seen[key(hs[i].title)] == hs[i].title
  {
    HeadingsTracked(st, hs, key, key(hs[i].title));
    TrackedFirstTitle(hs, key(hs[i].title), key, i);
  }

  /** After the heading pass: keys once recorded stay recorded, every storable heading
      has a section, each key's section is the one `Tracked` describes (the first
      storable title with its data, and the data of later titles with the same key
      merged in order), and a key new to the store is owned by its first storable
      heading. */
  lemma HeadingsCovered(st: Store, hs: seq<Heading>, key: TitleKey)
    requires Consistent(st, key)
    ensures st.seen.Keys <= AfterHeadings(st, hs, key).seen.Keys
    ensures forall i :: 0 <= i < |hs| && Storable(hs[i].title, BlocksData(hs[i].blocks), key) ==>
      key(hs[i].title) in AfterHeadings(st, hs, key).seen
    ensures forall n :: EntryAt(AfterHeadings(st, hs, key), n) == Tracked(EntryAt(st, n), hs, n, key)
    ensures forall i :: (0 <= i < |hs| && FirstStorable(hs, i, key) && key(hs[i].title) !in st.seen) ==>
      (key(hs[i].title) in AfterHeadings(st, hs, key).seen && AfterHeadings(st, hs, key).seen[key(hs[i].title)] == hs[i].title)
  {
    forall n
      ensures EntryAt(AfterHeadings(st, hs, key), n) == Tracked(EntryAt(st, n), hs, n, key)
    {
      HeadingsTracked(st, hs, key, n);
    }
    forall n | n in st.seen
      ensures n in AfterHeadings(st, hs, key).seen
    {
      HeadingStored(st, hs, key, n);
    }
    forall i | 0 <= i < |hs| && Storable(hs[i].title, BlocksData(hs[i].blocks), key)
      ensures key(hs[i].title) in AfterHeadings(st, hs, key).seen
    {
      HeadingStored(st, hs, key, key(hs[i].title));
    }
    forall i | 0 <= i < |hs| && FirstStorable(hs, i, key) && key(hs[i].title) !in st.seen
      ensures key(hs[i].title) in AfterHeadings(st, hs, key).seen
      ensures AfterHeadings(st, hs, key).seen[key(hs[i].title)] == hs[i].title
    {
      HeadingOwns(st, hs, key, i);
    }
  }

  /** The required pass changes the section of each key as its steps do, one after
      the other. */
  lemma {:induction false} RequiredStepsTracked(st: Store, reqs: seq<string>, fallback: string -> Option<FallbackHit>,
                                                key: TitleKey, n: string)
    requires Consistent(st, key)
    ensures EntryAt(AfterRequired(st, reqs, fallback, key), n) == RequiredTracked(EntryAt(st, n), reqs, fallback, n, key)
  {
    if reqs != [] {
      var init := reqs[..|reqs| - 1];
      var q := reqs[|reqs| - 1];
      RequiredStepsTracked(st, init, fallback, key, n);
      var prev := AfterRequired(st, init, fallback, key);
      if key(q) !in prev.seen && fallback(q).Some? {
        UpsertSpec(prev, q, FallbackData(fallback(q).value), key);
      }
    }
  }

  /** The required pass never touches a key that already has a section. */
  lemma {:induction false} RequiredKeeps(e: Option<(string, map<string, string>)>, reqs: seq<string>,
                                         fallback: string -> Option<FallbackHit>, n: string, key: TitleKey)
    requires e.Some?
    ensures RequiredTracked(e, reqs, fallback, n, key) == e
  {
    if reqs != [] {
      RequiredKeeps(e, reqs[..|reqs| - 1], fallback, n, key);
    }
  }

  /** A required name the fallback finds with storable data. */
  predicate Found(required: string, fallback: string -> Option<FallbackHit>, key: TitleKey) {
    fallback(required).Some? && Storable(required, FallbackData(fallback(required).value), key)
  }

  /** From no section, a key gets one exactly when some required name with that key
      is found. */
  lemma {:induction false} RequiredNone(reqs: seq<string>, fallback: string -> Option<FallbackHit>, n: string,
                                        key: TitleKey)
    ensures RequiredTracked(None, reqs, fallback, n, key).None? <==>
      forall j :: 0 <= j < |reqs| ==> !(Found(reqs[j], fallback, key) && key(reqs[j]) == n)
  {
    if reqs != [] {
      var init := reqs[..|reqs| - 1];
      RequiredNone(init, fallback, n, key);
      assert forall j :: 0 <= j < |init| ==> init[j] == reqs[j];
    }
  }

  /** A key with no section yet gets the first required name found with that key,
      and exactly the data the fallback found for it. */
  lemma {:induction false} RequiredFirst(reqs: seq<string>, fallback: string -> Option<FallbackHit>, n: string,
                                         key: TitleKey, j: nat)
    requires j < |reqs| && Found(reqs[j], fallback, key) && key(reqs[j]) == n
    requires forall i :: 0 <= i < j ==> !(Found(reqs[i], fallback, key) && key(reqs[i]) == n)
    ensures RequiredTracked(None, reqs, fallback, n, key) == Some((reqs[j], FallbackData(fallback(reqs[j]).value)))
  {
    var init := reqs[..|reqs| - 1];
    assert forall i :: 0 <= i < |init| ==> init[i] == reqs[i];
    if j == |reqs| - 1 {
      RequiredNone(init, fallback, n, key);
    } else {
      RequiredFirst(init, fallback, n, key, j);
    }
  }

  /** Required name `j` is found and no earlier required name found has its key. */
  predicate FirstFound(reqs: seq<string>, j: nat, fallback: string -> Option<FallbackHit>, key: TitleKey)
    requires j < |reqs|
  {
    Found(reqs[j], fallback, key)
    && forall i :: 0 <= i < j ==> !(Found(reqs[i], fallback, key) && key(reqs[i]) == key(reqs[j]))
  }

  /** A found required name's key is recorded after the required pass, and a key
      recorded before it keeps its section. */
  lemma RequiredStored(st: Store, reqs: seq<string>, fallback: string -> Option<FallbackHit>, key: TitleKey, n: string)
    requires Consistent(st, key)
    ensures n in st.seen ==> EntryAt(AfterRequired(st, reqs, fallback, key), n) == EntryAt(st, n)
    ensures (exists j :: 0 <= j < |reqs| && Found(reqs[j], fallback, key) && key(reqs[j]) == n) ==>
      n in AfterRequired(st, reqs, fallback, key).seen
  {
    RequiredStepsTracked(st, reqs, fallback, key, n);
    if n in st.seen {
      RequiredKeeps(EntryAt(st, n), reqs, fallback, n, key);
    } else {
      RequiredNone(reqs, fallback, n, key);
    }
  }

  /** A key new to the store gets, in the required pass, the first required name found
      with it and the data found for that name. */
  lemma RequiredOwns(st: Store, reqs: seq<string>, fallback: string -> Option<FallbackHit>, key: TitleKey, j: nat)
    requires Consistent(st, key)
    requires j < |reqs| && FirstFound(reqs, j, fallback, key) && key(reqs[j]) !in st.seen
    ensures EntryAt(AfterRequired(st, reqs, fallback, key), key(reqs[j])) == Some((reqs[j], FallbackData(fallback(reqs[j]).value)))
  {
    RequiredStepsTracked(st, reqs, fallback, key, key(reqs[j]));
    RequiredFirst(reqs, fallback, key(reqs[j]), key, j);
  }

  /** After the required pass: keys once recorded stay recorded with their sections,
      every required name found with data has a section, each key's section is the
      one `RequiredTracked` describes, and a key new to the store is owned by the
      first required name found with it, holding the data found for it. */
  lemma RequiredCovered(st: Store, reqs: seq<string>, fallback: string -> Option<FallbackHit>, key: TitleKey)
    requires Consistent(st, key)
    requires forall j :: 0 <= j < |reqs| ==> reqs[j] != "" && key(reqs[j]) != ""
    ensures st.seen.Keys <= AfterRequired(st, reqs, fallback, key).seen.Keys
    ensures forall j :: (0 <= j < |reqs| && fallback(reqs[j]).Some? && FallbackData(fallback(reqs[j]).value) != map[]) ==>
      key(reqs[j]) in AfterRequired(st, reqs, fallback, key).seen
    ensures forall n :: EntryAt(AfterRequired(st, reqs, fallback, key), n) == RequiredTracked(EntryAt(st, n), reqs, fallback, n, key)
    ensures forall n :: n in st.seen ==> EntryAt(AfterRequired(st, reqs, fallback, key), n) == EntryAt(st, n)
    ensures forall j :: (0 <= j < |reqs| && FirstFound(reqs, j, fallback, key) && key(reqs[j]) !in st.seen) ==>
      EntryAt(AfterRequired(st, reqs, fallback, key), key(reqs[j])) == Some((reqs[j], FallbackData(fallback(reqs[j]).value)))
  {
    forall n
      ensures EntryAt(AfterRequired(st, reqs, fallback, key), n) == RequiredTracked(EntryAt(st, n), reqs, fallback, n, key)
    {
      RequiredStepsTracked(st, reqs, fallback, key, n);
    }
    forall n | n in st.seen
      ensures EntryAt(AfterRequired(st, reqs, fallback, key), n) == EntryAt(st, n)
      ensures n in AfterRequired(st, reqs, fallback, key).seen
    {
      RequiredStored(st, reqs, fallback, key, n);
    }
    forall j | 0 <= j < |reqs| && fallback(reqs[j]).Some? && FallbackData(fallback(reqs[j]).value) != map[]
      ensures key(reqs[j]) in AfterRequired(st, reqs, fallback, key).seen
    {
      assert Found(reqs[j], fallback, key);
      RequiredStored(st, reqs, fallback, key, key(reqs[j]));
    }
    forall j | 0 <= j < |reqs| && FirstFound(reqs, j, fallback, key) && key(reqs[j]) !in st.seen
      ensures EntryAt(AfterRequired(st, reqs, fallback, key), key(reqs[j])) == Some((reqs[j], FallbackData(fallback(reqs[j]).value)))
    {
      RequiredOwns(st, reqs, fallback, key, j);
    }
  }

  /** Every required section title is non-blank and has a non-blank key. */
  lemma RequiredTitlesNotBlank()
    ensures forall j :: 0 <= j < |RequiredDetailSections| ==>
      RequiredDetailSections[j] != "" && NormalizeSectionTitle(RequiredDetailSections[j]) != ""
  {
    forall j | 0 <= j < |RequiredDetailSections|
      ensures NormalizeSectionTitle(RequiredDetailSections[j]) != ""
    {
      var t := RequiredDetailSections[j];
      assert !IsSpace(t[0]);
      NormalizeEmptyIffBlank(t);
    }
  }

  /** After collection: the store is consistent; every storable heading and every
      required section the fallback found with some data has a section; the section
      of each normalised title is the headings' `Tracked` section, or else the one the
      required pass adds; and the first storable heading of a normalised title owns
      its section. */
  lemma CollectedCovers(hs: seq<Heading>, fallback: string -> Option<FallbackHit>)
    ensures Consistent(Collected(hs, fallback), NormalizeSectionTitle)
    ensures forall i :: 0 <= i < |hs| && Storable(hs[i].title, BlocksData(hs[i].blocks), NormalizeSectionTitle) ==>
      NormalizeSectionTitle(hs[i].title) in Collected(hs, fallback).seen
    ensures forall j :: (0 <= j < |RequiredDetailSections| && fallback(RequiredDetailSections[j]).Some?
                         && FallbackData(fallback(RequiredDetailSections[j]).value) != map[]) ==>
      NormalizeSectionTitle(RequiredDetailSections[j]) in Collected(hs, fallback).seen
    ensures forall n :: (EntryAt(Collected(hs, fallback), n)
      == RequiredTracked(Tracked(None, hs, n, NormalizeSectionTitle), RequiredDetailSections, fallback, n, NormalizeSectionTitle))
    ensures forall i :: (0 <= i < |hs| && FirstStorable(hs, i, NormalizeSectionTitle)) ==>
      (EntryAt(Collected(hs, fallback), NormalizeSectionTitle(hs[i].title)).Some?
       && EntryAt(Collected(hs, fallback), NormalizeSectionTitle(hs[i].title)).value.0 == hs[i].title)
  {
    var key: TitleKey := NormalizeSectionTitle;
    var empty := Store(map[], map[]);
    var h := AfterHeadings(empty, hs, key);
    HeadingsCovered(empty, hs, key);
    RequiredTitlesNotBlank();
    RequiredCovered(h, RequiredDetailSections, fallback, key);
    assert Collected(hs, fallback) == AfterRequired(h, RequiredDetailSections, fallback, key);
    forall n
      ensures EntryAt(Collected(hs, fallback), n) == RequiredTracked(Tracked(None, hs, n, key), RequiredDetailSections, fallback, n, key)
    {
      assert EntryAt(empty, n) == None;
    }
    forall i | 0 <= i < |hs| && FirstStorable(hs, i, key)
      ensures EntryAt(Collected(hs, fallback), key(hs[i].title)).Some?
      ensures EntryAt(Collected(hs, fallback), key(hs[i].title)).value.0 == hs[i].title
    {
      assert key(hs[i].title) !in empty.seen;
    }
  }
}
