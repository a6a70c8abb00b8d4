/** Detecting boards that carry several GPU chips, and scaling their per-chip
    figures.

    The chip count comes, in order of priority, from a "multigpu-x<N>" class on the
    page, from a known title, or from "x<N>" / "<N> GPU" in texts that mention a
    multi-GPU design. Only counts from 2 to 8 are believed. Regular expressions are
    modelled by the scanners below, with case ignored for ASCII letters and `\w`,
    `\s`, `\d` read as ASCII word characters, Python whitespace and ASCII digits. */
module MultiGpu {
  import opened Text
  import opened Common
  import opened Sections
  import opened ValueScaling

  /** A chip count that is believed. */
  predicate InRange(v: nat) { 2 <= v <= 8 }

  /** The largest believed count in `vs`, or 1 when there is none. */
  function MaxValid(vs: seq<nat>): nat
  {
    if vs == [] then 1
    else
      var acc := MaxValid(vs[..|vs| - 1]);
      var v := vs[|vs| - 1];
      if InRange(v) && v > acc then v else acc
  }

  /** `MaxValid` is a maximum: between 1 and 8, at least every believed count, and
      either 1 or one of the counts. */
  lemma {:induction false} MaxValidSpec(vs: seq<nat>)
    ensures 1 <= MaxValid(vs) <= 8
    ensures forall v :: v in vs && InRange(v) ==> v <= MaxValid(vs)
    ensures MaxValid(vs) == 1 || MaxValid(vs) in vs
  {
    if vs != [] {
      var init := vs[..|vs| - 1];
      MaxValidSpec(init);
      assert vs == init + [vs[|vs| - 1]];
    }
  }

  lemma MaxValidAppend(a: seq<nat>, v: nat)
    ensures MaxValid(a + [v]) == if InRange(v) && v > MaxValid(a) then v else MaxValid(a)
  {
    assert (a + [v])[..|a|] == a;
  }

  function SpaceRun(s: string): (n: nat)
    ensures n <= |s|
  {
    if s != [] && IsSpace(s[0]) then 1 + SpaceRun(s[1..]) else 0
  }

  // ---------------------------------------------------------------------------
  // Class markers: `multigpu-x(\d+)`, case ignored, searched in each class name.

  const ClassMarker: string := "multigpu-x"

  /** The number after the first "multigpu-x" that is followed by a digit. */
  function ClassValueFrom(t: string): Option<nat>
  {
    if t == [] then None
    else if IsPrefix(ClassMarker, t) && DigitRun(t[10..]) > 0 then
      Some(Value(t[10..10 + DigitRun(t[10..])]))
    else ClassValueFrom(t[1..])
  }

  function ClassValue(cls: string): Option<nat>
  {
    ClassValueFrom(Lower(cls))
  }

  function ClassListValues(classes: seq<string>): seq<nat>
  {
    if classes == [] then []
    else
      var v := ClassValue(classes[|classes| - 1]);
      ClassListValues(classes[..|classes| - 1]) + (if v.Some? then [v.value] else [])
  }

  /** The counts found in the class lists of the marked cells, in document order. */
  function ClassValues(nodes: seq<seq<string>>): seq<nat>
  {
    if nodes == [] then [] else ClassValues(nodes[..|nodes| - 1]) + ClassListValues(nodes[|nodes| - 1])
  }

  /** `detect_multi_chip_multiplier_from_classes`: `nodes` holds the class lists of
      the marked `dd`/`td` cells. */
  method MultiplierFromClasses(nodes: seq<seq<string>>) returns (r: nat)
    ensures r == MaxValid(ClassValues(nodes))
  {
    r := 1;
    for i := 0 to |nodes|
      invariant r == MaxValid(ClassValues(nodes[..i]))
    {
      assert nodes[..i + 1][..i] == nodes[..i];
      var classes := nodes[i];
      ghost var before := ClassValues(nodes[..i]);
      assert classes[..0] == [] && before + ClassListValues([]) == before;
      for j := 0 to |classes|
        invariant r == MaxValid(before + ClassListValues(classes[..j]))
      {
        assert classes[..j + 1][..j] == classes[..j];
        var v := ClassValue(classes[j]);
        if v.Some? {
          assert before + ClassListValues(classes[..j + 1]) == (before + ClassListValues(classes[..j])) + [v.value];
          MaxValidAppend(before + ClassListValues(classes[..j]), v.value);
          if InRange(v.value) && v.value > r {
            r := v.value;
          }
        } else {
          assert before + ClassListValues(classes[..j + 1]) == before + ClassListValues(classes[..j]);
        }
      }
      assert classes[..|classes|] == classes;
    }
    assert nodes[..|nodes|] == nodes;
  }

  // ---------------------------------------------------------------------------
  // Title hints.

  const TitleHints: seq<(string, nat)> := [("geforce gtx 690", 2), ("b300", 4)]

  /** The count of the first hint contained in the normalised title or URL. */
  function FirstHint(hints: seq<(string, nat)>, titleNorm: string, urlNorm: string): (r: Option<nat>)
    ensures r.Some? ==>
      exists i :: 0 <= i < |hints| && hints[i].1 == r.value && (Contains(titleNorm, hints[i].0) || Contains(urlNorm, hints[i].0))
    ensures r.None? ==> forall i :: 0 <= i < |hints| ==>
      !Contains(titleNorm, hints[i].0) && !Contains(urlNorm, hints[i].0)
  {
    if hints == [] then None
    else if Contains(titleNorm, hints[0].0) || Contains(urlNorm, hints[0].0) then Some(hints[0].1)
    else
      var r := FirstHint(hints[1..], titleNorm, urlNorm);
      assert forall i :: 1 <= i < |hints| ==> hints[i] == hints[1..][i - 1];
      r
  }

  function TitleHint(title: string, url: string): Option<nat>
  {
    FirstHint(TitleHints, NormalizeSectionTitle(title), NormalizeSectionTitle(url))
  }

  /** A title hint is a count of 2 or 4. */
  lemma HintCounts(titleNorm: string, urlNorm: string)
    ensures var r := FirstHint(TitleHints, titleNorm, urlNorm);
      r.Some? ==> r.value == 2 || r.value == 4
  {
    var r := FirstHint(TitleHints, titleNorm, urlNorm);
    if r.Some? {
      var i :| 0 <= i < |TitleHints| && TitleHints[i].1 == r.value
        && (Contains(titleNorm, TitleHints[i].0) || Contains(urlNorm, TitleHints[i].0));
      assert TitleHints[0].1 == 2 && TitleHints[1].1 == 4;
    }
  }

  // ---------------------------------------------------------------------------
  // Probe texts: the gate `multi\s*-?\s*gpu|dual\s*-?\s*gpu|quad\s*-?\s*gpu` and the
  // counts `\bx\s*(\d+)\b|\b(\d+)\s*gpu\b`, both with case ignored.

  /** The gate matches at the start of the lower-cased text `t`. */
  predicate GateAt(t: string)
  {
    var p := if IsPrefix("multi", t) then 5 else if IsPrefix("dual", t) || IsPrefix("quad", t) then 4 else 0;
    p > 0
    && var a := p + SpaceRun(t[p..]);
       var b := if a < |t| && t[a] == '-' then a + 1 else a;
       var c := b + SpaceRun(t[b..]);
       IsPrefix("gpu", t[c..])
  }

  predicate GateFrom(t: string)
  {
    t != [] && (GateAt(t) || GateFrom(t[1..]))
  }

  /** The gate matches somewhere in the text. */
  predicate Gate(text: string)
  {
    GateFrom(Lower(text))
  }

  function IsWordEnd(t: string, i: nat): bool
    requires i <= |t|
  {
    i == |t| || !IsWordChar(t[i])
  }

  /** A count match starting at `i` of the lower-cased text `t`: its end and value.
      Both alternatives start with a word character, so `\b` there needs a
      non-word character (or nothing) in front. */
  function MatchAt(t: string, i: nat): (r: Option<(nat, nat)>)
    requires i < |t|
    ensures r.Some? ==> i < r.value.0 <= |t|
  {
    if i > 0 && IsWordChar(t[i - 1]) then None
    else if t[i] == 'x' then
      var j := i + 1 + SpaceRun(t[i + 1..]);
      var d := DigitRun(t[j..]);
      if d > 0 && IsWordEnd(t, j + d) then Some((j + d, Value(t[j..j + d]))) else None
    else
      var d := DigitRun(t[i..]);
      var k := i + d + SpaceRun(t[i + d..]);
      if d > 0 && IsPrefix("gpu", t[k..]) && IsWordEnd(t, k + 3) then Some((k + 3, Value(t[i..i + d])))
      else None
  }

  /** The counts of `re.finditer` from position `i`: matches do not overlap, and the
      scan resumes at the end of each match. */
  function MatchValues(t: string, i: nat): seq<nat>
    requires i <= |t|
    decreases |t| - i
  {
    if i == |t| then []
    else match MatchAt(t, i)
      case Some(m) => [m.1] + MatchValues(t, m.0)
      case None => MatchValues(t, i + 1)
  }

  /** The counts a probe text contributes: none unless the gate matches. */
  function TextValues(text: string): seq<nat>
  {
    if Gate(text) then MatchValues(Lower(text), 0) else []
  }

  /** A scanner of the counts in one text; the detector uses `TextValues`. */
  type Scanner = string -> seq<nat>

  /** The counts of all texts, text by text. */
  function AllValues(texts: seq<string>, scan: Scanner): seq<nat>
  {
    if texts == [] then [] else AllValues(texts[..|texts| - 1], scan) + scan(texts[|texts| - 1])
  }

  lemma {:induction false} AllValuesMembers(texts: seq<string>, scan: Scanner)
    ensures forall v :: v in AllValues(texts, scan) <==> exists i :: 0 <= i < |texts| && v in scan(texts[i])
  {
    if texts != [] {
      var init := texts[..|texts| - 1];
      AllValuesMembers(init, scan);
      assert forall i :: 0 <= i < |init| ==> init[i] == texts[i];
    }
  }

  /** The loop over the probe texts and their count matches. */
  method MultiplierFromTexts(texts: seq<string>, scan: Scanner) returns (r: nat)
    ensures r == MaxValid(AllValues(texts, scan))
  {
    r := 1;
    for i := 0 to |texts|
      invariant r == MaxValid(AllValues(texts[..i], scan))
    {
      assert texts[..i + 1][..i] == texts[..i];
      ghost var before := AllValues(texts[..i], scan);
      var vs := scan(texts[i]);
      assert vs[..0] == [] && before + [] == before;
      for j := 0 to |vs|
        invariant r == MaxValid(before + vs[..j])
      {
        assert before + vs[..j + 1] == (before + vs[..j]) + [vs[j]];
        MaxValidAppend(before + vs[..j], vs[j]);
        if InRange(vs[j]) && vs[j] > r {
          r := vs[j];
        }
      }
      assert vs[..|vs|] == vs;
    }
    assert texts[..|texts|] == texts;
  }

  const ProbeKeys: set<string> := {"gpu name", "graphics processor", "gpu", "chip", "multi-gpu", "gpu count"}

  predicate IsProbeKey(k: string, norm: TitleKey) { norm(k) in ProbeKeys }

  predicate ProbesAllOf(sectionName: string, norm: TitleKey) {
    Contains(norm(sectionName), "graphics processor")
  }

  /** `v` is a hero value under a probe label. */
  ghost predicate InHero(v: string, hero: map<string, string>, norm: TitleKey)
  {
    exists k :: k in hero && IsProbeKey(k, norm) && hero[k] == v
  }

  /** `v` is a probe text of the section `name`: any of its values when it is a
      "graphics processor" section, else a value under a probe label. */
  ghost predicate InSection(v: string, name: string, items: map<string, string>, norm: TitleKey)
  {
    exists k :: k in items && (ProbesAllOf(name, norm) || IsProbeKey(k, norm)) && items[k] == v
  }

  ghost predicate InSections(v: string, sections: map<string, map<string, string>>, names: set<string>,
                             norm: TitleKey)
  {
    exists s :: s in names && s in sections && InSection(v, s, sections[s], norm)
  }

  /** The texts searched for a chip count: the title, hero values under a probe
      label, every value of a "graphics processor" section, and section values under
      a probe label. */
  ghost predicate IsProbe(v: string, title: string, hero: map<string, string>,
                          sections: map<string, map<string, string>>, norm: TitleKey)
  {
    v == title || InHero(v, hero, norm) || InSections(v, sections, sections.Keys, norm)
  }

  lemma InSectionsAdd(v: string, sections: map<string, map<string, string>>, done: set<string>, s: string,
                      norm: TitleKey)
    requires s in sections
    ensures InSections(v, sections, done + {s}, norm) <==>
      InSections(v, sections, done, norm) || InSection(v, s, sections[s], norm)
  {
  }

  /** Collecting the probe texts. */
  method ProbeValues(title: string, hero: map<string, string>, sections: map<string, map<string, string>>,
                     norm: TitleKey)
    returns (ps: seq<string>)
    ensures forall v :: v in ps <==> IsProbe(v, title, hero, sections, norm)
  {
    ps := HeroProbes(title, hero, norm);
    var names := sections.Keys;
    while names != {}
      invariant names <= sections.Keys
      invariant forall v :: v in ps <==>
        v == title || InHero(v, hero, norm) || InSections(v, sections, sections.Keys - names, norm)
      decreases |names|
    {
      var s :| s in names;
      ghost var ps0 := ps;
      ps := SectionProbes(ps, s, sections[s], norm);
      forall v
        ensures InSections(v, sections, (sections.Keys - names) + {s}, norm) <==>
          InSections(v, sections, sections.Keys - names, norm) || InSection(v, s, sections[s], norm)
      {
        InSectionsAdd(v, sections, sections.Keys - names, s, norm);
      }
      assert (sections.Keys - names) + {s} == sections.Keys - (names - {s});
      names := names - {s};
    }
  }

  /** The title, then the hero values under a probe label. */
  method HeroProbes(title: string, hero: map<string, string>, norm: TitleKey) returns (ps: seq<string>)
    ensures forall v :: v in ps <==> v == title || InHero(v, hero, norm)
  {
    ps := [title];
    var todo := hero.Keys;
    while todo != {}
      invariant todo <= hero.Keys
      invariant forall v :: v in ps <==>
        v == title || exists k :: k in hero && k !in todo && IsProbeKey(k, norm) && hero[k] == v
      decreases |todo|
    {
      var k :| k in todo;
      if IsProbeKey(k, norm) {
        ps := ps + [hero[k]];
      }
      todo := todo - {k};
    }
  }

  /** The probe texts one section adds: all its values when it is a "graphics
      processor" section, then its values under a probe label. */
  method SectionProbes(ps0: seq<string>, name: string, items: map<string, string>, norm: TitleKey)
    returns (ps: seq<string>)
    ensures forall v :: v in ps <==> v in ps0 || InSection(v, name, items, norm)
  {
    ps := ps0;
    if ProbesAllOf(name, norm) {
      var todo := items.Keys;
      while todo != {}
        invariant todo <= items.Keys
        invariant forall v :: v in ps <==> v in ps0 || exists k :: k in items && k !in todo && items[k] == v
        decreases |todo|
      {
        var k :| k in todo;
        ps := ps + [items[k]];
        todo := todo - {k};
      }
    }
    var todo := items.Keys;
    while todo != {}
      invariant todo <= items.Keys
      invariant forall v :: v in ps <==>
        v in ps0 || exists k :: k in items && (ProbesAllOf(name, norm) || (k !in todo && IsProbeKey(k, norm))) && items[k] == v
      decreases |todo|
    {
      var k :| k in todo;
      if IsProbeKey(k, norm) {
        ps := ps + [items[k]];
      }
      todo := todo - {k};
    }
  }

  /** The largest believed count over the probe texts, for labels normalised by
      `norm` and counts found by `scan`. */
  method MultiplierFromProbes(title: string, hero: map<string, string>, sections: map<string, map<string, string>>,
                              norm: TitleKey, scan: Scanner)
    returns (r: nat)
    ensures 1 <= r <= 8
    ensures forall v, x :: IsProbe(v, title, hero, sections, norm) && x in scan(v) && InRange(x) ==> x <= r
    ensures r == 1 || exists v :: IsProbe(v, title, hero, sections, norm) && r in scan(v)
  {
    var ps := ProbeValues(title, hero, sections, norm);
    r := MultiplierFromTexts(ps, scan);
    MaxValidSpec(AllValues(ps, scan));
    AllValuesMembers(ps, scan);
    forall v, x | IsProbe(v, title, hero, sections, norm) && x in scan(v) && InRange(x)
      ensures x <= r
    {
      var i :| 0 <= i < |ps| && ps[i] == v;
      assert x in AllValues(ps, scan);
    }
  }

  /** `detect_multi_chip_multiplier`: a class marker above 1 wins, then the first
      title hint, then the largest believed count in the probe texts. `classes` holds
      the class lists of the page's marked cells. */
  method DetectMultiChipMultiplier(classes: seq<seq<string>>, title: string, url: string,
                                   hero: map<string, string>, sections: map<string, map<string, string>>)
    returns (r: nat)
    ensures 1 <= r <= 8
    ensures MaxValid(ClassValues(classes)) > 1 ==> r == MaxValid(ClassValues(classes))
    ensures MaxValid(ClassValues(classes)) == 1 && TitleHint(title, url).Some? ==>
      r == TitleHint(title, url).value
    ensures MaxValid(ClassValues(classes)) == 1 && TitleHint(title, url).None? ==>
      (forall v, x :: IsProbe(v, title, hero, sections, NormalizeSectionTitle) && x in TextValues(v) && InRange(x) ==> x <= r)
      && (r == 1 || exists v :: IsProbe(v, title, hero, sections, NormalizeSectionTitle) && r in TextValues(v))
  {
    var fromClasses := MultiplierFromClasses(classes);
    MaxValidSpec(ClassValues(classes));
    if fromClasses > 1 {
      return fromClasses;
    }
    var hint := TitleHint(title, url);
    if hint.Some? {
      HintCounts(NormalizeSectionTitle(title), NormalizeSectionTitle(url));
      return hint.value;
    }
    r := MultiplierFromProbes(title, hero, sections, NormalizeSectionTitle, TextValues);
  }

  // ---------------------------------------------------------------------------
  // Scaling the figures of a multi-chip board.

  const Targets: set<string> := {"memory", "render config", "theoretical performance"}

  /** How the figures in one entry are multiplied: `MultiplyValueNumbersAsWritten`
      is what the scraper does, `MultiplyValueNumbers` what it evidently means to do. */
  type Scaler = (string, int, (string, int) -> string) -> string

  /** One section's entries after scaling: in "memory", entries whose label mentions
      "clock" keep their value. */
  function ScaledItems(items: map<string, string>, isMemory: bool, m: int,
                       scaleDecimal: (string, int) -> string, norm: TitleKey, scale: Scaler): map<string, string>
  {
    map k | k in items ::
      if isMemory && Contains(norm(k), "clock") then items[k]
      else scale(items[k], m, scaleDecimal)
  }

  function ScaledSections(sections: map<string, map<string, string>>, m: int,
                          scaleDecimal: (string, int) -> string, norm: TitleKey, scale: Scaler)
    : map<string, map<string, string>>
  {
    if m <= 1 then sections
    else
      map s | s in sections ::
        if norm(s) in Targets
        then ScaledItems(sections[s], norm(s) == "memory", m, scaleDecimal, norm, scale)
        else sections[s]
  }

  /** `apply_multi_chip_multiplier`: section and entry labels are compared in
      their normalised form, and each value's figures are multiplied as the
      scraper's pattern splits them. */
  method ApplyMultiChipMultiplier(sections: map<string, map<string, string>>, m: int,
                                  scaleDecimal: (string, int) -> string)
    returns (transformed: map<string, map<string, string>>)
    ensures transformed == ScaledSections(sections, m, scaleDecimal, NormalizeSectionTitle, MultiplyValueNumbersAsWritten)
  {
    transformed := ScaleSections(sections, m, scaleDecimal, NormalizeSectionTitle, MultiplyValueNumbersAsWritten);
  }

  /** The same pass with the corrected number pattern, which scales each whole
      number once. */
  method ApplyMultiChipMultiplierCorrected(sections: map<string, map<string, string>>, m: int,
                                           scaleDecimal: (string, int) -> string)
    returns (transformed: map<string, map<string, string>>)
    ensures transformed == ScaledSections(sections, m, scaleDecimal, NormalizeSectionTitle, MultiplyValueNumbers)
  {
    transformed := ScaleSections(sections, m, scaleDecimal, NormalizeSectionTitle, MultiplyValueNumbers);
  }

  /** The scaling loop, for labels normalised by `norm`. */
  method ScaleSections(sections: map<string, map<string, string>>, m: int,
                       scaleDecimal: (string, int) -> string, norm: TitleKey, scale: Scaler)
    returns (transformed: map<string, map<string, string>>)
    ensures transformed == ScaledSections(sections, m, scaleDecimal, norm, scale)
  {
    if m <= 1 {
      return sections;
    }
    ghost var target := ScaledSections(sections, m, scaleDecimal, norm, scale);
    transformed := map[];
    var todo := sections.Keys;
    while todo != {}
      invariant todo <= sections.Keys
      invariant transformed.Keys == sections.Keys - todo
      invariant forall s :: s in transformed ==> transformed[s] == target[s]
      decreases |todo|
    {
      var s := PickKey(todo);
      var key := norm(s);
      if key !in Targets {
        transformed := transformed[s := sections[s]];
      } else {
        var updated := ScaleItems(sections[s], key == "memory", m, scaleDecimal, norm, scale);
        transformed := transformed[s := updated];
      }
      todo := todo - {s};
    }
    assert transformed.Keys == target.Keys;
  }

  /** Scaling one section's entries. */
  method ScaleItems(items: map<string, string>, isMemory: bool, m: int,
                    scaleDecimal: (string, int) -> string, norm: TitleKey, scale: Scaler)
    returns (updated: map<string, string>)
    ensures updated == ScaledItems(items, isMemory, m, scaleDecimal, norm, scale)
  {
    ghost var target := ScaledItems(items, isMemory, m, scaleDecimal, norm, scale);
    updated := map[];
    var todo := items.Keys;
    while todo != {}
      invariant todo <= items.Keys
      invariant updated.Keys == items.Keys - todo
      invariant forall k :: k in updated ==> updated[k] == target[k]
      decreases |todo|
    {
      var k := PickKey(todo);
      if isMemory && Contains(norm(k), "clock") {
        updated := updated[k := items[k]];
      } else {
        updated := updated[k := scale(items[k], m, scaleDecimal)];
      }
      todo := todo - {k};
    }
    assert updated.Keys == target.Keys;
  }

  method PickKey(keys: set<string>) returns (k: string)
    requires keys != {}
    ensures k in keys
  {
    k :| k in keys;
  }

  /** Scaling keeps every section and every label; sections outside the three
      targets, and clock entries of "memory", keep their values; a multiplier of 1
      or less changes nothing. */
  lemma ScaledSectionsSpec(sections: map<string, map<string, string>>, m: int,
                           scaleDecimal: (string, int) -> string, norm: TitleKey, scale: Scaler)
    ensures var r := ScaledSections(sections, m, scaleDecimal, norm, scale);
      r.Keys == sections.Keys
      && (forall s :: s in sections ==> r[s].Keys == sections[s].Keys)
      && (forall s :: s in sections && norm(s) !in Targets ==> r[s] == sections[s])
      && (forall s, k ::
            (s in sections && norm(s) == "memory" && k in sections[s] && Contains(norm(k), "clock"))
            ==> r[s][k] == sections[s][k])
      && (m <= 1 ==> r == sections)
  {
  }

  /** In a target section, a label that is not a memory clock and holds a
      comma-formatted integer gets that integer times the multiplier, with the
      scraper's pattern and with the corrected one alike. */
  lemma ScaledFormattedValue(sections: map<string, map<string, string>>, m: int,
                             scaleDecimal: (string, int) -> string, norm: TitleKey,
                             s: string, k: string, n: nat)
    requires m > 1 && s in sections && k in sections[s] && sections[s][k] == FormatThousands(n)
    requires norm(s) in Targets
    requires !(norm(s) == "memory" && Contains(norm(k), "clock"))
    ensures ScaledSections(sections, m, scaleDecimal, norm, MultiplyValueNumbersAsWritten)[s][k] == FormatInt(n * m)
    ensures ScaledSections(sections, m, scaleDecimal, norm, MultiplyValueNumbers)[s][k] == FormatInt(n * m)
  {
    assert Boundary([]);
    ScalesFormattedInteger(n, m, [], scaleDecimal);
    assert FormatThousands(n) + [] == FormatThousands(n);
    NoDigitsUnchanged([], m, scaleDecimal);
  }
}
