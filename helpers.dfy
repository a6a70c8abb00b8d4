/** Small helpers of the scraper: recognising a block page and resolving the
    manufacturer list given on the command line. Case is ignored for ASCII letters. */
module ScraperHelpers {
  import opened Text
  import opened Common

  /** Phrases that mark a bot-check or rate-limit page, most specific first. */
  const BlockPageMarkers: seq<string> :=
    ["Automated bot check in progress", "Automated bot check", "Too Many Requests", "HTTP 429"]

  /** The first of `markers` that occurs in `content`, case ignored. */
  function FirstMarker(markers: seq<string>, content: string): (r: Option<string>)
    ensures r.Some? ==>
      exists i :: 0 <= i < |markers| && markers[i] == r.value
        && Contains(Lower(content), Lower(markers[i]))
        && forall j :: 0 <= j < i ==> !Contains(Lower(content), Lower(markers[j]))
    ensures r.None? <==> forall i :: 0 <= i < |markers| ==> !Contains(Lower(content), Lower(markers[i]))
  {
    if markers == [] then None
    else if Contains(Lower(content), Lower(markers[0])) then Some(markers[0])
    else
      var r := FirstMarker(markers[1..], content);
      assert forall i :: 1 <= i < |markers| ==> markers[i] == markers[1..][i - 1];
      r
  }

  /** `detect_block_reason`. */
  function DetectBlockReason(text: string): Option<string>
  {
    FirstMarker(BlockPageMarkers, text)
  }

  lemma LowerOf(s: string, t: string)
    requires |s| == |t| && forall i :: 0 <= i < |s| ==> LowerChar(s[i]) == t[i]
    ensures Lower(s) == t
  {
  }

  lemma MarkerKeys()
    ensures Lower(BlockPageMarkers[0]) == "automated bot check in progress"
    ensures Lower(BlockPageMarkers[1]) == "automated bot check"
    ensures Lower(BlockPageMarkers[3]) == "http 429"
  {
    InProgressKey();
    BotCheckKey();
    LowerOf("HTTP 429", "http 429");
  }

  lemma InProgressKey()
    ensures Lower(BlockPageMarkers[0]) == "automated bot check in progress"
  {
    LowerOf("Automated bot check in progress", "automated bot check in progress");
  }

  lemma BotCheckKey()
    ensures Lower(BlockPageMarkers[1]) == "automated bot check"
  {
    LowerOf("Automated bot check", "automated bot check");
  }

  /** A page showing the bot check in progress is reported with the longer
      marker, ahead of the plain "Automated bot check". */
  lemma InProgressReported(text: string)
    requires Contains(Lower(text), "automated bot check in progress")
    ensures DetectBlockReason(text) == Some("Automated bot check in progress")
  {
    MarkerKeys();
  }

  /** Any page mentioning the bot check or HTTP 429, in any case, is reported as
      blocked. */
  lemma BlockPagesReported(text: string)
    requires Contains(Lower(text), "automated bot check") || Contains(Lower(text), "http 429")
    ensures DetectBlockReason(text).Some?
  {
    MarkerKeys();
  }

  // ---------------------------------------------------------------------------

  const DefaultManufacturers: seq<string> := ["NVIDIA", "AMD", "Intel", "Moore Threads"]

  /** `canonical`: each default manufacturer under its lower-case form. */
  const CanonicalNames: map<string, string> :=
    map["nvidia" := "NVIDIA", "amd" := "AMD", "intel" := "Intel", "moore threads" := "Moore Threads"]

  /** `CanonicalNames` is `{item.lower(): item for item in DEFAULT_MANUFACTURERS}`. */
  lemma CanonicalNamesBuilt()
    ensures CanonicalNames.Keys == set d | d in DefaultManufacturers :: Lower(d)
    ensures forall d :: d in DefaultManufacturers ==> CanonicalNames[Lower(d)] == d
  {
    LowerOf("NVIDIA", "nvidia");
    LowerOf("AMD", "amd");
    LowerOf("Intel", "intel");
    LowerOf("Moore Threads", "moore threads");
  }

  /** `canonical.get(token.lower(), token)`: a token equal, ignoring case, to a
      default manufacturer becomes that manufacturer's spelling; any other token is
      kept as it is. */
  function Canonical(token: string): (r: string)
    ensures r == token || r in DefaultManufacturers
    ensures forall d :: d in DefaultManufacturers && Lower(token) == Lower(d) ==> r == d
    ensures (forall d :: d in DefaultManufacturers ==> Lower(token) != Lower(d)) ==> r == token
  {
    CanonicalNamesBuilt();
    var key := Lower(token);
    if key in CanonicalNames then CanonicalNames[key] else token
  }

  /** One command-line value: stripped, dropped when blank, known names in their
      canonical spelling. */
  function ResolveOne(value: string): Option<string>
  {
    var token := Strip(value);
    if token == [] then None else Some(Canonical(token))
  }

  /** The values `f` keeps, in order. */
  function Kept(values: seq<string>, f: string -> Option<string>): seq<string>
  {
    if values == [] then []
    else
      var r := f(values[|values| - 1]);
      Kept(values[..|values| - 1], f) + (if r.Some? then [r.value] else [])
  }

  function ResolvedTokens(values: seq<string>): seq<string>
  {
    Kept(values, ResolveOne)
  }

  /** What `resolve_manufacturers` returns; `None` is an absent option. */
  function Resolved(values: Option<seq<string>>): seq<string>
  {
    var tokens := if values.Some? then ResolvedTokens(values.value) else [];
    if tokens == [] then DefaultManufacturers else tokens
  }

  /** `resolve_manufacturers`. */
  method ResolveManufacturers(values: Option<seq<string>>) returns (resolved: seq<string>)
    ensures resolved == Resolved(values)
  {
    if values.None? || values.value == [] {
      return DefaultManufacturers;
    }
    var vs := values.value;
    resolved := [];
    for i := 0 to |vs|
      invariant resolved == ResolvedTokens(vs[..i])
    {
      assert vs[..i + 1][..i] == vs[..i];
      var token := Strip(vs[i]);
      if token != [] {
        resolved := resolved + [Canonical(token)];
      }
    }
    assert vs[..|vs|] == vs;
    if resolved == [] {
      resolved := DefaultManufacturers;
    }
  }

  /** Canonicalising twice is canonicalising once. */
  lemma CanonicalIdempotent(x: string)
    ensures Canonical(Canonical(x)) == Canonical(x)
  {
    CanonicalNamesBuilt();
    var key := Lower(x);
    if key in CanonicalNames {
      var d := CanonicalNames[key];
      assert d in DefaultManufacturers;
      assert Lower(d) == key;
    }
  }

  /** A resolved name resolves to itself. */
  lemma ResolveOneIdempotent(x: string)
    requires ResolveOne(x).Some?
    ensures ResolveOne(ResolveOne(x).value) == ResolveOne(x)
  {
    var token := Strip(x);
    var c := Canonical(token);
    CanonicalIdempotent(token);
    if c == token {
      StripTrimmed(token);
    } else {
      DefaultsSettled();
    }
  }

  lemma DefaultsSettled()
    ensures forall d :: d in DefaultManufacturers ==> d != [] && Strip(d) == d && Canonical(d) == d
  {
    CanonicalNamesBuilt();
    forall d | d in DefaultManufacturers
      ensures d != [] && Strip(d) == d
    {
      assert Trimmed(d);
      StripTrimmed(d);
    }
  }

  lemma {:induction false} KeptFrom(values: seq<string>, f: string -> Option<string>)
    ensures forall t :: t in Kept(values, f) ==> exists i :: 0 <= i < |values| && f(values[i]) == Some(t)
  {
    if values != [] {
      var init := values[..|values| - 1];
      KeptFrom(init, f);
      assert forall i :: 0 <= i < |init| ==> init[i] == values[i];
    }
  }

  lemma {:induction false} KeptFixed(ts: seq<string>, f: string -> Option<string>)
    requires forall i :: 0 <= i < |ts| ==> f(ts[i]) == Some(ts[i])
    ensures Kept(ts, f) == ts
  {
    if ts != [] {
      var init := ts[..|ts| - 1];
      assert forall i :: 0 <= i < |init| ==> init[i] == ts[i];
      KeptFixed(init, f);
      assert ts == init + [ts[|ts| - 1]];
    }
  }

  /** Keeping twice is keeping once when `f` maps what it keeps to itself. */
  lemma KeptIdempotent(values: seq<string>, f: string -> Option<string>)
    requires forall x :: f(x).Some? ==> f(f(x).value) == f(x)
    ensures Kept(Kept(values, f), f) == Kept(values, f)
  {
    var ts := Kept(values, f);
    KeptFrom(values, f);
    forall i | 0 <= i < |ts|
      ensures f(ts[i]) == Some(ts[i])
    {
      assert ts[i] in ts;
      var j :| 0 <= j < |values| && f(values[j]) == Some(ts[i]);
    }
    KeptFixed(ts, f);
  }

  /** The result is never empty, holds no blank or padded name, and resolving it
      again gives it back. */
  lemma ResolvedIdempotent(values: Option<seq<string>>)
    ensures Resolved(values) != []
    ensures forall t :: t in Resolved(values) ==> t != [] && Strip(t) == t
    ensures Resolved(Some(Resolved(values))) == Resolved(values)
  {
    forall x | ResolveOne(x).Some?
      ensures ResolveOne(ResolveOne(x).value) == ResolveOne(x)
    {
      ResolveOneIdempotent(x);
    }
    DefaultsSettled();
    var r := Resolved(values);
    if values.Some? && ResolvedTokens(values.value) != [] {
      KeptIdempotent(values.value, ResolveOne);
      KeptFrom(values.value, ResolveOne);
      forall t | t in r
        ensures t != [] && Strip(t) == t
      {
        var j :| 0 <= j < |values.value| && ResolveOne(values.value[j]) == Some(t);
        ResolveOneIdempotent(values.value[j]);
      }
    } else {
      forall i | 0 <= i < |DefaultManufacturers|
        ensures ResolveOne(DefaultManufacturers[i]) == Some(DefaultManufacturers[i])
      {
        assert DefaultManufacturers[i] in DefaultManufacturers;
      }
      KeptFixed(DefaultManufacturers, ResolveOne);
    }
  }

  /** The defaults are used when the option is absent or every value is blank. */
  lemma ResolvedDefaults(values: Option<seq<string>>)
    requires values.Some? ==> forall i :: 0 <= i < |values.value| ==> Strip(values.value[i]) == []
    ensures Resolved(values) == DefaultManufacturers
  {
    if values.Some? {
      BlanksDropped(values.value);
    }
  }

  lemma {:induction false} BlanksDropped(values: seq<string>)
    requires forall i :: 0 <= i < |values| ==> Strip(values[i]) == []
    ensures ResolvedTokens(values) == []
  {
    if values != [] {
      var init := values[..|values| - 1];
      assert forall i :: 0 <= i < |init| ==> init[i] == values[i];
      BlanksDropped(init);
    }
  }

  /** Known manufacturers are recognised in any case and with surrounding blanks;
      other names pass through stripped. */
  lemma ResolvedNames(values: seq<string>, i: nat)
    requires i < |values| && Strip(values[i]) != []
    ensures Resolved(Some(values)) == ResolvedTokens(values)
    ensures Canonical(Strip(values[i])) in Resolved(Some(values))
  {
    ResolvedTokensMembers(values, i);
  }

  lemma {:induction false} ResolvedTokensMembers(values: seq<string>, i: nat)
    requires i < |values| && Strip(values[i]) != []
    ensures Canonical(Strip(values[i])) in ResolvedTokens(values)
    decreases |values|
  {
    var init := values[..|values| - 1];
    if i < |values| - 1 {
      assert init[i] == values[i];
      ResolvedTokensMembers(init, i);
    }
  }
}
