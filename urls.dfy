/** `normalize_detail_url`: the key under which a detail page is remembered.

    The URL is stripped of surrounding whitespace, split the way `urlsplit` splits it,
    its query and fragment are dropped, trailing '/' characters are removed from its
    path, and the remaining parts are joined again the way `urlunsplit` joins them.
    The exporter's `normalize_url` has the same body. */
module Urls {
  import opened Text

  /** The parts of a URL that survive normalisation. */
  datatype UrlParts = UrlParts(scheme: string, netloc: string, path: string)

  predicate IsSchemeChar(c: char) {
    IsLetter(c) || IsDigit(c) || c == '+' || c == '-' || c == '.'
  }

  /** What `urlsplit` returns as a scheme: lower-case, starting with a letter. */
  predicate ValidScheme(sc: string) {
    sc != [] && IsLetter(sc[0])
    && forall j :: 0 <= j < |sc| ==> IsSchemeChar(sc[j]) && !IsUpper(sc[j])
  }

  /** `urlsplit`'s scheme rule: the text before the first ':' is the scheme when it is
      non-empty, starts with an ASCII letter and holds only scheme characters; it is
      lower-cased. Otherwise there is no scheme. Returns (scheme, rest). */
  function SplitScheme(s: string): (r: (string, string))
    ensures |r.0| < |s| || r.0 == []
    ensures r.0 == [] ==> r.1 == s
    ensures r.0 != [] ==> s == s[..|r.0|] + ":" + r.1 && r.0 == Lower(s[..|r.0|])
    ensures r.0 == [] || ValidScheme(r.0)
  {
    var i := |TakeUntil(s, ':')|;
    if 0 < i < |s| && IsLetter(s[0]) && (forall j :: 0 <= j < i ==> IsSchemeChar(s[j]))
    then (Lower(s[..i]), s[i + 1..])
    else ("", s)
  }

  /** `urlsplit` of a string that holds no '?' and no '#': the authority follows a
      leading "//" and runs up to the next '/'. */
  function SplitUrl(s: string): (p: UrlParts)
    ensures '/' !in p.netloc
    ensures p.netloc != [] ==> p.path == [] || p.path[0] == '/'
  {
    var sr := SplitScheme(s);
    var ap := SplitAuthority(sr.1);
    UrlParts(sr.0, ap.0, ap.1)
  }

  /** Splits what follows the scheme into (netloc, path). */
  function SplitAuthority(rest: string): (r: (string, string))
    ensures '/' !in r.0
    ensures r.0 != [] ==> r.1 == [] || r.1[0] == '/'
  {
    if |rest| >= 2 && rest[..2] == "//" then
      var netloc := TakeUntil(rest[2..], '/');
      (netloc, rest[2 + |netloc|..])
    else
      ("", rest)
  }

  /** `urlunsplit` with an empty query and fragment. */
  function Unsplit(p: UrlParts): string
  {
    (if p.scheme != [] then p.scheme + ":" else "")
    + (if p.netloc != [] then
         "//" + p.netloc + (if p.path != [] && p.path[0] != '/' then "/" + p.path else p.path)
       else p.path)
  }

  /** The text before the query and the fragment. */
  function WithoutQuery(s: string): (r: string)
    ensures '?' !in r && '#' !in r
    ensures |r| <= |s| && r == s[..|r|]
  {
    TakeUntil(TakeUntil(s, '#'), '?')
  }

  /** Splits a URL that has no query and no fragment, strips the trailing '/'
      characters of its path and joins it again. */
  function Rebuild(b: string): string
  {
    var p := SplitUrl(b);
    Unsplit(p.(path := RStripChar(p.path, '/')))
  }

  function NormalizeDetailUrl(url: string): string
  {
    Rebuild(WithoutQuery(Strip(url)))
  }

  lemma LowerKeepsChar(s: string, c: char)
    requires !IsLetter(c)
    ensures c in Lower(s) <==> c in s
  {
    if c in Lower(s) {
      var i :| 0 <= i < |s| && Lower(s)[i] == c;
      assert s[i] == c;
    }
    if c in s {
      var i :| 0 <= i < |s| && s[i] == c;
      assert Lower(s)[i] == c;
    }
  }

  /** Every character of a split part comes from the split text. */
  lemma SplitUrlParts(s: string)
    ensures var p := SplitUrl(s);
      (forall c :: c in p.netloc ==> c in s) && (forall c :: c in p.path ==> c in s)
      && (forall c :: !IsLetter(c) && c in p.scheme ==> c in s)
  {
    var sr := SplitScheme(s);
    if sr.0 != [] {
      assert forall c :: c in sr.1 ==> c in s by {
        assert s == s[..|sr.0|] + ":" + sr.1;
      }
      forall c | !IsLetter(c) && c in sr.0 ensures c in s {
        LowerKeepsChar(s[..|sr.0|], c);
      }
    }
  }

  /** Joining parts free of '?' and '#', with a path that does not end with '/',
      gives a URL free of '?' and '#' that does not end with '/'. */
  lemma UnsplitShape(q: UrlParts)
    requires '?' !in q.scheme && '#' !in q.scheme && '?' !in q.netloc && '#' !in q.netloc
    requires '?' !in q.path && '#' !in q.path && '/' !in q.netloc
    requires q.path == [] || q.path[|q.path| - 1] != '/'
    ensures var r := Unsplit(q); '?' !in r && '#' !in r && (r == [] || r[|r| - 1] != '/')
  {
    var head := if q.scheme != [] then q.scheme + ":" else "";
    var tail := if q.netloc != [] then
         "//" + q.netloc + (if q.path != [] && q.path[0] != '/' then "/" + q.path else q.path)
       else q.path;
    assert Unsplit(q) == head + tail;
    if q.netloc != [] {
      var last := if q.path != [] && q.path[0] != '/' then "/" + q.path else q.path;
      assert tail == "//" + q.netloc + last;
      if last == [] {
        assert tail[|tail| - 1] == q.netloc[|q.netloc| - 1];
      } else {
        assert tail[|tail| - 1] == q.path[|q.path| - 1];
      }
    } else if tail == [] && head != [] {
      assert head[|head| - 1] == ':';
    }
  }

  /** A normalised URL has no query, no fragment and does not end with '/'. */
  lemma NormalizedShape(url: string)
    ensures var r := NormalizeDetailUrl(url);
      '?' !in r && '#' !in r && (r == [] || r[|r| - 1] != '/')
  {
    RebuildShape(WithoutQuery(Strip(url)));
  }

  lemma RebuildShape(b: string)
    requires '?' !in b && '#' !in b
    ensures var r := Rebuild(b); '?' !in r && '#' !in r && (r == [] || r[|r| - 1] != '/')
  {
    var p := SplitUrl(b);
    SplitUrlParts(b);
    assert !IsLetter('?') && !IsLetter('#');
    assert '?' !in p.scheme && '#' !in p.scheme && '?' !in p.netloc && '#' !in p.netloc;
    assert '?' !in p.path && '#' !in p.path;
    var path := RStripChar(p.path, '/');
    assert path == p.path[..|path|];
    assert '?' !in path && '#' !in path;
    UnsplitShape(p.(path := path));
  }

  /** Stripping keeps a trimmed head followed by a non-space separator. */
  lemma StripKeepsHead(u: string, sep: char, tail: string)
    requires !IsSpace(sep) && Trimmed(u)
    ensures exists x :: Strip(u + [sep] + tail) == u + [sep] + x
  {
    var s := u + [sep] + tail;
    var rs := RStrip(s);
    assert !IsSpace(s[|u|]);
    assert |rs| > |u|;
    assert rs[..|u| + 1] == s[..|u| + 1] == u + [sep];
    assert rs == u + [sep] + rs[|u| + 1..];
    assert rs[0] == (if u != [] then u[0] else sep);
    assert LStrip(rs) == rs;
  }

  lemma WithoutQueryOfHead(u: string, sep: char, x: string)
    requires sep == '?' || sep == '#'
    requires '?' !in u && '#' !in u
    ensures WithoutQuery(u + [sep] + x) == u
  {
    var s := u + [sep] + x;
    assert s == u + ([sep] + x);
    TakeUntilAppend(u, [sep] + x, '#');
    var h := TakeUntil(s, '#');
    if sep == '#' {
      assert h == u + [];
    } else {
      assert TakeUntil([sep] + x, '#') == [sep] + TakeUntil(x, '#');
      assert h == u + ([sep] + TakeUntil(x, '#'));
      TakeUntilAppend(u, [sep] + TakeUntil(x, '#'), '?');
      assert u + [] == u;
    }
  }

  lemma WithoutQueryOfPlain(u: string)
    requires '?' !in u && '#' !in u
    ensures WithoutQuery(u) == u
  {
    TakeUntilAppend(u, [], '#');
    TakeUntilAppend(u, [], '?');
    assert u + [] == u;
  }

  /** What follows the first '?' or '#' of a trimmed URL does not matter. */
  lemma QueryAndFragmentIgnored(u: string, sep: char, tail: string)
    requires sep == '?' || sep == '#'
    requires '?' !in u && '#' !in u && Trimmed(u)
    ensures NormalizeDetailUrl(u + [sep] + tail) == NormalizeDetailUrl(u)
  {
    StripKeepsHead(u, sep, tail);
    var x :| Strip(u + [sep] + tail) == u + [sep] + x;
    WithoutQueryOfHead(u, sep, x);
    StripTrimmed(u);
    WithoutQueryOfPlain(u);
  }

  lemma SchemeOf(sc: string, rest: string)
    requires ValidScheme(sc)
    ensures SplitScheme(sc + ":" + rest) == (sc, rest)
  {
    var s := sc + ":" + rest;
    assert s == sc + (":" + rest);
    TakeUntilAppend(sc, ":" + rest, ':');
    assert TakeUntil(":" + rest, ':') == [];
    assert sc + [] == sc;
    assert s[..|sc|] == sc;
    LowerIdentity(sc);
    assert s[|sc| + 1..] == rest;
  }

  /** Splitting a joined URL that has an authority gives back its parts. */
  lemma SplitUnsplit(q: UrlParts)
    requires q.scheme == [] || ValidScheme(q.scheme)
    requires q.netloc != [] && '/' !in q.netloc
    requires q.path == [] || q.path[0] == '/'
    ensures SplitUrl(Unsplit(q)) == q
  {
    var rest := "//" + q.netloc + q.path;
    assert Unsplit(q) == (if q.scheme != [] then q.scheme + ":" else "") + rest;
    if q.scheme != [] {
      SchemeOf(q.scheme, rest);
    } else {
      assert Unsplit(q) == rest;
      assert rest[0] == '/';
    }
    AuthorityOf(q.netloc, q.path);
  }

  lemma AuthorityOf(netloc: string, path: string)
    requires '/' !in netloc
    requires path == [] || path[0] == '/'
    ensures SplitAuthority("//" + netloc + path) == (netloc, path)
  {
    var rest := "//" + netloc + path;
    assert rest[..2] == "//";
    assert rest[2..] == netloc + path;
    TakeUntilAppend(netloc, path, '/');
    assert TakeUntil(path, '/') == [];
    assert netloc + [] == netloc;
    assert rest[2 + |netloc|..] == path;
  }

  lemma RStripCharNoop(s: string, c: char)
    requires s == [] || s[|s| - 1] != c
    ensures RStripChar(s, c) == s
  {
  }

  /** The parts `urlsplit` produces for a URL with an authority. */
  predicate WellFormed(q: UrlParts) {
    (q.scheme == [] || ValidScheme(q.scheme))
    && q.netloc != [] && '/' !in q.netloc
    && (q.path == [] || q.path[0] == '/')
  }

  predicate NoQueryChars(q: UrlParts) {
    '?' !in q.scheme && '#' !in q.scheme && '?' !in q.netloc && '#' !in q.netloc
    && '?' !in q.path && '#' !in q.path
  }

  lemma UnsplitNoQuery(q: UrlParts)
    requires NoQueryChars(q)
    ensures '?' !in Unsplit(q) && '#' !in Unsplit(q)
  {
    var head := if q.scheme != [] then q.scheme + ":" else "";
    var last := if q.path != [] && q.path[0] != '/' then "/" + q.path else q.path;
    var tail := if q.netloc != [] then "//" + q.netloc + last else q.path;
    assert Unsplit(q) == head + tail;
  }

  /** Normalising a joined URL with an authority keeps its scheme and authority and
      strips the trailing '/' characters of its path. */
  lemma NormalizeJoined(q: UrlParts)
    requires WellFormed(q) && NoQueryChars(q) && Trimmed(Unsplit(q))
    ensures NormalizeDetailUrl(Unsplit(q)) == Unsplit(q.(path := RStripChar(q.path, '/')))
  {
    StripTrimmed(Unsplit(q));
    UnsplitNoQuery(q);
    WithoutQueryOfPlain(Unsplit(q));
    SplitUnsplit(q);
  }

  /** Normalising twice changes nothing, provided the first result has an authority
      and does not end with whitespace. */
  lemma NormalizeIdempotent(url: string)
    requires SplitUrl(WithoutQuery(Strip(url))).netloc != []
    requires Trimmed(NormalizeDetailUrl(url))
    ensures NormalizeDetailUrl(NormalizeDetailUrl(url)) == NormalizeDetailUrl(url)
  {
    var b := WithoutQuery(Strip(url));
    var p := SplitUrl(b);
    var q := p.(path := RStripChar(p.path, '/'));
    assert Unsplit(q) == NormalizeDetailUrl(url);
    SplitUrlParts(b);
    assert forall c :: c in q.path ==> c in p.path;
    NormalizeJoined(q);
    RStripCharNoop(q.path, '/');
    assert q.(path := RStripChar(q.path, '/')) == q;
  }

  /** The side condition of `NormalizeIdempotent` is needed: whitespace in front of
      the removed trailing '/' is left behind by the first call and removed by the
      second. */
  lemma SlashPathNormalized()
    ensures NormalizeDetailUrl("https://x/y/") == Unsplit(UrlParts("https", "x", RStripChar("/y/", '/')))
  {
    var q := UrlParts("https", "x", "/y/");
    assert WellFormed(q) && NoQueryChars(q);
    assert Unsplit(q) == "https://x/y/";
    assert Trimmed(Unsplit(q));
    NormalizeJoined(q);
  }

  lemma SlashPathJoined()
    ensures Unsplit(UrlParts("https", "x", RStripChar("/y/", '/'))) == "https://x/y"
  {
    assert RStripChar("/y/", '/') == "/y";
    assert Unsplit(UrlParts("https", "x", "/y")) == "https://x/y";
  }

  lemma TrailingSlashExample()
    ensures NormalizeDetailUrl("https://x/y/") == "https://x/y"
  {
    SlashPathNormalized();
    SlashPathJoined();
  }

  lemma PlainPathNormalized()
    ensures NormalizeDetailUrl("https://x/y") == Unsplit(UrlParts("https", "x", RStripChar("/y", '/')))
  {
    var q := UrlParts("https", "x", "/y");
    assert WellFormed(q) && NoQueryChars(q);
    assert Unsplit(q) == "https://x/y";
    assert Trimmed(Unsplit(q));
    NormalizeJoined(q);
  }

  lemma PlainPathJoined()
    ensures Unsplit(UrlParts("https", "x", RStripChar("/y", '/'))) == "https://x/y"
  {
    assert RStripChar("/y", '/') == "/y";
    assert Unsplit(UrlParts("https", "x", "/y")) == "https://x/y";
  }

  lemma QueryDropped()
    ensures NormalizeDetailUrl("https://x/y?ajax=") == NormalizeDetailUrl("https://x/y")
  {
    assert "https://x/y?ajax=" == "https://x/y" + ['?'] + "ajax=";
    assert Trimmed("https://x/y");
    QueryAndFragmentIgnored("https://x/y", '?', "ajax=");
  }

  lemma QueryExample()
    ensures NormalizeDetailUrl("https://x/y?ajax=") == "https://x/y"
  {
    QueryDropped();
    PlainPathNormalized();
    PlainPathJoined();
  }

  lemma InnerSpaceNormalized()
    ensures NormalizeDetailUrl("https://x/a /") == Unsplit(UrlParts("https", "x", RStripChar("/a /", '/')))
  {
    var q := UrlParts("https", "x", "/a /");
    assert WellFormed(q) && NoQueryChars(q);
    assert Unsplit(q) == "https://x/a /";
    assert Trimmed(Unsplit(q));
    NormalizeJoined(q);
  }

  lemma InnerSpaceJoined()
    ensures Unsplit(UrlParts("https", "x", RStripChar("/a /", '/'))) == "https://x/a "
  {
    assert RStripChar("/a /", '/') == "/a ";
    assert Unsplit(UrlParts("https", "x", "/a ")) == "https://x/a ";
  }

  lemma InnerSpaceStripped()
    ensures NormalizeDetailUrl("https://x/a ") == NormalizeDetailUrl("https://x/a")
  {
    TrailingSpaceStripped();
    SameStripSameKey("https://x/a ", "https://x/a");
  }

  lemma TrailingSpaceStripped()
    ensures Strip("https://x/a ") == Strip("https://x/a")
  {
    var o := "https://x/a ";
    var t := "https://x/a";
    assert o[..|o| - 1] == t;
    assert IsSpace(o[|o| - 1]);
    assert RStrip(o) == RStrip(t);
  }

  lemma SameStripSameKey(u: string, v: string)
    requires Strip(u) == Strip(v)
    ensures NormalizeDetailUrl(u) == NormalizeDetailUrl(v)
  {
  }

  lemma InnerSpaceTrimmedNormalized()
    ensures NormalizeDetailUrl("https://x/a") == Unsplit(UrlParts("https", "x", RStripChar("/a", '/')))
  {
    var q := UrlParts("https", "x", "/a");
    assert WellFormed(q) && NoQueryChars(q);
    assert Unsplit(q) == "https://x/a";
    assert Trimmed(Unsplit(q));
    NormalizeJoined(q);
  }

  lemma InnerSpaceTrimmedJoined()
    ensures Unsplit(UrlParts("https", "x", RStripChar("/a", '/'))) == "https://x/a"
  {
    assert RStripChar("/a", '/') == "/a";
    assert Unsplit(UrlParts("https", "x", "/a")) == "https://x/a";
  }

  /** The side condition of `NormalizeIdempotent` is needed: whitespace in front of
      the removed trailing '/' is left behind by the first call and removed by the
      second. */
  lemma NotIdempotentOnInnerSpace()
    ensures NormalizeDetailUrl("https://x/a /") == "https://x/a "
    ensures NormalizeDetailUrl("https://x/a ") == "https://x/a"
  {
    InnerSpaceNormalized();
    InnerSpaceJoined();
    InnerSpaceStripped();
    InnerSpaceTrimmedNormalized();
    InnerSpaceTrimmedJoined();
  }
}
