/** Character and string helpers shared by the scraper, the retry script and the exporter.

    Python's str methods are modelled on `seq<char>`:
    - `str.isspace` is modelled exactly (the 29 code points Python calls whitespace);
    - `str.lower` is modelled for ASCII letters only;
    - `str.strip`, `str.rstrip(c)`, `str.split()` and `" ".join(...)` are modelled exactly
      over those two. */
module Text {

  /** The code points for which Python's `str.isspace()` is true. */
  predicate IsSpace(c: char) {
    c == ' ' || ('\t' <= c <= '\r') || ('\U{1c}' <= c <= '\U{1f}')
    || c == '\U{85}' || c == '\U{a0}' || c == '\U{1680}'
    || ('\U{2000}' <= c <= '\U{200a}') || c == '\U{2028}' || c == '\U{2029}'
    || c == '\U{202f}' || c == '\U{205f}' || c == '\U{3000}'
  }

  predicate IsDigit(c: char) { '0' <= c <= '9' }

  predicate IsUpper(c: char) { 'A' <= c <= 'Z' }

  predicate IsLetter(c: char) { 'a' <= c <= 'z' || 'A' <= c <= 'Z' }

  /** A character matched by the regular-expression class `\w` (ASCII part). */
  predicate IsWordChar(c: char) { IsLetter(c) || IsDigit(c) || c == '_' }

  function LowerChar(c: char): char {
    if IsUpper(c) then (c as int + 32) as char else c
  }

  /** `str.lower()` restricted to ASCII letters. */
  function Lower(s: string): (r: string)
    ensures |r| == |s|
    ensures forall i :: 0 <= i < |s| ==> r[i] == LowerChar(s[i])
  {
    seq(|s|, i requires 0 <= i < |s| => LowerChar(s[i]))
  }

  ghost predicate NoUpper(s: string) {
    forall i :: 0 <= i < |s| ==> !IsUpper(s[i])
  }

  ghost predicate NoSpace(s: string) {
    forall i :: 0 <= i < |s| ==> !IsSpace(s[i])
  }

  /** No whitespace at either end. */
  ghost predicate Trimmed(s: string) {
    s == [] || (!IsSpace(s[0]) && !IsSpace(s[|s| - 1]))
  }

  /** The only whitespace is a single ' ' between two non-space characters. */
  ghost predicate SingleSpaced(s: string) {
    forall i :: 0 <= i < |s| && IsSpace(s[i]) ==> s[i] == ' ' && i + 1 < |s| && !IsSpace(s[i + 1])
  }

  lemma LowerKeepsNoUpper(s: string)
    ensures NoUpper(Lower(s))
  {
  }

  lemma LowerIdentity(s: string)
    requires NoUpper(s)
    ensures Lower(s) == s
  {
  }

  /** `str.lstrip()`. */
  function LStrip(s: string): (r: string)
    ensures |r| <= |s| && r == s[|s| - |r|..]
    ensures r == [] || !IsSpace(r[0])
    ensures forall i :: 0 <= i < |s| - |r| ==> IsSpace(s[i])
  {
    if s != [] && IsSpace(s[0]) then LStrip(s[1..]) else s
  }

  /** `str.rstrip()`. */
  function RStrip(s: string): (r: string)
    ensures |r| <= |s| && r == s[..|r|]
    ensures r == [] || !IsSpace(r[|r| - 1])
    ensures forall i :: |r| <= i < |s| ==> IsSpace(s[i])
  {
    if s != [] && IsSpace(s[|s| - 1]) then RStrip(s[..|s| - 1]) else s
  }

  /** `r` is the part of `s` from `a` on, with only blanks before and after it. */
  ghost predicate StrippedAt(s: string, r: string, a: nat)
  {
    a + |r| <= |s| && r == s[a..a + |r|]
    && (forall i :: 0 <= i < a ==> IsSpace(s[i]))
    && (forall i :: a + |r| <= i < |s| ==> IsSpace(s[i]))
  }

  /** `str.strip()`. */
  function Strip(s: string): (r: string)
    ensures Trimmed(r)
  {
    LStrip(RStrip(s))
  }

  /** Stripping cuts a slice out of `s` by removing blanks only, on either side. */
  lemma StripSlice(s: string)
    ensures exists a :: StrippedAt(s, Strip(s), a)
  {
    var t := RStrip(s);
    var r := LStrip(t);
    var a := |t| - |r|;
    assert Strip(s) == r;
    assert r == t[a..] && t == s[..|t|];
    assert r == s[a..a + |r|];
    assert forall i :: 0 <= i < a ==> s[i] == t[i];
    assert StrippedAt(s, r, a);
  }

  lemma StripTrimmed(s: string)
    requires Trimmed(s)
    ensures Strip(s) == s
  {
  }

  /** `str.rstrip(c)` for a single character `c`. */
  function RStripChar(s: string, c: char): (r: string)
    ensures |r| <= |s| && r == s[..|r|]
    ensures r == [] || r[|r| - 1] != c
    ensures forall i :: |r| <= i < |s| ==> s[i] == c
  {
    if s != [] && s[|s| - 1] == c then RStripChar(s[..|s| - 1], c) else s
  }

  /** The part of `s` before the first occurrence of `c` (all of `s` when `c` does not occur). */
  function TakeUntil(s: string, c: char): (r: string)
    ensures |r| <= |s| && r == s[..|r|]
    ensures c !in r
    ensures |r| < |s| ==> s[|r|] == c
  {
    if s == [] || s[0] == c then [] else [s[0]] + TakeUntil(s[1..], c)
  }

  lemma {:induction false} TakeUntilAppend(s: string, t: string, c: char)
    ensures c in s ==> TakeUntil(s + t, c) == TakeUntil(s, c)
    ensures c !in s ==> TakeUntil(s + t, c) == s + TakeUntil(t, c)
  {
    if s != [] {
      assert (s + t)[0] == s[0];
      assert (s + t)[1..] == s[1..] + t;
      TakeUntilAppend(s[1..], t, c);
      if c !in s {
        assert c !in s[1..];
        assert s[0] != c;
        assert TakeUntil(s + t, c) == [s[0]] + TakeUntil(s[1..] + t, c);
        assert s == [s[0]] + s[1..];
        assert [s[0]] + (s[1..] + TakeUntil(t, c)) == s + TakeUntil(t, c);
      } else if s[0] != c {
        assert c in s[1..];
      }
    } else {
      assert s + t == t && s + TakeUntil(t, c) == TakeUntil(t, c);
    }
  }

  predicate IsPrefix(p: string, s: string) {
    |p| <= |s| && s[..|p|] == p
  }

  /** Python's `sub in s`. */
  predicate Contains(s: string, sub: string)
    decreases |s|
  {
    IsPrefix(sub, s) || (s != [] && Contains(s[1..], sub))
  }

  /** Length of the longest prefix of `s` without whitespace. */
  function WordLen(s: string): (n: nat)
    ensures n <= |s|
    ensures forall i :: 0 <= i < n ==> !IsSpace(s[i])
    ensures n < |s| ==> IsSpace(s[n])
  {
    if s == [] || IsSpace(s[0]) then 0 else 1 + WordLen(s[1..])
  }

  /** `str.split()` with no separator: the maximal runs of non-whitespace. */
  function Words(s: string): (ws: seq<string>)
    ensures forall w :: w in ws ==> w != [] && NoSpace(w)
    decreases |s|
  {
    var t := LStrip(s);
    if t == [] then []
    else
      var n := WordLen(t);
      var w := t[..n];
      assert NoSpace(w) by {
        forall i | 0 <= i < |w| ensures !IsSpace(w[i]) {
          assert w[i] == t[i];
        }
      }
      [w] + Words(t[n..])
  }

  lemma SuffixNoUpper(s: string, k: nat)
    requires k <= |s|
    ensures NoUpper(s) ==> NoUpper(s[k..])
  {
    if NoUpper(s) {
      forall i | 0 <= i < |s| - k ensures !IsUpper(s[k..][i]) {
        assert s[k..][i] == s[k + i];
      }
    }
  }

  /** Splitting text without upper-case letters yields words without them. */
  lemma {:induction false} WordsNoUpper(s: string)
    requires NoUpper(s)
    ensures forall w :: w in Words(s) ==> NoUpper(w)
    decreases |s|
  {
    var t := LStrip(s);
    if t != [] {
      var n := WordLen(t);
      SuffixNoUpper(s, |s| - |t|);
      assert NoUpper(t);
      assert t[n..] == s[|s| - |t| + n..];
      SuffixNoUpper(s, |s| - |t| + n);
      WordsNoUpper(t[n..]);
      var w := t[..n];
      forall i | 0 <= i < |w| ensures !IsUpper(w[i]) {
        assert w[i] == t[i];
      }
      assert Words(s) == [w] + Words(t[n..]);
    }
  }

  /** `" ".join(ws)`. */
  function Join(ws: seq<string>): string
  {
    if ws == [] then ""
    else if |ws| == 1 then ws[0]
    else ws[0] + " " + Join(ws[1..])
  }

  lemma {:induction false} JoinShape(ws: seq<string>)
    requires forall w :: w in ws ==> w != [] && NoSpace(w)
    ensures Trimmed(Join(ws)) && SingleSpaced(Join(ws))
    ensures (forall w :: w in ws ==> NoUpper(w)) ==> NoUpper(Join(ws))
    ensures ws != [] ==> Join(ws) != []
  {
    if |ws| == 1 {
      assert ws[0] in ws;
    } else if |ws| > 1 {
      assert forall w :: w in ws[1..] ==> w in ws;
      JoinShape(ws[1..]);
      var w, rest := ws[0], Join(ws[1..]);
      assert w in ws;
      var r := w + " " + rest;
      assert Join(ws) == r;
      assert forall i :: 0 <= i < |w| ==> r[i] == w[i];
      forall i | 0 <= i < |r| && IsSpace(r[i])
        ensures r[i] == ' ' && i + 1 < |r| && !IsSpace(r[i + 1])
      {
        if i == |w| {
          assert r[i + 1] == rest[0];
        } else {
          assert r[i] == rest[i - |w| - 1];
          assert i + 1 < |r| ==> r[i + 1] == rest[i - |w|];
        }
      }
      if forall w' :: w' in ws ==> NoUpper(w') {
        forall i | 0 <= i < |r| ensures !IsUpper(r[i]) {
          if i < |w| {
            assert r[i] == w[i];
          } else if i > |w| {
            assert r[i] == rest[i - |w| - 1];
          }
        }
      }
    }
  }

  lemma WordThenSpace(w: string, rest: string)
    requires w != [] && NoSpace(w)
    ensures Words(w + " " + rest) == [w] + Words(rest)
  {
    var j := w + " " + rest;
    assert j[0] == w[0];
    assert LStrip(j) == j;
    assert j[|w|] == ' ';
    assert WordLen(j) == |w|;
    assert j[..|w|] == w;
    assert j[|w|..] == " " + rest;
    assert (" " + rest)[1..] == rest;
    assert Words(" " + rest) == Words(rest);
  }

  lemma SingleWord(w: string)
    requires w != [] && NoSpace(w)
    ensures Words(w) == [w]
  {
    assert LStrip(w) == w;
    assert WordLen(w) == |w|;
    assert w[|w|..] == [] && w[..|w|] == w;
    assert Words(w[|w|..]) == [];
  }

  lemma {:induction false} WordsOfJoin(ws: seq<string>)
    requires forall w :: w in ws ==> w != [] && NoSpace(w)
    ensures Words(Join(ws)) == ws
  {
    if ws == [] {
    } else if |ws| == 1 {
      assert ws[0] in ws;
      SingleWord(ws[0]);
    } else {
      assert ws[0] in ws;
      assert Join(ws) == ws[0] + " " + Join(ws[1..]);
      WordThenSpace(ws[0], Join(ws[1..]));
      assert forall w' :: w' in ws[1..] ==> w' in ws;
      WordsOfJoin(ws[1..]);
    }
  }

  lemma JoinStripped(ws: seq<string>)
    requires forall w :: w in ws ==> w != [] && NoSpace(w)
    ensures Strip(Join(ws)) == Join(ws)
  {
    JoinShape(ws);
    StripTrimmed(Join(ws));
  }

  lemma JoinLowered(ws: seq<string>)
    requires forall w :: w in ws ==> w != [] && NoSpace(w) && NoUpper(w)
    ensures Lower(Join(ws)) == Join(ws)
  {
    JoinShape(ws);
    LowerIdentity(Join(ws));
  }
}
