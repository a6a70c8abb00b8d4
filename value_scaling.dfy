/** `multiply_value_numbers`: every number in a spec value is multiplied by the
    chip count of a multi-chip board.

    A number token starts at a digit: up to three leading digits, then any number of
    ",ddd" groups, then an optional ".d+" fraction. Integer tokens are multiplied
    exactly and written with ',' thousands separators; tokens with a fraction go
    through floating point, which is the parameter `scaleDecimal` here. */
module ValueScaling {
  import opened Text

  /** Length of the run of digits at the start of `s`. */
  function DigitRun(s: string): (n: nat)
    ensures n <= |s|
    ensures forall i :: 0 <= i < n ==> IsDigit(s[i])
    ensures n < |s| ==> !IsDigit(s[n])
  {
    if s != [] && IsDigit(s[0]) then 1 + DigitRun(s[1..]) else 0
  }

  /** Length of the greedy run of ",ddd" groups at the start of `s`. */
  function GroupsLen(s: string): (n: nat)
    ensures n <= |s|
  {
    if |s| >= 4 && s[0] == ',' && IsDigit(s[1]) && IsDigit(s[2]) && IsDigit(s[3])
    then 4 + GroupsLen(s[4..]) else 0
  }

  /** Length of the optional ".d+" fraction at the start of `s`. */
  function FracLen(s: string): (n: nat)
    ensures n <= |s|
    ensures n == 0 || s[0] == '.'
  {
    if |s| >= 2 && s[0] == '.' && IsDigit(s[1]) then 1 + DigitRun(s[1..]) else 0
  }

  /** Length of the token made of `lead` leading digits, then `groups` characters of
      ",ddd" groups, then the fraction. */
  function TokenLen(s: string, lead: nat, groups: nat): (n: nat)
    requires lead + groups <= |s|
    ensures lead + groups <= n <= |s|
  {
    lead + groups + FracLen(s[lead + groups..])
  }

  function DigitValue(c: char): nat
  {
    if IsDigit(c) then c as int - '0' as int else 0
  }

  /** The value of a string of decimal digits. */
  function Value(ds: string): nat
  {
    if ds == [] then 0 else Value(ds[..|ds| - 1]) * 10 + DigitValue(ds[|ds| - 1])
  }

  function RemoveCommas(s: string): (r: string)
    ensures ',' !in r
    ensures forall c :: c in r ==> c in s
  {
    if s == [] then []
    else if s[|s| - 1] == ',' then RemoveCommas(s[..|s| - 1])
    else RemoveCommas(s[..|s| - 1]) + [s[|s| - 1]]
  }

  function DigitChar(d: nat): char
    requires d < 10
  {
    ('0' as int + d) as char
  }

  /** `str(n)` for a natural number. */
  function Decimal(n: nat): (r: string)
    ensures r != [] && forall i :: 0 <= i < |r| ==> IsDigit(r[i])
    ensures (n < 10 ==> |r| == 1) && (n < 100 ==> |r| <= 2) && (n < 1000 ==> |r| <= 3)
    ensures (n >= 10 ==> |r| >= 2) && (n >= 100 ==> |r| >= 3) && (n >= 1000 ==> |r| >= 4)
  {
    if n < 10 then [DigitChar(n)] else Decimal(n / 10) + [DigitChar(n % 10)]
  }

  /** A number below 1000 written with exactly three digits. */
  function Pad3(k: nat): (r: string)
    requires k < 1000
    ensures |r| == 3 && forall i :: 0 <= i < 3 ==> IsDigit(r[i])
  {
    [DigitChar(k / 100), DigitChar(k / 10 % 10), DigitChar(k % 10)]
  }

  /** `f"{n:,}"` for a natural number: digits in groups of three separated by ','. */
  function FormatThousands(n: nat): (r: string)
    ensures r != [] && IsDigit(r[0])
  {
    if n < 1000 then Decimal(n)
    else
      var h := FormatThousands(n / 1000);
      assert (h + "," + Pad3(n % 1000))[0] == h[0];
      h + "," + Pad3(n % 1000)
  }

  /** `f"{z:,}"` for any integer. */
  function FormatInt(z: int): string
  {
    if z < 0 then "-" + FormatThousands(-z) else FormatThousands(z)
  }

  /** The replacement text of one matched token. */
  function ScaleToken(tok: string, m: int, scaleDecimal: (string, int) -> string): string
  {
    var plain := RemoveCommas(tok);
    if '.' in plain then scaleDecimal(plain, m) else FormatInt(Value(plain) * m)
  }

  function Min(a: nat, b: nat): nat { if a < b then a else b }

  /** `multiply_value_numbers` as written: the pattern's first alternative
      `\d{1,3}(?:,\d{3})*(?:\.\d+)?` matches at every digit, so a token never has
      more than three leading digits and the second alternative `\d+(?:\.\d+)?`
      is never used. */
  function MultiplyValueNumbersAsWritten(s: string, m: int, scaleDecimal: (string, int) -> string): string
    decreases |s|
  {
    if s == [] then []
    else if !IsDigit(s[0]) then [s[0]] + MultiplyValueNumbersAsWritten(s[1..], m, scaleDecimal)
    else
      var lead := Min(3, DigitRun(s));
      var n := TokenLen(s, lead, GroupsLen(s[lead..]));
      ScaleToken(s[..n], m, scaleDecimal) + MultiplyValueNumbersAsWritten(s[n..], m, scaleDecimal)
  }

  /** `multiply_value_numbers` with the pattern
      `\d{1,3}(?:,\d{3})+(?:\.\d+)?|\d+(?:\.\d+)?`: ",ddd" groups only follow a run
      of at most three digits, and otherwise the whole run of digits is one token. */
  function MultiplyValueNumbers(s: string, m: int, scaleDecimal: (string, int) -> string): string
    decreases |s|
  {
    if s == [] then []
    else if !IsDigit(s[0]) then [s[0]] + MultiplyValueNumbers(s[1..], m, scaleDecimal)
    else
      var run := DigitRun(s);
      var n := TokenLen(s, run, if run <= 3 then GroupsLen(s[run..]) else 0);
      ScaleToken(s[..n], m, scaleDecimal) + MultiplyValueNumbers(s[n..], m, scaleDecimal)
  }

  ghost predicate NoDigit(s: string) {
    forall i :: 0 <= i < |s| ==> !IsDigit(s[i])
  }

  /** Text without digits is left alone, by both versions. */
  lemma {:induction false} NoDigitsUnchanged(s: string, m: int, scaleDecimal: (string, int) -> string)
    requires NoDigit(s)
    ensures MultiplyValueNumbers(s, m, scaleDecimal) == s
    ensures MultiplyValueNumbersAsWritten(s, m, scaleDecimal) == s
  {
    if s != [] {
      NoDigitsUnchanged(s[1..], m, scaleDecimal);
      assert s == [s[0]] + s[1..];
    }
  }

  /** What may follow a number without becoming part of its token. */
  predicate Boundary(rest: string) {
    (rest == [] || !IsDigit(rest[0])) && GroupsLen(rest) == 0 && FracLen(rest) == 0
  }

  lemma ValueAppendDigit(a: string, c: char)
    ensures Value(a + [c]) == Value(a) * 10 + DigitValue(c)
  {
    assert (a + [c])[..|a|] == a;
  }

  lemma ValueAppend3(a: string, k: nat)
    requires k < 1000
    ensures Value(a + Pad3(k)) == Value(a) * 1000 + k
  {
    var p := Pad3(k);
    assert a + p == a + [p[0]] + [p[1]] + [p[2]];
    ValueAppendDigit(a, p[0]);
    ValueAppendDigit(a + [p[0]], p[1]);
    ValueAppendDigit(a + [p[0]] + [p[1]], p[2]);
  }

  lemma {:induction false} ValueDecimal(n: nat)
    ensures Value(Decimal(n)) == n
  {
    if n >= 10 {
      ValueDecimal(n / 10);
      ValueAppendDigit(Decimal(n / 10), DigitChar(n % 10));
    } else {
      assert Decimal(n)[..0] == [];
    }
  }

  lemma {:induction false} RemoveCommasAppend(a: string, b: string)
    ensures RemoveCommas(a + b) == RemoveCommas(a) + RemoveCommas(b)
    decreases |b|
  {
    if b == [] {
      assert a + b == a;
    } else {
      var b' := b[..|b| - 1];
      assert (a + b)[..|a + b| - 1] == a + b';
      RemoveCommasAppend(a, b');
    }
  }

  lemma {:induction false} RemoveCommasNoComma(s: string)
    requires ',' !in s
    ensures RemoveCommas(s) == s
  {
    if s != [] {
      RemoveCommasNoComma(s[..|s| - 1]);
      assert s[..|s| - 1] + [s[|s| - 1]] == s;
    }
  }

  lemma GroupThen(k: nat, rest: string)
    requires k < 1000
    ensures GroupsLen("," + Pad3(k) + rest) == 4 + GroupsLen(rest)
  {
    var g := "," + Pad3(k) + rest;
    assert g[4..] == rest;
  }

  lemma DigitsThen(ds: string, rest: string)
    requires forall i :: 0 <= i < |ds| ==> IsDigit(ds[i])
    requires rest == [] || !IsDigit(rest[0])
    ensures DigitRun(ds + rest) == |ds|
  {
    var s := ds + rest;
    assert forall i :: 0 <= i < |ds| ==> s[i] == ds[i];
    assert |ds| < |s| ==> s[|ds|] == rest[0];
  }

  /** How a comma-formatted number followed by a non-digit is scanned: at most three
      leading digits, then ",ddd" groups up to the end of the number. */
  lemma {:induction false} ScanFormatted(n: nat, rest: string)
    requires rest == [] || !IsDigit(rest[0])
    ensures var s := FormatThousands(n) + rest; var run := DigitRun(s);
      run <= 3 && run <= |FormatThousands(n)|
      && GroupsLen(s[run..]) == |FormatThousands(n)| - run + GroupsLen(rest)
  {
    var f := FormatThousands(n);
    var s := f + rest;
    if n < 1000 {
      DigitsThen(f, rest);
      assert s[|f|..] == rest;
    } else {
      var q, k := n / 1000, n % 1000;
      var h := FormatThousands(q);
      var g := "," + Pad3(k);
      var t := g + rest;
      assert f == h + g;
      assert s == h + t;
      assert t[0] == ',';
      ScanFormatted(q, t);
      GroupThen(k, rest);
      assert t == "," + Pad3(k) + rest;
    }
  }

  /** Without its commas, a comma-formatted number is the decimal digits of its value. */
  lemma {:induction false} FormattedValue(n: nat)
    ensures var plain := RemoveCommas(FormatThousands(n));
      Value(plain) == n && forall i :: 0 <= i < |plain| ==> IsDigit(plain[i])
  {
    var f := FormatThousands(n);
    if n < 1000 {
      RemoveCommasNoComma(f);
      ValueDecimal(n);
    } else {
      var q, k := n / 1000, n % 1000;
      var h := FormatThousands(q);
      assert f == h + "," + Pad3(k);
      FormattedValue(q);
      RemoveCommasGroup(h, k);
      var a := RemoveCommas(h);
      ValueAppend3(a, k);
      var plain := a + Pad3(k);
      forall i | 0 <= i < |plain| ensures IsDigit(plain[i]) {
        if i < |a| {
          assert plain[i] == a[i];
        } else {
          assert plain[i] == Pad3(k)[i - |a|];
        }
      }
    }
  }

  lemma RemoveCommasGroup(h: string, k: nat)
    requires k < 1000
    ensures RemoveCommas(h + "," + Pad3(k)) == RemoveCommas(h) + Pad3(k)
  {
    RemoveCommasAppend(h + ",", Pad3(k));
    RemoveCommasAppend(h, ",");
    assert RemoveCommas(",") == [] by {
      assert ","[..0] == [];
    }
    assert RemoveCommas(h + ",") == RemoveCommas(h);
    RemoveCommasNoComma(Pad3(k));
  }

  /** A comma-formatted integer followed by a boundary is multiplied as a whole, and
      the text after it is processed on its own (both versions agree here). */
  lemma ScalesFormattedInteger(n: nat, m: int, rest: string, scaleDecimal: (string, int) -> string)
    requires Boundary(rest)
    ensures MultiplyValueNumbers(FormatThousands(n) + rest, m, scaleDecimal)
      == FormatInt(n * m) + MultiplyValueNumbers(rest, m, scaleDecimal)
    ensures MultiplyValueNumbersAsWritten(FormatThousands(n) + rest, m, scaleDecimal)
      == FormatInt(n * m) + MultiplyValueNumbersAsWritten(rest, m, scaleDecimal)
  {
    var f := FormatThousands(n);
    var s := f + rest;
    ScanFormatted(n, rest);
    FormattedValue(n);
    var run := DigitRun(s);
    assert IsDigit(s[0]);
    var g := GroupsLen(s[run..]);
    assert run + g == |f|;
    assert s[|f|..] == rest;
    assert TokenLen(s, run, g) == |f|;
    assert s[..|f|] == f;
    var plain := RemoveCommas(f);
    assert '.' !in plain;
  }

  /** A plain run of digits followed by a boundary is multiplied as a whole by the
      intended pattern. */
  lemma ScalesPlainInteger(n: nat, m: int, rest: string, scaleDecimal: (string, int) -> string)
    requires Boundary(rest)
    ensures MultiplyValueNumbers(Decimal(n) + rest, m, scaleDecimal)
      == FormatInt(n * m) + MultiplyValueNumbers(rest, m, scaleDecimal)
  {
    var d := Decimal(n);
    var s := d + rest;
    PlainToken(d, rest);
    RemoveCommasNoComma(d);
    ValueDecimal(n);
    assert '.' !in d;
  }

  lemma PlainToken(d: string, rest: string)
    requires d != [] && forall i :: 0 <= i < |d| ==> IsDigit(d[i])
    requires Boundary(rest)
    ensures var s := d + rest; var run := DigitRun(s);
      run == |d| && TokenLen(s, run, if run <= 3 then GroupsLen(s[run..]) else 0) == |d|
      && s[..|d|] == d && s[|d|..] == rest
  {
    var s := d + rest;
    DigitsThen(d, rest);
    assert s[|d|..] == rest;
  }

  lemma Decimal4096()
    ensures Decimal(4096) == "4096"
  {
    assert Decimal(4) == "4";
    assert Decimal(40) == "40";
    assert Decimal(409) == "409";
  }

  lemma Format8192()
    ensures FormatInt(8192) == "8,192"
  {
    assert Decimal(8) == "8";
    assert Pad3(192) == "192";
  }

  /** The intended behaviour on a four-digit number: "4096" doubled is "8,192". */
  lemma FourDigitsScaled(scaleDecimal: (string, int) -> string)
    ensures MultiplyValueNumbers("4096", 2, scaleDecimal) == "8,192"
  {
    Decimal4096();
    assert Boundary([]);
    assert "4096" == Decimal(4096) + [];
    ScalesPlainInteger(4096, 2, [], scaleDecimal);
    Format8192();
  }

  /** As written, a run of more than three digits is cut after its third digit: the
      first three digits are scaled as one token and the rest of the text is scanned
      afresh. */
  lemma AsWrittenFirstChunk(s: string, m: int, scaleDecimal: (string, int) -> string)
    requires DigitRun(s) > 3
    ensures MultiplyValueNumbersAsWritten(s, m, scaleDecimal)
      == ScaleToken(s[..3], m, scaleDecimal) + MultiplyValueNumbersAsWritten(s[3..], m, scaleDecimal)
  {
    var t := s[3..];
    assert IsDigit(s[3]) && t[0] == s[3];
    assert GroupsLen(t) == 0 && FracLen(t) == 0;
  }

  /** A token of digits only is multiplied exactly. */
  lemma ScaleDigits(t: string, m: int, scaleDecimal: (string, int) -> string)
    requires forall i :: 0 <= i < |t| ==> IsDigit(t[i])
    ensures ScaleToken(t, m, scaleDecimal) == FormatInt(Value(t) * m)
  {
    assert ',' !in t && '.' !in t;
    RemoveCommasNoComma(t);
  }

  /** A single digit is one token, by either pattern. */
  lemma AsWrittenOneDigit(t: string, m: int, scaleDecimal: (string, int) -> string)
    requires |t| == 1 && IsDigit(t[0])
    ensures MultiplyValueNumbersAsWritten(t, m, scaleDecimal) == ScaleToken(t, m, scaleDecimal)
  {
    assert DigitRun(t) == 1 by {
      assert t[1..] == [];
    }
    assert t[..1] == t && t[1..] == [];
  }

  lemma Values409And6()
    ensures Value("409") == 409 && Value("6") == 6
  {
    assert Decimal(409) == "409";
    ValueDecimal(409);
    assert Decimal(6) == "6";
    ValueDecimal(6);
  }

  lemma Formats818And12()
    ensures FormatInt(818) == "818" && FormatInt(12) == "12"
  {
    assert Decimal(818) == "818";
    assert Decimal(12) == "12";
  }

  lemma HeadScaled(scaleDecimal: (string, int) -> string)
    ensures ScaleToken("4096"[..3], 2, scaleDecimal) == "818"
  {
    assert "4096"[..3] == "409";
    ScaleDigits("409", 2, scaleDecimal);
    Values409And6();
    Formats818And12();
  }

  lemma TailScaled(scaleDecimal: (string, int) -> string)
    ensures MultiplyValueNumbersAsWritten("4096"[3..], 2, scaleDecimal) == "12"
  {
    assert "4096"[3..] == "6";
    AsWrittenOneDigit("6", 2, scaleDecimal);
    ScaleDigits("6", 2, scaleDecimal);
    Values409And6();
    Formats818And12();
  }

  /** As written, "4096" doubled becomes "81812": "409" and "6" are doubled
      separately. */
  lemma FourDigitsSplitAsWritten(scaleDecimal: (string, int) -> string)
    ensures MultiplyValueNumbersAsWritten("4096", 2, scaleDecimal) == "81812"
  {
    AsWrittenFirstChunk("4096", 2, scaleDecimal);
    HeadScaled(scaleDecimal);
    TailScaled(scaleDecimal);
  }
}
