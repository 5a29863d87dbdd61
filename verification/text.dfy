/** String handling that the back end (Python) and the pages (JavaScript)
    rely on: whitespace stripping, lower-casing, substring search, the
    ordering of text columns, decimal numbers and ISO dates. Only the ASCII
    range is modelled. */
module Text {
  import opened Outcomes

  // ---------------------------------------------------------------------
  // Whitespace and Python's str.strip()
  // ---------------------------------------------------------------------

  /** Python's str.isspace() restricted to ASCII: tab, line feed, vertical
      tab, form feed, carriage return, the separators 0x1C-0x1F, space. */
  predicate IsSpace(c: char) {
    (9 <= c as int <= 13) || (28 <= c as int <= 32)
  }

  /** A string made of whitespace only; Python's `not s.strip()`. */
  predicate IsBlank(s: string) {
    forall i :: 0 <= i < |s| ==> IsSpace(s[i])
  }

  /** Drops leading whitespace. */
  function TrimStart(s: string): (r: string)
    ensures |r| <= |s| && r == s[|s| - |r|..]
    ensures r == [] || !IsSpace(r[0])
    ensures forall i :: 0 <= i < |s| - |r| ==> IsSpace(s[i])
    decreases |s|
  {
    if |s| > 0 && IsSpace(s[0]) then
      var r := TrimStart(s[1..]);
      assert s[1..][|s| - 1 - |r|..] == s[|s| - |r|..];
      assert forall i :: 1 <= i < |s| - |r| ==> s[i] == s[1..][i - 1];
      r
    else s
  }

  /** Drops trailing whitespace. */
  function TrimEnd(s: string): (r: string)
    ensures |r| <= |s| && r == s[..|r|]
    ensures r == [] || !IsSpace(r[|r| - 1])
    ensures forall i :: |r| <= i < |s| ==> IsSpace(s[i])
    decreases |s|
  {
    if |s| > 0 && IsSpace(s[|s| - 1]) then
      var r := TrimEnd(s[..|s| - 1]);
      assert s[..|s| - 1][..|r|] == s[..|r|];
      assert forall i :: |r| <= i < |s| - 1 ==> s[i] == s[..|s| - 1][i];
      r
    else s
  }

  /** Python's str.strip(): leading whitespace dropped, then trailing
      whitespace (so the result is a slice of the input with blank space on
      either side); it has no whitespace at either end, and
      it is empty exactly when the input is blank. */
  function Strip(s: string): (r: string)
    ensures r == TrimEnd(TrimStart(s))
    ensures |r| <= |s|
    ensures r == [] || (!IsSpace(r[0]) && !IsSpace(r[|r| - 1]))
    ensures r == [] <==> IsBlank(s)
  {
    StripBlank(s);
    TrimEnd(TrimStart(s))
  }

  /** Trimming both ends leaves nothing exactly when the input is blank,
      and otherwise leaves no whitespace at either end. */
  lemma StripBlank(s: string)
    ensures TrimEnd(TrimStart(s)) == [] <==> IsBlank(s)
    ensures var r := TrimEnd(TrimStart(s));
            r == [] || (!IsSpace(r[0]) && !IsSpace(r[|r| - 1]))
  {
    var t := TrimStart(s);
    var r := TrimEnd(t);
    if r != [] {
      assert r[0] == t[0];
    }
    if TrimEnd(t) == [] {
      assert t == [];
    }
    if IsBlank(s) {
      TrimStartBlank(s);
    }
  }

  lemma {:induction false} TrimStartBlank(s: string)
    requires IsBlank(s)
    ensures TrimStart(s) == []
    decreases |s|
  {
    if s != [] {
      assert IsBlank(s[1..]) by {
        forall i | 0 <= i < |s[1..]| ensures IsSpace(s[1..][i]) {
          assert s[1..][i] == s[i + 1];
        }
      }
      TrimStartBlank(s[1..]);
    }
  }

  /** A string with no whitespace at either end is its own strip. */
  lemma StripUnchanged(s: string)
    requires s == [] || (!IsSpace(s[0]) && !IsSpace(s[|s| - 1]))
    ensures Strip(s) == s
  {
    assert TrimStart(s) == s;
  }

  /** Stripping twice is stripping once. */
  lemma StripIdempotent(s: string)
    ensures Strip(Strip(s)) == Strip(s)
  {
    StripUnchanged(Strip(s));
  }

  // ---------------------------------------------------------------------
  // Case folding: Python's str.lower() and JavaScript's toLowerCase()
  // ---------------------------------------------------------------------

  function LowerChar(c: char): char {
    if 'A' <= c <= 'Z' then (c as int + 32) as char else c
  }

  predicate IsLower(s: string) {
    forall i :: 0 <= i < |s| ==> !('A' <= s[i] <= 'Z')
  }

  /** Lower-cases the ASCII letters; keeps the length. */
  function ToLower(s: string): (r: string)
    ensures |r| == |s| && IsLower(r)
    ensures forall i :: 0 <= i < |s| ==> LowerChar(r[i]) == LowerChar(s[i])
  {
    seq(|s|, i requires 0 <= i < |s| => LowerChar(s[i]))
  }

  /** Lower-casing is idempotent, so a lower-cased value is stored as is. */
  lemma ToLowerIdempotent(s: string)
    ensures ToLower(ToLower(s)) == ToLower(s)
  {
  }

  /** Two strings that differ only in the case of their letters lower-case
      to the same string. */
  lemma ToLowerIgnoresCase(a: string, b: string)
    requires |a| == |b|
    requires forall i :: 0 <= i < |a| ==> LowerChar(a[i]) == LowerChar(b[i])
    ensures ToLower(a) == ToLower(b)
  {
  }

  // ---------------------------------------------------------------------
  // Substring search: JavaScript's String.prototype.includes
  // ---------------------------------------------------------------------

  /** `pat` occurs in `text` starting at index `i`. */
  predicate OccursAt(text: string, pat: string, i: nat) {
    i + |pat| <= |text| && text[i..i + |pat|] == pat
  }

  /** text.includes(pat). */
  function Contains(text: string, pat: string): bool
    decreases |text|
  {
    pat <= text || (|text| > 0 && Contains(text[1..], pat))
  }

  /** Contains agrees with the definition by an occurrence index. */
  lemma {:induction false} ContainsIff(text: string, pat: string)
    ensures Contains(text, pat) <==> exists i: nat :: OccursAt(text, pat, i)
    decreases |text|
  {
    if pat <= text {
      assert text[0..|pat|] == pat;
      assert OccursAt(text, pat, 0);
    } else if |text| > 0 {
      ContainsIff(text[1..], pat);
      if Contains(text[1..], pat) {
        var i: nat :| OccursAt(text[1..], pat, i);
        assert text[i + 1..i + 1 + |pat|] == text[1..][i..i + |pat|];
        assert OccursAt(text, pat, i + 1);
      }
      if i: nat :| OccursAt(text, pat, i) {
        assert i != 0;
        assert text[1..][i - 1..i - 1 + |pat|] == text[i..i + |pat|];
        assert OccursAt(text[1..], pat, i - 1);
      }
    }
  }

  /** The empty pattern occurs in every text. */
  lemma ContainsEmpty(text: string)
    ensures Contains(text, "")
  {
  }

  // ---------------------------------------------------------------------
  // Ordering of text columns (ORDER BY on a character column, compared
  // character by character)
  // ---------------------------------------------------------------------

  /** Strict lexicographic order on strings. */
  predicate LexLess(a: string, b: string)
    decreases |a|
  {
    if |a| == 0 then |b| > 0
    else if |b| == 0 then false
    else if a[0] != b[0] then a[0] < b[0]
    else LexLess(a[1..], b[1..])
  }

  predicate LexLe(a: string, b: string) {
    a == b || LexLess(a, b)
  }

  lemma {:induction false} LexLessIrreflexive(a: string)
    ensures !LexLess(a, a)
    decreases |a|
  {
    if |a| > 0 {
      LexLessIrreflexive(a[1..]);
    }
  }

  lemma {:induction false} LexLessTransitive(a: string, b: string, c: string)
    requires LexLess(a, b) && LexLess(b, c)
    ensures LexLess(a, c)
    decreases |a|
  {
    if |a| > 0 && a[0] == b[0] && b[0] == c[0] {
      LexLessTransitive(a[1..], b[1..], c[1..]);
    }
  }

  lemma {:induction false} LexLessTotal(a: string, b: string)
    ensures a == b || LexLess(a, b) || LexLess(b, a)
    decreases |a|
  {
    if |a| > 0 && |b| > 0 && a[0] == b[0] {
      LexLessTotal(a[1..], b[1..]);
      if a[1..] == b[1..] {
        assert a == [a[0]] + a[1..] && b == [b[0]] + b[1..];
      }
    }
  }

  lemma LexLessAsymmetric(a: string, b: string)
    requires LexLess(a, b)
    ensures !LexLess(b, a)
  {
    if LexLess(b, a) {
      LexLessTransitive(a, b, a);
      LexLessIrreflexive(a);
    }
  }

  // ---------------------------------------------------------------------
  // Decimal numbers
  // ---------------------------------------------------------------------

  predicate IsDigit(c: char) {
    '0' <= c <= '9'
  }

  predicate AllDigits(s: string) {
    forall i :: 0 <= i < |s| ==> IsDigit(s[i])
  }

  function DigitChar(d: nat): (c: char)
    requires d < 10
    ensures IsDigit(c)
  {
    ('0' as int + d) as char
  }

  /** The value of a run of decimal digits, most significant first. */
  function DigitsValue(s: string): nat
    requires AllDigits(s)
    decreases |s|
  {
    if s == [] then 0
    else DigitsValue(s[..|s| - 1]) * 10 + (s[|s| - 1] as int - '0' as int)
  }

  /** The decimal form of a natural number (str(n) in Python, String(n) in
      JavaScript). */
  function NatToString(n: nat): (r: string)
    ensures |r| > 0 && AllDigits(r)
    decreases n
  {
    if n < 10 then [DigitChar(n)] else NatToString(n / 10) + [DigitChar(n % 10)]
  }

  function IntToString(i: int): string {
    if i < 0 then "-" + NatToString(-i) else NatToString(i)
  }

  /** Reading back the decimal form of n gives n. */
  lemma {:induction false} DigitsRoundTrip(n: nat)
    ensures DigitsValue(NatToString(n)) == n
    decreases n
  {
    if n >= 10 {
      DigitsRoundTrip(n / 10);
      var s := NatToString(n);
      assert s[..|s| - 1] == NatToString(n / 10);
    }
  }

  /** The digits of an integer as Python's int() reads them: decimal
      digits, where a single underscore may stand between two digits. */
  predicate IsDigitGroup(u: string) {
    && DigitsOrUnderscores(u)
    && forall i :: 0 <= i < |u| && u[i] == '_' ==> 0 < i < |u| - 1 && IsDigit(u[i + 1])
  }

  predicate DigitsOrUnderscores(u: string) {
    forall i :: 0 <= i < |u| ==> IsDigit(u[i]) || u[i] == '_'
  }

  /** The digits of `u` with the underscores left out. */
  function DropUnderscores(u: string): (r: string)
    ensures |r| <= |u|
    ensures DigitsOrUnderscores(u) ==> AllDigits(r)
    ensures AllDigits(u) ==> r == u
    decreases |u|
  {
    if u == [] then []
    else
      var rest := DropUnderscores(u[1..]);
      assert forall i :: 0 <= i < |u[1..]| ==> u[1..][i] == u[i + 1];
      if u[0] == '_' then rest else [u[0]] + rest
  }

  /** Python's int(s) on a string: surrounding whitespace is ignored, then
      an optional sign, then a non-empty group of digits; anything else
      raises (None). */
  function PyInt(s: string): (r: Option<int>)
    ensures |s| > 0 && AllDigits(s) ==> r == Some(DigitsValue(s))
    ensures r.Some? ==> !IsBlank(s)
  {
    assert AllDigits(s) ==> Strip(s) == s by {
      if AllDigits(s) { StripUnchanged(s); }
    }
    SignedGroup(Strip(s))
  }

  /** An optional sign, then a digit group, and nothing else. */
  function SignedGroup(t: string): (r: Option<int>)
    ensures |t| > 0 && AllDigits(t) ==> r == Some(DigitsValue(t))
    ensures r.Some? ==> t != []
  {
    if |t| > 0 && (t[0] == '+' || t[0] == '-') then
      var u := t[1..];
      if |u| > 0 && IsDigitGroup(u) then
        var n: int := DigitsValue(DropUnderscores(u));
        Some(if t[0] == '-' then -n else n)
      else None
    else if |t| > 0 && IsDigitGroup(t) then Some(DigitsValue(DropUnderscores(t)))
    else None
  }

  /** Python's int() reads back the decimal form of a natural number. */
  lemma PyIntRoundTrip(n: nat)
    ensures PyInt(NatToString(n)) == Some(n)
  {
    DigitsRoundTrip(n);
  }

  /** Whitespace around a number does not change what int() reads. */
  lemma PyIntIgnoresSpace(s: string)
    ensures PyInt(Strip(s)) == PyInt(s)
  {
    StripIdempotent(s);
  }

  /** A leading plus sign does not change what int() reads. */
  lemma PyIntPlus(s: string)
    requires |s| > 0 && AllDigits(s)
    ensures PyInt("+" + s) == Some(DigitsValue(s))
  {
    var p := "+" + s;
    assert p[0] == '+' && p[|p| - 1] == s[|s| - 1];
    StripUnchanged(p);
    assert p[1..] == s;
    DigitsAreGroup(s);
    assert SignedGroup(p) == Some(DigitsValue(s));
  }

  /** Plain digits form a digit group and lose nothing to the underscore
      removal. */
  lemma DigitsAreGroup(s: string)
    requires AllDigits(s)
    ensures IsDigitGroup(s) && DropUnderscores(s) == s
  {
  }

  /** An underscore between two digits is read through. */
  lemma PyIntUnderscore(a: string, b: string)
    requires |a| > 0 && AllDigits(a) && |b| > 0 && AllDigits(b)
    ensures PyInt(a + "_" + b) == Some(DigitsValue(a + b))
  {
    var s := a + "_" + b;
    assert s[0] == a[0] && s[|s| - 1] == b[|b| - 1];
    StripUnchanged(s);
    UnderscoreGroup(a, b);
    DropUnderscoresSplit(a, b);
    assert SignedGroup(s) == Some(DigitsValue(a + b));
  }

  lemma UnderscoreGroup(a: string, b: string)
    requires |a| > 0 && AllDigits(a) && |b| > 0 && AllDigits(b)
    ensures IsDigitGroup(a + "_" + b)
  {
    var s := a + "_" + b;
    forall i | 0 <= i < |s| && i != |a| ensures IsDigit(s[i]) {
      if i < |a| { assert s[i] == a[i]; }
      else { assert s[i] == b[i - |a| - 1]; }
    }
    assert s[|a| + 1] == b[0];
  }

  lemma {:induction false} DropUnderscoresSplit(a: string, b: string)
    requires AllDigits(a) && AllDigits(b)
    ensures DropUnderscores(a + "_" + b) == a + b
    decreases |a|
  {
    var u := a + "_" + b;
    if a == [] {
      assert u[0] == '_' && u[1..] == b;
    } else {
      DropUnderscoresSplit(a[1..], b);
      assert u[0] == a[0] != '_';
      assert u[1..] == a[1..] + "_" + b;
      assert DropUnderscores(u) == [a[0]] + DropUnderscores(u[1..]);
      assert a + b == [a[0]] + (a[1..] + b);
    }
  }

  /** JavaScript's whitespace on the ASCII range (tab to carriage return
      and space; not the separators 0x1C-0x1F). */
  predicate IsJsSpace(c: char) {
    (9 <= c as int <= 13) || c == ' '
  }

  /** The text after its leading whitespace: a suffix, everything dropped
      is whitespace, and what is left does not start with whitespace. */
  function SkipJsSpace(s: string): (r: string)
    ensures |r| <= |s| && r == s[|s| - |r|..]
    ensures forall i :: 0 <= i < |s| - |r| ==> IsJsSpace(s[i])
    ensures r == [] || !IsJsSpace(r[0])
    decreases |s|
  {
    if |s| > 0 && IsJsSpace(s[0]) then SkipJsSpace(s[1..]) else s
  }

  /** The longest prefix of `s` made of digits. */
  function DigitPrefix(s: string): (r: string)
    ensures AllDigits(r) && r <= s
    ensures |r| == |s| || !IsDigit(s[|r|])
    decreases |s|
  {
    if |s| > 0 && IsDigit(s[0]) then [s[0]] + DigitPrefix(s[1..]) else []
  }

  /** JavaScript's parseInt(s) without a radix, on decimal text: leading
      whitespace is skipped, then an optional sign, then the longest run of
      digits; anything after it is ignored. None stands for NaN (no digit
      where one is expected). */
  function ParseIntPrefix(s: string): (r: Option<int>)
    ensures var t := SkipJsSpace(s);
            var signed := |t| > 0 && (t[0] == '-' || t[0] == '+');
            var d := DigitPrefix(if signed then t[1..] else t);
            && (r.Some? <==> d != [])
            && (r.Some? ==> r.value == if signed && t[0] == '-' then -(DigitsValue(d) as int) else DigitsValue(d))
  {
    ParseSigned(SkipJsSpace(s))
  }

  /** An optional sign, then the digits. */
  function ParseSigned(t: string): Option<int> {
    if |t| > 0 && t[0] == '-' then
      (match ParseDigits(t[1..]) case Some(m) => Some(-m) case None => None)
    else if |t| > 0 && t[0] == '+' then ParseDigits(t[1..])
    else ParseDigits(t)
  }

  /** The value of the longest run of leading digits; None when there is
      none. */
  function ParseDigits(u: string): Option<int> {
    var d := DigitPrefix(u);
    if d == [] then None else Some(DigitsValue(d))
  }

  lemma {:induction false} DigitPrefixOfDigits(s: string)
    requires AllDigits(s)
    ensures DigitPrefix(s) == s
    decreases |s|
  {
    if |s| > 0 {
      DigitPrefixOfDigits(s[1..]);
    }
  }

  /** parseInt reads a plain run of digits as its decimal value. */
  lemma ParseIntOfDigits(s: string)
    requires |s| > 0 && AllDigits(s)
    ensures ParseIntPrefix(s) == Some(DigitsValue(s))
  {
    DigitLeads(s);
    assert ParseDigits(s) == Some(DigitsValue(s)) by {
      DigitPrefixOfDigits(s);
    }
  }

  /** A string that starts with a digit has no leading space or sign. */
  lemma DigitLeads(s: string)
    requires |s| > 0 && IsDigit(s[0])
    ensures ParseIntPrefix(s) == ParseDigits(s)
  {
    assert SkipJsSpace(s) == s;
  }

  /** parseInt stops at the first character that is not a digit: what
      follows a run of digits makes no difference. */
  lemma ParseIntIgnoresTail(d: string, rest: string)
    requires |d| > 0 && AllDigits(d)
    requires rest == [] || !IsDigit(rest[0])
    ensures ParseIntPrefix(d + rest) == Some(DigitsValue(d))
  {
    var s := d + rest;
    assert s[0] == d[0];
    DigitLeads(s);
    DigitPrefixOfDigitsThen(d, rest);
  }

  lemma {:induction false} DigitPrefixOfDigitsThen(d: string, rest: string)
    requires AllDigits(d)
    requires rest == [] || !IsDigit(rest[0])
    ensures DigitPrefix(d + rest) == d
    decreases |d|
  {
    if d == [] {
      assert d + rest == rest;
    } else {
      DigitPrefixOfDigitsThen(d[1..], rest);
      assert (d + rest)[0] == d[0] && (d + rest)[1..] == d[1..] + rest;
    }
  }

  /** A minus sign in front of the digits negates the value. */
  lemma ParseIntNegative(d: string)
    requires |d| > 0 && AllDigits(d)
    ensures ParseIntPrefix("-" + d) == Some(-(DigitsValue(d) as int))
  {
    var s := "-" + d;
    assert SkipJsSpace(s) == s;
    assert s[1..] == d;
    DigitPrefixOfDigits(d);
  }

  /** parseInt reads back the decimal form of a natural number, as the pages
      do with the employee id held in a select box. */
  lemma ParseIntRoundTrip(n: nat)
    ensures ParseIntPrefix(NatToString(n)) == Some(n)
  {
    ParseIntOfDigits(NatToString(n));
    DigitsRoundTrip(n);
  }

  // ---------------------------------------------------------------------
  // Calendar dates in ISO form
  // ---------------------------------------------------------------------

  /** The shape YYYY-MM-DD that the date fields accept. */
  predicate IsIsoDate(s: string) {
    |s| == 10 && s[4] == '-' && s[7] == '-'
    && AllDigits(s[..4]) && AllDigits(s[5..7]) && AllDigits(s[8..])
  }
  /** An ISO date put together from its parts. */
  function IsoOf(year: string, month: string, day: string): (r: string)
    requires |year| == 4 && |month| == 2 && |day| == 2
    requires AllDigits(year) && AllDigits(month) && AllDigits(day)
    ensures IsIsoDate(r) && r[..4] == year && r[5..7] == month && r[8..] == day
  {
    year + "-" + month + "-" + day
  }

  /** A month or a day of one or two digits, written with two. */
  function TwoDigits(d: string): (r: string)
    requires (|d| == 1 || |d| == 2) && AllDigits(d)
    ensures |r| == 2 && AllDigits(r) && DigitsValue(r) == DigitsValue(d)
  {
    if |d| == 1 then
      var r := "0" + d;
      assert r[..1] == "0" && r[..1][..0] == [] && d[..0] == [];
      r
    else d
  }

  /** Django's parse_date as the date column and the serializer's date field
      apply it: four digits, a dash, a month of one or two digits, a dash, a
      day of one or two digits; the value is held in ISO form. None stands
      for a string of any other shape. */
  function ParseDate(s: string): (r: Option<string>)
    ensures r.Some? ==> |s| >= 4 && IsIsoDate(r.value) && r.value[..4] == s[..4]
    ensures IsIsoDate(s) ==> r == Some(s)
  {
    assert IsIsoDate(s) ==>
      (s == s[..4] + "-" + s[5..7] + "-" + s[8..] && s[5..][..2] == s[5..7] && s[5..][3..] == s[8..]);
    if |s| < 8 || s[4] != '-' || !AllDigits(s[..4]) then None
    else
      var rest := s[5..];
      var m := if rest[1] == '-' then 1 else 2;
      if |rest| <= m || rest[m] != '-' || !AllDigits(rest[..m]) then None
      else
        var day := rest[m + 1..];
        if (|day| == 1 || |day| == 2) && AllDigits(day) then
          Some(IsoOf(s[..4], TwoDigits(rest[..m]), TwoDigits(day)))
        else None
  }

  /** A date with a one-digit month and day is read and padded. */
  lemma ParseDatePads()
    ensures ParseDate("2024-1-5") == Some("2024-01-05")
  {
    var s := "2024-1-5";
    assert s[..4] == "2024" && s[5..] == "1-5";
    assert "1-5"[..1] == "1" && "1-5"[2..] == "5";
    assert TwoDigits("1") == "01" && TwoDigits("5") == "05";
    assert AllDigits("2024") && AllDigits("1") && AllDigits("5");
    assert IsoOf("2024", "01", "05") == "2024-01-05";
  }
}
