/** The few std::string and <string> conversion operations the scanners rely
    on: find, attribute extraction by search, to_string, stoi and stoul. */
module Text {
  import opened Wrappers

  /** `pat` occurs in `s` starting at index `i`. */
  predicate OccursAt(s: string, pat: string, i: nat)
  {
    i + |pat| <= |s| && s[i..i + |pat|] == pat
  }

  /** `pat[k..]` matches `s` from `i + k` on, compared one character at a
      time. */
  predicate MatchesFrom(s: string, pat: string, i: nat, k: nat)
    requires i + |pat| <= |s| && k <= |pat|
    decreases |pat| - k
  {
    k == |pat| || (s[i + k] == pat[k] && MatchesFrom(s, pat, i, k + 1))
  }

  predicate MatchesAt(s: string, pat: string, i: nat)
    requires i + |pat| <= |s|
  {
    MatchesFrom(s, pat, i, 0)
  }

  lemma {:induction false} MatchesFromAll(s: string, pat: string, i: nat, k: nat)
    requires i + |pat| <= |s| && k <= |pat|
    ensures MatchesFrom(s, pat, i, k) <==> forall j :: k <= j < |pat| ==> s[i + j] == pat[j]
    decreases |pat| - k
  {
    if k < |pat| {
      MatchesFromAll(s, pat, i, k + 1);
    }
  }

  lemma MatchesAtIsOccurrence(s: string, pat: string, i: nat)
    requires i + |pat| <= |s|
    ensures MatchesAt(s, pat, i) <==> OccursAt(s, pat, i)
  {
    MatchesFromAll(s, pat, i, 0);
    if forall j :: 0 <= j < |pat| ==> s[i + j] == pat[j] {
      assert s[i..i + |pat|] == pat;
    }
  }

  /** std::string::find(pat, from): the first occurrence at or after `from`,
      or None for npos. */
  function Find(s: string, pat: string, from: nat): (r: Option<nat>)
    ensures r.Some? ==> from <= r.value && r.value + |pat| <= |s|
    decreases |s| - from
  {
    if from + |pat| > |s| then None
    else if MatchesAt(s, pat, from) then Some(from)
    else Find(s, pat, from + 1)
  }

  /** What find promises: the position it returns is an occurrence with no
      occurrence between `from` and it; npos means no occurrence at or
      after `from`. */
  lemma {:induction false} FindSpec(s: string, pat: string, from: nat)
    ensures Find(s, pat, from).Some? ==> OccursAt(s, pat, Find(s, pat, from).value)
    ensures Find(s, pat, from).Some? ==> forall j :: from <= j < Find(s, pat, from).value ==> !OccursAt(s, pat, j)
    ensures Find(s, pat, from).None? ==> forall j :: from <= j ==> !OccursAt(s, pat, j)
    decreases |s| - from
  {
    if from + |pat| <= |s| {
      MatchesAtIsOccurrence(s, pat, from);
      if !MatchesAt(s, pat, from) {
        FindSpec(s, pat, from + 1);
      }
    }
  }

  /** A found position is an occurrence. */
  lemma FindFound(s: string, pat: string, from: nat, p: nat)
    requires Find(s, pat, from) == Some(p)
    ensures OccursAt(s, pat, p)
  {
    FindSpec(s, pat, from);
  }

  /** Conversely, an occurrence with none before it is what find returns. */
  lemma {:induction false} FindIs(s: string, pat: string, from: nat, p: nat)
    requires from <= p && OccursAt(s, pat, p)
    requires forall j :: from <= j < p ==> !OccursAt(s, pat, j)
    ensures Find(s, pat, from) == Some(p)
    decreases p - from
  {
    MatchesAtIsOccurrence(s, pat, from);
    if from < p {
      FindIs(s, pat, from + 1, p);
    }
  }

  /** A pattern holding a character the text lacks is not found. */
  lemma AbsentChar(s: string, pat: string, c: char, from: nat)
    requires c in pat && c !in s
    ensures Find(s, pat, from).None?
  {
    FindSpec(s, pat, from);
    var k :| 0 <= k < |pat| && pat[k] == c;
    forall p: nat | p + |pat| <= |s|
      ensures !OccursAt(s, pat, p)
    {
      assert s[p..p + |pat|][k] == s[p + k];
    }
  }

  /** `pat` occurs somewhere in `s` (`s.find(pat) != npos`). */
  predicate Contains(s: string, pat: string)
  {
    Find(s, pat, 0).Some?
  }

  /** The scanners' attribute extraction: find `key` (for example `Id="`),
      then the next double quote after it; the text in between. */
  function Attr(tag: string, key: string): (r: Option<string>)
  {
    match Find(tag, key, 0)
    case None => None
    case Some(k) =>
      match Find(tag, "\"", k + |key|)
      case None => None
      case Some(e) => Some(tag[k + |key|..e])
  }

  /** A value read is free of double quotes, and sits right after an
      occurrence of `key`, followed by a double quote. */
  lemma AttrSpec(tag: string, key: string)
    ensures Attr(tag, key).Some? ==> '"' !in Attr(tag, key).value
    ensures Attr(tag, key).Some? ==>
              exists k: nat :: OccursAt(tag, key, k) && OccursAt(tag, Attr(tag, key).value + "\"", k + |key|)
  {
    match Find(tag, key, 0)
    case None =>
    case Some(k) =>
      match Find(tag, "\"", k + |key|)
      case None =>
      case Some(e) =>
        FindSpec(tag, key, 0);
        QuoteDelimited(tag, k + |key|, e);
  }

  /** The text from `from` up to the first double quote after it holds no
      double quote, and is followed by that quote. */
  lemma QuoteDelimited(tag: string, from: nat, e: nat)
    requires Find(tag, "\"", from) == Some(e)
    ensures '"' !in tag[from..e]
    ensures OccursAt(tag, tag[from..e] + "\"", from)
  {
    FindSpec(tag, "\"", from);
    var v := tag[from..e];
    forall i | 0 <= i < |v|
      ensures v[i] != '"'
    {
      assert !OccursAt(tag, "\"", from + i);
      assert tag[from + i..from + i + 1] == [v[i]];
    }
    assert tag[e..e + 1] == "\"";
    assert tag[from..e + 1] == tag[from..e] + tag[e..e + 1];
  }

  /** An attribute written as `key` + value + `"` at the first place `key`
      occurs is read back unchanged. */
  lemma AttrReadsWritten(prefix: string, key: string, v: string, rest: string)
    requires '"' !in v
    requires forall j :: 0 <= j < |prefix| ==> !OccursAt(prefix + key + v + "\"" + rest, key, j)
    ensures Attr(prefix + key + v + "\"" + rest, key) == Some(v)
  {
    var tag := prefix + key + v + "\"" + rest;
    var k := |prefix|;
    assert OccursAt(tag, key, k) by { assert tag[k..k + |key|] == key; }
    FindIs(tag, key, 0, k);
    var e := k + |key| + |v|;
    assert OccursAt(tag, "\"", e) by { assert tag[e..e + 1] == [tag[e]]; assert tag[e] == '"'; }
    forall j | k + |key| <= j < e
      ensures !OccursAt(tag, "\"", j)
    {
      assert tag[j] == v[j - k - |key|];
      assert tag[j..j + 1] == [tag[j]];
    }
    FindIs(tag, "\"", k + |key|, e);
    assert tag[k + |key|..e] == v;
  }

  // ---------------------------------------------------------------------
  // Decimal digits: std::to_string on a non-negative value, and the
  // leading-digit parsing of std::stoi / std::stoul.

  predicate IsDigit(c: char)
  {
    '0' <= c <= '9'
  }

  predicate AllDigits(s: string)
  {
    forall i :: 0 <= i < |s| ==> IsDigit(s[i])
  }

  function DigitChar(d: nat): (c: char)
    requires d < 10
    ensures IsDigit(c)
  {
    (('0' as int) + d) as char
  }

  /** std::to_string of a non-negative integer: shortest decimal form. */
  function Decimal(n: nat): (r: string)
    ensures |r| >= 1 && AllDigits(r)
    ensures |r| > 1 ==> r[0] != '0'
    decreases n
  {
    if n < 10 then [DigitChar(n)] else Decimal(n / 10) + [DigitChar(n % 10)]
  }

  /** The value of a string of decimal digits, most significant first. */
  function DigitsValue(ds: string): nat
    requires AllDigits(ds)
    decreases |ds|
  {
    if ds == [] then 0
    else DigitsValue(ds[..|ds| - 1]) * 10 + ((ds[|ds| - 1] as int) - ('0' as int))
  }

  lemma {:induction false} DecimalValue(n: nat)
    ensures DigitsValue(Decimal(n)) == n
    decreases n
  {
    if n >= 10 {
      DecimalValue(n / 10);
      var d := Decimal(n);
      assert d[..|d| - 1] == Decimal(n / 10);
    }
  }

  /** The characters std::isspace accepts in the "C" locale. */
  predicate IsSpace(c: char)
  {
    c == ' ' || c == '\t' || c == '\n' || c == '\r' || c == '\U{0B}' || c == '\U{0C}'
  }

  function SkipSpace(s: string): (r: string)
    ensures |r| <= |s| && r == s[|s| - |r|..]
    ensures r != [] ==> !IsSpace(r[0])
  {
    if s != [] && IsSpace(s[0]) then SkipSpace(s[1..]) else s
  }

  /** The longest prefix of decimal digits. */
  function LeadingDigits(s: string): (r: string)
    ensures AllDigits(r) && r <= s
    ensures |r| < |s| ==> !IsDigit(s[|r|])
  {
    if s != [] && IsDigit(s[0]) then [s[0]] + LeadingDigits(s[1..]) else []
  }

  /** What strtol/strtoul read in base 10: optional white space, an optional
      sign, then the longest run of digits. */
  datatype Numeral = Numeral(negative: bool, digits: string)

  function ReadNumeral(s: string): (n: Numeral)
    ensures AllDigits(n.digits)
  {
    var t := SkipSpace(s);
    if t != [] && (t[0] == '+' || t[0] == '-') then Numeral(t[0] == '-', LeadingDigits(t[1..]))
    else Numeral(false, LeadingDigits(t))
  }

  const IntMin: int := -0x8000_0000
  const IntMax: int := 0x7FFF_FFFF
  const ULongModulus: int := 0x1_0000_0000_0000_0000

  /** std::stoi: None where it throws (no digits, or outside a 32-bit int). */
  function StoI(s: string): (r: Option<int>)
    ensures r.Some? ==> IntMin <= r.value <= IntMax
  {
    var n := ReadNumeral(s);
    if n.digits == [] then None
    else
      var v: int := if n.negative then -(DigitsValue(n.digits) as int) else DigitsValue(n.digits);
      if IntMin <= v <= IntMax then Some(v) else None
  }

  /** std::stoul with a 64-bit unsigned long: None where it throws; a leading
      minus sign negates modulo 2^64, as strtoul does. */
  function StoUL(s: string): (r: Option<nat>)
    ensures r.Some? ==> r.value < ULongModulus
  {
    var n := ReadNumeral(s);
    if n.digits == [] then None
    else
      var v := DigitsValue(n.digits);
      if v >= ULongModulus then None
      else if n.negative then Some((ULongModulus - v) % ULongModulus)
      else Some(v)
  }

  lemma ReadNumeralOfDecimal(n: nat)
    ensures ReadNumeral(Decimal(n)) == Numeral(false, Decimal(n))
  {
    var d := Decimal(n);
    assert IsDigit(d[0]);
    assert SkipSpace(d) == d;
    assert d[0] != '+' && d[0] != '-';
    DigitsAreLeading(d);
  }

  lemma {:induction false} DigitsAreLeading(d: string)
    requires AllDigits(d)
    ensures LeadingDigits(d) == d
    decreases |d|
  {
    if d != [] {
      DigitsAreLeading(d[1..]);
    }
  }

  /** std::stoi reads back what std::to_string wrote. */
  lemma StoIOfDecimal(n: nat)
    requires n <= IntMax
    ensures StoI(Decimal(n)) == Some(n)
  {
    ReadNumeralOfDecimal(n);
    DecimalValue(n);
  }

  /** std::stoul reads back what std::to_string wrote. */
  lemma StoULOfDecimal(n: nat)
    requires n < ULongModulus
    ensures StoUL(Decimal(n)) == Some(n)
  {
    ReadNumeralOfDecimal(n);
    DecimalValue(n);
  }

  /** Text with no digit at all is rejected by both conversions. */
  lemma NoDigitsNoNumber(s: string)
    requires forall i :: 0 <= i < |s| ==> !IsDigit(s[i])
    ensures StoI(s) == None && StoUL(s) == None
  {
    var t := SkipSpace(s);
    if t != [] && (t[0] == '+' || t[0] == '-') {
      assert t[1..] == s[|s| - |t| + 1..];
      if t[1..] != [] { assert !IsDigit(t[1..][0]); }
    } else if t != [] {
      assert !IsDigit(t[0]);
    }
  }
}
