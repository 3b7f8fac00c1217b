/** The Python string operations the bridge relies on: `str.replace`,
    `str.strip`, `str.split`, `str(int)`, `int(str)` and `"{:02d}".format`. */
module Text {
  import opened Base

  /** Python's `str.isspace()` for one character: the characters `strip()`
      removes when called without arguments. */
  predicate IsSpace(c: char) {
    || ('\t' <= c <= '\r')
    || ('\U{1C}' <= c <= ' ')
    || c == '\U{85}' || c == '\U{A0}' || c == '\U{1680}'
    || ('\U{2000}' <= c <= '\U{200A}')
    || c == '\U{2028}' || c == '\U{2029}' || c == '\U{202F}'
    || c == '\U{205F}' || c == '\U{3000}'
  }

  predicate IsDigit(c: char) {
    '0' <= c <= '9'
  }

  predicate AllDigits(s: string) {
    forall i :: 0 <= i < |s| ==> IsDigit(s[i])
  }

  /** `pat` occurs in `s` starting at index `i`. */
  predicate OccursAt(s: string, pat: string, i: int) {
    0 <= i && i + |pat| <= |s| && s[i..i + |pat|] == pat
  }

  // ---------------------------------------------------------------------
  // str.replace
  // ---------------------------------------------------------------------

  /** Python's `s.replace(pat, rep)`: scan left to right and replace every
      non-overlapping occurrence of `pat`. */
  function ReplaceAll(s: string, pat: string, rep: string): string
    requires |pat| > 0
    decreases |s|
  {
    if |s| < |pat| then s
    else if s[..|pat|] == pat then rep + ReplaceAll(s[|pat|..], pat, rep)
    else [s[0]] + ReplaceAll(s[1..], pat, rep)
  }

  /** A text that does not start like the pattern keeps its first
      character. */
  lemma ReplaceSkip(s: string, pat: string, rep: string)
    requires |pat| > 0 && |s| > 0 && s[0] != pat[0]
    ensures ReplaceAll(s, pat, rep) == [s[0]] + ReplaceAll(s[1..], pat, rep)
  {
    if |s| >= |pat| {
      assert s[..|pat|][0] != pat[0];
    }
  }

  /** Every character of a replacement result comes from the input or from
      the replacement text. */
  lemma {:induction false} ReplaceChars(s: string, pat: string, rep: string, c: char)
    requires |pat| > 0
    requires c in ReplaceAll(s, pat, rep)
    ensures c in s || c in rep
    decreases |s|
  {
    if |s| < |pat| {
    } else if s[..|pat|] == pat {
      if c !in rep {
        ReplaceChars(s[|pat|..], pat, rep, c);
      }
    } else {
      if c != s[0] {
        ReplaceChars(s[1..], pat, rep, c);
      }
    }
  }

  /** A character in neither the input nor the replacement text is not in
      the result. */
  lemma ReplaceKeepsOut(s: string, pat: string, rep: string, c: char)
    requires |pat| > 0 && c !in s && c !in rep
    ensures c !in ReplaceAll(s, pat, rep)
  {
    if c in ReplaceAll(s, pat, rep) {
      ReplaceChars(s, pat, rep, c);
      assert false;
    }
  }

  /** Replacing a single character by text that does not contain it leaves
      no occurrence of that character. */
  lemma {:induction false} ReplaceCharRemoves(s: string, c: char, rep: string)
    requires c !in rep
    ensures c !in ReplaceAll(s, [c], rep)
    decreases |s|
  {
    if |s| < 1 {
    } else if s[..1] == [c] {
      ReplaceCharRemoves(s[1..], c, rep);
    } else {
      assert s[0] != c;
      ReplaceCharRemoves(s[1..], c, rep);
    }
  }

  /** Replacing a character by another character is a pointwise rewrite:
      the length is kept and only the matching positions change. */
  lemma {:induction false} ReplaceCharPointwise(s: string, c: char, d: char)
    ensures |ReplaceAll(s, [c], [d])| == |s|
    ensures forall i :: 0 <= i < |s| ==>
      ReplaceAll(s, [c], [d])[i] == (if s[i] == c then d else s[i])
    decreases |s|
  {
    if |s| >= 1 {
      ReplaceCharPointwise(s[1..], c, d);
      var r := ReplaceAll(s, [c], [d]);
      assert r[1..] == ReplaceAll(s[1..], [c], [d]);
    }
  }

  /** Text with no occurrence of the pattern is returned unchanged. */
  lemma {:induction false} ReplaceAbsent(s: string, pat: string, rep: string)
    requires |pat| > 0
    requires forall i :: 0 <= i <= |s| - |pat| ==> !OccursAt(s, pat, i)
    ensures ReplaceAll(s, pat, rep) == s
    decreases |s|
  {
    if |s| >= |pat| {
      assert !OccursAt(s, pat, 0);
      forall i | 0 <= i <= |s[1..]| - |pat|
        ensures !OccursAt(s[1..], pat, i)
      {
        assert !OccursAt(s, pat, i + 1);
        assert s[1..][i..i + |pat|] == s[i + 1..i + 1 + |pat|];
      }
      ReplaceAbsent(s[1..], pat, rep);
    }
  }

  /** A prefix that holds no first character of the pattern is copied
      through, and the scan resumes after it. */
  lemma {:induction false} ReplacePastPrefix(x: string, t: string, pat: string, rep: string)
    requires |pat| > 0 && pat[0] !in x
    ensures ReplaceAll(x + t, pat, rep) == x + ReplaceAll(t, pat, rep)
    decreases |x|
  {
    if |x| > 0 {
      assert (x + t)[0] == x[0] && x[0] in x;
      ReplaceSkip(x + t, pat, rep);
      assert (x + t)[1..] == x[1..] + t;
      assert pat[0] !in x[1..];
      ReplacePastPrefix(x[1..], t, pat, rep);
      calc {
        ReplaceAll(x + t, pat, rep);
        [x[0]] + ReplaceAll(x[1..] + t, pat, rep);
        [x[0]] + (x[1..] + ReplaceAll(t, pat, rep));
        { assert [x[0]] + x[1..] == x; }
        x + ReplaceAll(t, pat, rep);
      }
    } else {
      assert x + t == t;
    }
  }

  /** A single occurrence of a character is replaced and the rest kept. */
  lemma ReplaceOneChar(a: string, c: char, b: string, rep: string)
    requires c !in a && c !in b
    ensures ReplaceAll(a + [c] + b, [c], rep) == a + rep + b
  {
    var t := [c] + b;
    assert a + [c] + b == a + t;
    ReplacePastPrefix(a, t, [c], rep);
    assert t[..1] == [c] && t[1..] == b;
    MissingCharNoOccurrence(b, [c], 0);
    ReplaceAbsent(b, [c], rep);
  }

  /** The pattern alone is replaced by the replacement text. */
  lemma ReplaceWhole(pat: string, rep: string)
    requires |pat| > 0
    ensures ReplaceAll(pat, pat, rep) == rep
  {
    assert pat[..|pat|] == pat;
    assert ReplaceAll(pat[|pat|..], pat, rep) == [];
  }

  /** `s` with every ',' written as '.': a decimal comma made a decimal
      point. */
  function CommasToPoints(s: string): (r: string)
    ensures |r| == |s|
  {
    seq(|s|, i requires 0 <= i < |s| => if s[i] == ',' then '.' else s[i])
  }

  /** `s.replace(',', '.')` is the pointwise rewrite `CommasToPoints`. */
  lemma ReplaceCommas(s: string)
    ensures ReplaceAll(s, ",", ".") == CommasToPoints(s)
  {
    ReplaceCharPointwise(s, ',', '.');
  }

  /** Every character of an occurrence of `pat` is a character of `s`. */
  lemma OccurrenceChars(s: string, pat: string, i: int, k: int)
    requires 0 <= k < |pat|
    ensures OccursAt(s, pat, i) ==> pat[k] in s
  {
    if OccursAt(s, pat, i) {
      assert s[i..i + |pat|][k] == s[i + k];
    }
  }

  /** A pattern one of whose characters is missing from the text does not
      occur in it. */
  lemma MissingCharNoOccurrence(s: string, pat: string, k: int)
    requires 0 <= k < |pat| && pat[k] !in s
    ensures forall i :: 0 <= i <= |s| - |pat| ==> !OccursAt(s, pat, i)
  {
    forall i | 0 <= i <= |s| - |pat|
      ensures !OccursAt(s, pat, i)
    {
      OccurrenceChars(s, pat, i, k);
    }
  }

  // ---------------------------------------------------------------------
  // str.strip
  // ---------------------------------------------------------------------

  /** Python's `s.lstrip()`. */
  function StripStart(s: string): (r: string)
    ensures |r| <= |s| && r == s[|s| - |r|..]
    ensures forall k :: 0 <= k < |s| - |r| ==> IsSpace(s[k])
    ensures r == [] || !IsSpace(r[0])
    decreases |s|
  {
    if |s| > 0 && IsSpace(s[0]) then StripStart(s[1..]) else s
  }

  /** Python's `s.rstrip()`. */
  function StripEnd(s: string): (r: string)
    ensures |r| <= |s| && r == s[..|r|]
    ensures forall k :: |r| <= k < |s| ==> IsSpace(s[k])
    ensures r == [] || !IsSpace(r[|r| - 1])
    decreases |s|
  {
    if |s| > 0 && IsSpace(s[|s| - 1]) then StripEnd(s[..|s| - 1]) else s
  }

  /** `r` is the slice of `s` at `i` and only whitespace lies around it. */
  predicate SliceAmidSpace(s: string, r: string, i: int) {
    && 0 <= i <= |s| - |r|
    && r == s[i..i + |r|]
    && (forall k :: 0 <= k < i ==> IsSpace(s[k]))
    && (forall k :: i + |r| <= k < |s| ==> IsSpace(s[k]))
  }

  /** Python's `s.strip()`: the longest slice of `s` that neither starts nor
      ends with whitespace, obtained by dropping only whitespace. */
  function Strip(s: string): (r: string)
    ensures exists i :: SliceAmidSpace(s, r, i)
    ensures r == [] || (!IsSpace(r[0]) && !IsSpace(r[|r| - 1]))
    ensures forall c :: c in r ==> c in s
  {
    var a := StripStart(s);
    var r := StripEnd(a);
    var i := |s| - |a|;
    assert SliceAmidSpace(s, r, i);
    r
  }

  /** Text that neither starts nor ends with whitespace is its own strip. */
  lemma StripTrimmed(s: string)
    requires s == [] || (!IsSpace(s[0]) && !IsSpace(s[|s| - 1]))
    ensures Strip(s) == s
  {
  }

  /** Leading whitespace before text that does not start with whitespace
      is what `lstrip()` drops. */
  lemma {:induction false} StripStartPast(a: string, t: string)
    requires forall k :: 0 <= k < |a| ==> IsSpace(a[k])
    requires t == [] || !IsSpace(t[0])
    ensures StripStart(a + t) == t
    decreases |a|
  {
    if a == [] {
      assert a + t == t;
    } else {
      assert (a + t)[1..] == a[1..] + t;
      StripStartPast(a[1..], t);
    }
  }

  /** Trailing whitespace after text that does not end with whitespace is
      what `rstrip()` drops. */
  lemma {:induction false} StripEndPast(t: string, b: string)
    requires forall k :: 0 <= k < |b| ==> IsSpace(b[k])
    requires t == [] || !IsSpace(t[|t| - 1])
    ensures StripEnd(t + b) == t
    decreases |b|
  {
    if b == [] {
      assert t + b == t;
    } else {
      assert (t + b)[..|t + b| - 1] == t + b[..|b| - 1];
      StripEndPast(t, b[..|b| - 1]);
    }
  }

  /** Text that neither starts nor ends with whitespace, padded with
      whitespace on either side, strips back to itself. */
  lemma StripAmidSpace(a: string, m: string, b: string)
    requires forall k :: 0 <= k < |a| ==> IsSpace(a[k])
    requires forall k :: 0 <= k < |b| ==> IsSpace(b[k])
    requires m == [] || (!IsSpace(m[0]) && !IsSpace(m[|m| - 1]))
    ensures Strip(a + m + b) == m
  {
    if m == [] {
      var w := a + b;
      assert a + m + b == w;
      assert forall k :: 0 <= k < |w| ==> IsSpace(w[k]) by {
        forall k | 0 <= k < |w|
          ensures IsSpace(w[k])
        {
          if k >= |a| {
            assert w[k] == b[k - |a|];
          }
        }
      }
      StripStartPast(w, []);
      assert w + [] == w;
    } else {
      assert a + m + b == a + (m + b);
      StripStartPast(a, m + b);
      StripEndPast(m, b);
    }
  }

  /** Stripping twice is stripping once. */
  lemma StripIdempotent(s: string)
    ensures Strip(Strip(s)) == Strip(s)
  {
    StripTrimmed(Strip(s));
  }

  // ---------------------------------------------------------------------
  // str.split on one separator character
  // ---------------------------------------------------------------------

  /** Python's `s.split(sep)` for a one-character separator: the pieces
      between consecutive separators, empty pieces included. */
  function Split(s: string, sep: char): (parts: seq<string>)
    ensures |parts| >= 1
    ensures forall i :: 0 <= i < |parts| ==> sep !in parts[i]
    ensures Join(parts, sep) == s
    decreases |s|
  {
    if |s| == 0 then [""]
    else
      var rest := Split(s[1..], sep);
      if s[0] == sep then [""] + rest
      else [[s[0]] + rest[0]] + rest[1..]
  }

  /** Python's `sep.join(parts)`. */
  function Join(parts: seq<string>, sep: char): string
    requires |parts| >= 1
    decreases |parts|
  {
    if |parts| == 1 then parts[0] else parts[0] + [sep] + Join(parts[1..], sep)
  }

  /** A piece free of the separator, followed by the separator, splits off
      as exactly that piece. */
  lemma {:induction false} SplitAfterPiece(p: string, sep: char, t: string)
    requires sep !in p
    ensures Split(p + [sep] + t, sep) == [p] + Split(t, sep)
    decreases |p|
  {
    if |p| == 0 {
      assert p + [sep] + t == [sep] + t;
      assert ([sep] + t)[1..] == t;
    } else {
      assert (p + [sep] + t)[1..] == p[1..] + [sep] + t;
      SplitAfterPiece(p[1..], sep, t);
      assert [p[0]] + p[1..] == p;
    }
  }

  /** Text without the separator splits into itself alone. */
  lemma {:induction false} SplitNoSeparator(p: string, sep: char)
    requires sep !in p
    ensures Split(p, sep) == [p]
    decreases |p|
  {
    if |p| > 0 {
      SplitNoSeparator(p[1..], sep);
      assert [p[0]] + p[1..] == p;
    }
  }

  /** Splitting undoes joining when no piece contains the separator. */
  lemma {:induction false} SplitJoin(parts: seq<string>, sep: char)
    requires |parts| >= 1
    requires forall i :: 0 <= i < |parts| ==> sep !in parts[i]
    ensures Split(Join(parts, sep), sep) == parts
    decreases |parts|
  {
    if |parts| == 1 {
      SplitNoSeparator(parts[0], sep);
    } else {
      SplitJoin(parts[1..], sep);
      SplitAfterPiece(parts[0], sep, Join(parts[1..], sep));
    }
  }

  // ---------------------------------------------------------------------
  // str(int)
  // ---------------------------------------------------------------------

  function DigitChar(d: int): char
    requires 0 <= d < 10
  {
    (d + '0' as int) as char
  }

  function DigitValue(c: char): int
    requires IsDigit(c)
  {
    c as int - '0' as int
  }

  /** Python's `str(n)` for a non-negative integer. */
  function NatToString(n: nat): (r: string)
    ensures |r| >= 1 && AllDigits(r)
    ensures n < 10 <==> |r| == 1
    decreases n
  {
    if n < 10 then [DigitChar(n)] else NatToString(n / 10) + [DigitChar(n % 10)]
  }

  /** Python's `str(i)` for any integer. */
  function IntToString(i: int): (r: string)
    ensures |r| >= 1
    ensures i >= 0 ==> r == NatToString(i)
    ensures i < 0 ==> r == "-" + NatToString(-i)
  {
    if i < 0 then "-" + NatToString(-i) else NatToString(i)
  }

  /** The decimal value of a string of digits. */
  function DigitsValue(s: string): nat
    requires AllDigits(s)
    decreases |s|
  {
    if |s| == 0 then 0 else DigitsValue(s[..|s| - 1]) * 10 + DigitValue(s[|s| - 1])
  }

  /** Reading back the digits `str` writes gives the number again. */
  lemma {:induction false} DigitsOfNat(n: nat)
    ensures DigitsValue(NatToString(n)) == n
    decreases n
  {
    var r := NatToString(n);
    if n >= 10 {
      DigitsOfNat(n / 10);
      assert r[..|r| - 1] == NatToString(n / 10);
    }
  }

  /** `str` gives different text for different numbers. */
  lemma NatToStringInjective(a: nat, b: nat)
    requires NatToString(a) == NatToString(b)
    ensures a == b
  {
    DigitsOfNat(a);
    DigitsOfNat(b);
  }

  /** Only negative numbers are written with a leading minus sign. */
  lemma IntToStringSign(i: int)
    ensures IntToString(i)[0] == '-' <==> i < 0
  {
    if i >= 0 {
      assert IsDigit(NatToString(i)[0]);
    }
  }

  lemma IntToStringInjective(a: int, b: int)
    requires IntToString(a) == IntToString(b)
    ensures a == b
  {
    IntToStringSign(a);
    IntToStringSign(b);
    if a < 0 {
      assert IntToString(a)[1..] == NatToString(-a);
      assert IntToString(b)[1..] == NatToString(-b);
      NatToStringInjective(-a, -b);
    } else {
      NatToStringInjective(a, b);
    }
  }

  // ---------------------------------------------------------------------
  // int(str)
  // ---------------------------------------------------------------------

  /** Two underscores in a row start at index `i`. */
  predicate DoubleUnderscoreAt(s: string, i: int) {
    0 <= i < |s| - 1 && s[i] == '_' && s[i + 1] == '_'
  }

  /** The body Python's `int()` accepts after an optional sign: ASCII digits,
      possibly grouped by single underscores between digits. */
  predicate DigitGroups(s: string) {
    && |s| > 0
    && IsDigit(s[0]) && IsDigit(s[|s| - 1])
    && (forall i :: 0 <= i < |s| ==> IsDigit(s[i]) || s[i] == '_')
    && (forall i :: 0 <= i < |s| ==> !DoubleUnderscoreAt(s, i))
  }

  /** `s` with its underscores dropped. */
  function Ungroup(s: string): (r: string)
    requires forall i :: 0 <= i < |s| ==> IsDigit(s[i]) || s[i] == '_'
    ensures AllDigits(r)
    ensures AllDigits(s) ==> r == s
    decreases |s|
  {
    if |s| == 0 then ""
    else if s[0] == '_' then Ungroup(s[1..])
    else [s[0]] + Ungroup(s[1..])
  }

  /** Python's `int(s)` in base 10: surrounding whitespace is ignored, one
      optional sign, then digit groups; anything else raises ValueError
      (modelled as None). */
  function PyInt(s: string): Option<int> {
    var t := Strip(s);
    if |t| == 0 then None
    else
      var negative := t[0] == '-';
      var body := if t[0] == '-' || t[0] == '+' then t[1..] else t;
      if !DigitGroups(body) then None
      else
        var v := DigitsValue(Ungroup(body));
        Some(if negative then -(v as int) else v)
  }

  /** A non-empty run of digits is a valid `int()` body. */
  lemma DigitsAreGroups(s: string)
    requires |s| > 0 && AllDigits(s)
    ensures DigitGroups(s)
    ensures Ungroup(s) == s
  {
    forall i | 0 <= i < |s| ensures !DoubleUnderscoreAt(s, i) {
      assert IsDigit(s[i]);
    }
  }

  /** `int(str(i)) == i`: the decimal text of a number parses back to it. */
  lemma PyIntOfIntToString(i: int)
    ensures PyInt(IntToString(i)) == Some(i)
  {
    var n: nat := if i < 0 then -i else i;
    DigitsOfNat(n);
    if i < 0 {
      assert IntToString(i)[1..] == NatToString(n);
      PyIntOfNegativeDigits(IntToString(i));
    } else {
      PyIntOfDigits(NatToString(n));
    }
  }

  /** A minus sign followed by a run of digits reads as the negated value
      of the digits. */
  lemma PyIntOfNegativeDigits(s: string)
    requires |s| > 1 && s[0] == '-' && AllDigits(s[1..])
    ensures PyInt(s) == Some(-(DigitsValue(s[1..]) as int))
  {
    var d := s[1..];
    assert Strip(s) == s by {
      assert IsDigit(d[|d| - 1]) && s[|s| - 1] == d[|d| - 1];
      StripTrimmed(s);
    }
    DigitsAreGroups(d);
    PyIntNegative(s);
  }

  /** A trimmed text of a minus sign and digit groups reads as the negated
      value of its digits. */
  lemma PyIntNegative(s: string)
    requires Strip(s) == s && |s| > 1 && s[0] == '-' && DigitGroups(s[1..])
    ensures PyInt(s) == Some(-(DigitsValue(Ungroup(s[1..])) as int))
  {
  }

  /** `int(str(n))` for digit strings with leading zeros: `int("03") == 3`. */
  lemma PyIntOfDigits(s: string)
    requires |s| > 0 && AllDigits(s)
    ensures PyInt(s) == Some(DigitsValue(s))
  {
    assert IsDigit(s[0]) && IsDigit(s[|s| - 1]);
    StripTrimmed(s);
    DigitsAreGroups(s);
  }

  /** The integer text that reads back exactly as written: `Some(i)` when
      `t == str(i)`, otherwise None. Equality with a JSON key `str(y)` is
      decided by this. */
  function CanonicalInt(t: string): (r: Option<int>)
    ensures r.Some? <==> exists i :: IntToString(i) == t
    ensures r.Some? ==> IntToString(r.value) == t
  {
    var p := PyInt(t);
    if p.Some? && IntToString(p.value) == t then p
    else
      assert forall i :: IntToString(i) == t ==> PyInt(t) == Some(i) by {
        forall i | IntToString(i) == t
          ensures PyInt(t) == Some(i)
        {
          PyIntOfIntToString(i);
        }
      }
      None
  }

  /** `str(i)` is the canonical text of `i`. */
  lemma CanonicalIntOfIntToString(i: int)
    ensures CanonicalInt(IntToString(i)) == Some(i)
  {
    IntToStringInjective(i, CanonicalInt(IntToString(i)).value);
  }

  // ---------------------------------------------------------------------
  // "{:02d}".format(m)
  // ---------------------------------------------------------------------

  /** Python's `"{:02d}".format(m)`: zero-padded to width two, the sign
      counting towards the width. */
  function Pad2(m: int): (r: string)
    ensures 0 <= m < 100 ==> |r| == 2
    ensures m >= 0 ==> AllDigits(r) && DigitsValue(r) == m
    ensures m < 0 ==> r == IntToString(m)
  {
    if 0 <= m < 10 then
      assert DigitsValue("0") == 0;
      assert ("0" + NatToString(m))[..1] == "0";
      "0" + NatToString(m)
    else if m >= 10 then
      DigitsOfNat(m);
      IntToString(m)
    else
      IntToString(m)
  }
}
