/**
 * The Python string operations the ingestion code relies on, over `string`
 * (a sequence of code points): `str.isspace`, `strip`, slicing `[:n]`,
 * `replace(pat, '')`, `split(c)`, `split(c, 1)[0]`, `lower`, the `in`
 * operator, `re.search('[0-9]+')`, `int` on a digit run and
 * `os.path.splitext(p)[1]`.
 */
module Text {
  import opened Wrappers

  /** Python's `str.isspace` for a single code point. */
  predicate IsSpace(c: char) {
    || c == ' '
    || '\t' <= c <= '\r'
    || '\U{1c}' <= c <= '\U{1f}'
    || c == '\U{85}' || c == '\U{a0}' || c == '\U{1680}'
    || '\U{2000}' <= c <= '\U{200a}'
    || c == '\U{2028}' || c == '\U{2029}' || c == '\U{202f}'
    || c == '\U{205f}' || c == '\U{3000}'
  }

  predicate AllSpace(s: string) {
    forall i :: 0 <= i < |s| ==> IsSpace(s[i])
  }

  /** Length of the run of whitespace at the start of `s`. */
  function LeadingSpace(s: string): (n: nat)
    ensures n <= |s| && AllSpace(s[..n])
    ensures n < |s| ==> !IsSpace(s[n])
  {
    if |s| == 0 || !IsSpace(s[0]) then 0
    else
      var m := LeadingSpace(s[1..]);
      assert forall i :: 1 <= i < 1 + m ==> s[i] == s[1..][..m][i - 1];
      1 + m
  }

  /** Length of the run of whitespace at the end of `s`. */
  function TrailingSpace(s: string): (n: nat)
    ensures n <= |s| && AllSpace(s[|s| - n..])
    ensures n < |s| ==> !IsSpace(s[|s| - 1 - n])
  {
    if |s| == 0 || !IsSpace(s[|s| - 1]) then 0
    else
      var t := s[..|s| - 1];
      var m := TrailingSpace(t);
      assert forall i :: |s| - 1 - m <= i < |s| - 1 ==> s[i] == t[|t| - m..][i - (|t| - m)];
      1 + m
  }

  /**
   * Python's `s.strip()`: `s` without its leading and trailing whitespace,
   * that is, the slice after the leading run up to a whitespace-only rest.
   */
  function Strip(s: string): (r: string)
    ensures r == [] <==> AllSpace(s)
    ensures r != [] ==> !IsSpace(r[0]) && !IsSpace(r[|r| - 1])
    ensures LeadingSpace(s) + |r| <= |s| && r == s[LeadingSpace(s)..LeadingSpace(s) + |r|]
    ensures AllSpace(s[LeadingSpace(s) + |r|..])
  {
    var i := LeadingSpace(s);
    if i == |s| then
      assert s[..i] == s;
      []
    else
      var j := |s| - TrailingSpace(s);
      assert i < j;
      s[i..j]
  }

  /** Python's slice `s[:n]` for a non-negative `n`. */
  function Take(s: string, n: nat): (r: string)
    ensures |r| == if |s| <= n then |s| else n
    ensures r == s[..|r|]
  {
    if |s| <= n then s else s[..n]
  }

  predicate StartsWith(s: string, prefix: string) {
    |prefix| <= |s| && s[..|prefix|] == prefix
  }

  /** Python's `pat in s`. */
  predicate Contains(s: string, pat: string)
    decreases |s|
  {
    StartsWith(s, pat) || (|s| > 0 && Contains(s[1..], pat))
  }

  /**
   * Python's `s.replace(pat, '')`: occurrences of `pat` are removed scanning
   * left to right, without overlap; an empty `pat` leaves `s` as it is.
   */
  function RemoveAll(s: string, pat: string): (r: string)
    ensures |r| <= |s|
    decreases |s|
  {
    if pat == [] || |s| < |pat| then s
    else if s[..|pat|] == pat then RemoveAll(s[|pat|..], pat)
    else [s[0]] + RemoveAll(s[1..], pat)
  }

  /** Removing a substring that does not occur changes nothing. */
  lemma {:induction false} RemoveAllAbsent(s: string, pat: string)
    requires !Contains(s, pat)
    ensures RemoveAll(s, pat) == s
    decreases |s|
  {
    if pat == [] || |s| < |pat| {
    } else {
      assert s[..|pat|] != pat;
      RemoveAllAbsent(s[1..], pat);
      assert [s[0]] + s[1..] == s;
    }
  }

  /** A leading occurrence of the pattern is removed, and removal goes on after it. */
  lemma RemoveAllLeading(pat: string, s: string)
    requires pat != []
    ensures RemoveAll(pat + s, pat) == RemoveAll(s, pat)
  {
    var t := pat + s;
    assert t[..|pat|] == pat;
    assert t[|pat|..] == s;
  }

  /** Python's `s.split(sep)` for a one-character separator. */
  function SplitOn(s: string, sep: char): (parts: seq<string>)
    ensures |parts| >= 1
    ensures forall k :: 0 <= k < |parts| ==> sep !in parts[k]
    decreases |s|
  {
    if |s| == 0 then [""]
    else
      var rest := SplitOn(s[1..], sep);
      if s[0] == sep then [""] + rest
      else [[s[0]] + rest[0]] + rest[1..]
  }

  /** Python's `sep.join(parts)`, the inverse of `SplitOn`. */
  function Join(parts: seq<string>, sep: char): string
    requires |parts| >= 1
    decreases |parts|
  {
    if |parts| == 1 then parts[0] else parts[0] + [sep] + Join(parts[1..], sep)
  }

  /** Splitting and joining again gives back the string. */
  lemma {:induction false} JoinSplit(s: string, sep: char)
    ensures Join(SplitOn(s, sep), sep) == s
    decreases |s|
  {
    if |s| > 0 {
      var rest := SplitOn(s[1..], sep);
      JoinSplit(s[1..], sep);
      if s[0] == sep {
        assert SplitOn(s, sep)[1..] == rest;
      } else {
        var parts := SplitOn(s, sep);
        if |rest| == 1 {
          assert parts == [[s[0]] + rest[0]];
        } else {
          assert parts[1..] == rest[1..];
          assert Join(rest, sep) == rest[0] + [sep] + Join(rest[1..], sep);
        }
        assert [s[0]] + s[1..] == s;
      }
    }
  }

  /** Joining pieces free of the separator and splitting again gives back the pieces. */
  lemma {:induction false} SplitJoin(parts: seq<string>, sep: char)
    requires |parts| >= 1
    requires forall k :: 0 <= k < |parts| ==> sep !in parts[k]
    ensures SplitOn(Join(parts, sep), sep) == parts
    decreases |parts|, |parts[0]|
  {
    var p := parts[0];
    if |parts| == 1 {
      SplitNoSep(p, sep);
    } else if p == [] {
      var tail := Join(parts[1..], sep);
      assert Join(parts, sep) == [sep] + tail;
      assert ([sep] + tail)[1..] == tail;
      SplitJoin(parts[1..], sep);
      assert parts == [""] + parts[1..];
    } else {
      var shorter := [p[1..]] + parts[1..];
      assert forall k :: 0 <= k < |shorter| ==> sep !in shorter[k] by {
        assert forall c :: c in p[1..] ==> c in p;
      }
      SplitJoin(shorter, sep);
      assert Join(parts, sep) == [p[0]] + Join(shorter, sep) by {
        assert shorter[1..] == parts[1..];
        assert p == [p[0]] + p[1..];
      }
      assert ([p[0]] + Join(shorter, sep))[1..] == Join(shorter, sep);
      assert [[p[0]] + p[1..]] + parts[1..] == parts;
    }
  }

  /** A string without the separator splits into itself alone. */
  lemma {:induction false} SplitNoSep(s: string, sep: char)
    requires sep !in s
    ensures SplitOn(s, sep) == [s]
    decreases |s|
  {
    if |s| > 0 {
      assert sep !in s[1..] by { assert forall c :: c in s[1..] ==> c in s; }
      SplitNoSep(s[1..], sep);
      assert [s[0]] + s[1..] == s;
    }
  }

  /** Python's `s.split(sep, 1)[0]`: the text before the first `sep`. */
  function BeforeFirst(s: string, sep: char): (r: string)
    ensures |r| <= |s| && r == s[..|r|]
    ensures sep !in r
    ensures |r| < |s| ==> s[|r|] == sep
    decreases |s|
  {
    if |s| == 0 || s[0] == sep then "" else [s[0]] + BeforeFirst(s[1..], sep)
  }

  /** `split(sep, 1)[0]` and `split(sep)[0]` agree. */
  lemma {:induction false} BeforeFirstIsFirstPiece(s: string, sep: char)
    ensures BeforeFirst(s, sep) == SplitOn(s, sep)[0]
    decreases |s|
  {
    if |s| > 0 && s[0] != sep {
      BeforeFirstIsFirstPiece(s[1..], sep);
    }
  }

  /**
   * Lower-casing of one code point. Only ASCII letters are mapped: every
   * comparison the ingestion code makes after `lower()` is against ASCII text
   * ("on", ".heic", ".heics"). Two non-ASCII code points lower-case to text
   * holding an ASCII letter: U+212A KELVIN SIGN to 'k', which none of them
   * uses, and U+0130 to 'i' followed by U+0307, which cannot complete any of
   * them since their 'i' is always followed by 'c'.
   */
  function LowerChar(c: char): char {
    if 'A' <= c <= 'Z' then (c as int - 'A' as int + 'a' as int) as char else c
  }

  /** Python's `s.lower()`, as described at `LowerChar`. */
  function Lower(s: string): (r: string)
    ensures |r| == |s|
    ensures forall k :: 0 <= k < |s| ==> r[k] == LowerChar(s[k])
    decreases |s|
  {
    if |s| == 0 then "" else [LowerChar(s[0])] + Lower(s[1..])
  }

  /** `"on" in s.lower()` holds exactly when some 'o' or 'O' is directly followed by 'n' or 'N'. */
  lemma {:induction false} ContainsOnLower(s: string)
    ensures Contains(Lower(s), "on") <==>
            exists k :: 0 <= k < |s| - 1 && LowerChar(s[k]) == 'o' && LowerChar(s[k + 1]) == 'n'
    decreases |s|
  {
    var l := Lower(s);
    if |s| >= 2 {
      ContainsOnLower(s[1..]);
      assert Lower(s[1..]) == l[1..];
      if StartsWith(l, "on") {
        assert l[..2][0] == 'o' && l[..2][1] == 'n';
      }
      if LowerChar(s[0]) == 'o' && LowerChar(s[1]) == 'n' {
        assert l[..2] == "on";
      }
      if exists k :: 0 <= k < |s| - 1 && LowerChar(s[k]) == 'o' && LowerChar(s[k + 1]) == 'n' {
        var k :| 0 <= k < |s| - 1 && LowerChar(s[k]) == 'o' && LowerChar(s[k + 1]) == 'n';
        if k > 0 {
          assert LowerChar(s[1..][k - 1]) == 'o' && LowerChar(s[1..][k]) == 'n';
        }
      }
      if exists k :: 0 <= k < |s[1..]| - 1 && LowerChar(s[1..][k]) == 'o' && LowerChar(s[1..][k + 1]) == 'n' {
        var k :| 0 <= k < |s[1..]| - 1 && LowerChar(s[1..][k]) == 'o' && LowerChar(s[1..][k + 1]) == 'n';
        assert LowerChar(s[k + 1]) == 'o' && LowerChar(s[k + 2]) == 'n';
      }
    } else if |s| == 1 {
      assert !StartsWith(l, "on");
      assert Lower(s[1..]) == l[1..] == "";
      assert !StartsWith(l[1..], "on");
    }
  }

  predicate IsDigit(c: char) {
    '0' <= c <= '9'
  }

  predicate AllDigits(s: string) {
    forall k :: 0 <= k < |s| ==> IsDigit(s[k])
  }

  /** Index of the first ASCII digit of `s`, or `|s|` when there is none. */
  function FirstDigit(s: string): (i: nat)
    ensures i <= |s|
    ensures forall k :: 0 <= k < i ==> !IsDigit(s[k])
    ensures i < |s| ==> IsDigit(s[i])
    decreases |s|
  {
    if |s| == 0 || IsDigit(s[0]) then 0
    else
      var j := FirstDigit(s[1..]);
      assert forall k :: 1 <= k < 1 + j ==> s[k] == s[1..][k - 1];
      1 + j
  }

  /** Length of the run of ASCII digits at the start of `s`. */
  function DigitRunLength(s: string): (n: nat)
    ensures n <= |s| && AllDigits(s[..n])
    ensures n < |s| ==> !IsDigit(s[n])
    decreases |s|
  {
    if |s| == 0 || !IsDigit(s[0]) then 0
    else
      var m := DigitRunLength(s[1..]);
      assert forall k :: 1 <= k < 1 + m ==> s[k] == s[1..][..m][k - 1];
      1 + m
  }

  /**
   * `re.search(r'[0-9]+', s).group(0)`: the leftmost maximal run of ASCII
   * digits, or None where `re.search` finds no match.
   */
  function FirstDigitRun(s: string): (r: Option<string>)
    ensures r.None? <==> forall k :: 0 <= k < |s| ==> !IsDigit(s[k])
    ensures r.Some? ==>
              && r.value != [] && AllDigits(r.value)
              && FirstDigit(s) + |r.value| <= |s|
              && s[FirstDigit(s)..FirstDigit(s) + |r.value|] == r.value
              && (FirstDigit(s) + |r.value| < |s| ==> !IsDigit(s[FirstDigit(s) + |r.value|]))
  {
    var i := FirstDigit(s);
    if i == |s| then None
    else
      var n := DigitRunLength(s[i..]);
      assert s[i..][..n] == s[i..i + n];
      assert n < |s| - i ==> s[i..][n] == s[i + n];
      Some(s[i..i + n])
  }

  /** Python's `int(ds)` for a string of ASCII digits: its decimal value. */
  function DigitsValue(ds: string): nat
    requires AllDigits(ds)
    decreases |ds|
  {
    if ds == [] then 0
    else 10 * DigitsValue(ds[..|ds| - 1]) + (ds[|ds| - 1] as int - '0' as int)
  }

  /**
   * Python's `int(s)` on a string: after stripping whitespace, an optional
   * sign and ASCII digits, where single underscores may separate digits.
   * None stands for the ValueError `int` raises on anything else.
   */
  function ParseInt(s: string): Option<int> {
    var t := Strip(s);
    var negative := |t| > 0 && t[0] == '-';
    var body := if |t| > 0 && (t[0] == '-' || t[0] == '+') then t[1..] else t;
    if WellFormedDigits(body) then
      var ds := DropUnderscores(body);
      Some(if negative then 0 - DigitsValue(ds) else DigitsValue(ds))
    else None
  }

  /** A plain run of ASCII digits reads as its decimal value. */
  lemma ParseIntDigits(s: string)
    requires s != [] && AllDigits(s)
    ensures ParseInt(s) == Some(DigitsValue(s))
  {
    StripDigits(s);
    DropUnderscoresDigits(s);
  }

  /** Stripping a run of digits leaves it as it is. */
  lemma StripDigits(s: string)
    requires s != [] && AllDigits(s)
    ensures Strip(s) == s
  {
    assert LeadingSpace(s) == 0 by {
      assert !IsSpace(s[0]);
    }
    DigitAfter(s, |Strip(s)|);
  }

  /** Whatever follows position `i` of a run of digits does not start with whitespace. */
  lemma DigitAfter(s: string, i: nat)
    requires AllDigits(s) && i <= |s|
    ensures i < |s| ==> !IsSpace(s[i..][0])
  {
  }

  lemma {:induction false} DropUnderscoresDigits(s: string)
    requires AllDigits(s)
    ensures DropUnderscores(s) == s
    decreases |s|
  {
    if s != [] {
      DropUnderscoresDigits(s[1..]);
      assert [s[0]] + s[1..] == s;
    }
  }

  /** Text without an ASCII digit is rejected. */
  lemma ParseIntNeedsDigit(s: string)
    requires forall k :: 0 <= k < |s| ==> !IsDigit(s[k])
    ensures ParseInt(s).None?
  {
    var t := Strip(s);
    var body := if |t| > 0 && (t[0] == '-' || t[0] == '+') then t[1..] else t;
    if |body| > 0 {
      var i := LeadingSpace(s) + |t| - |body|;
      assert body[0] == s[i];
    }
  }

  /** Digits with single underscores between them, as Python's integer syntax allows. */
  predicate WellFormedDigits(b: string) {
    && |b| > 0 && IsDigit(b[0]) && IsDigit(b[|b| - 1])
    && (forall k :: 0 <= k < |b| ==> IsDigit(b[k]) || b[k] == '_')
    && (forall k :: 0 <= k < |b| - 1 ==> b[k] == '_' ==> b[k + 1] != '_')
  }

  function DropUnderscores(b: string): (ds: string)
    requires forall k :: 0 <= k < |b| ==> IsDigit(b[k]) || b[k] == '_'
    ensures AllDigits(ds) && |ds| <= |b|
    decreases |b|
  {
    if b == [] then ""
    else if b[0] == '_' then DropUnderscores(b[1..])
    else [b[0]] + DropUnderscores(b[1..])
  }

  /** Index of the last `c` in `s`, or -1 (Python's `rfind`). */
  function LastIndexOf(s: string, c: char): (i: int)
    ensures -1 <= i < |s|
    ensures i >= 0 ==> s[i] == c
    ensures forall k :: i < k < |s| ==> s[k] != c
    decreases |s|
  {
    if |s| == 0 then -1
    else if s[|s| - 1] == c then |s| - 1
    else LastIndexOf(s[..|s| - 1], c)
  }

  /**
   * `os.path.splitext(p)[1]` on a POSIX path: from the last '.' of the last
   * path component to the end, provided some character other than '.'
   * precedes that dot within the component; otherwise empty. Any non-empty
   * result is such a suffix, and when the dot qualifies it is the result.
   */
  function Extension(p: string): (r: string)
    ensures r != [] ==>
              && |r| <= |p| && r == p[|p| - |r|..]
              && r[0] == '.' && '.' !in r[1..] && '/' !in r
              && exists k :: LastIndexOf(p, '/') < k < |p| - |r| && p[k] != '.'
    ensures var sep := LastIndexOf(p, '/'); var dot := LastIndexOf(p, '.');
            sep < dot && (exists k :: sep < k < dot && p[k] != '.') ==> r == p[dot..]
  {
    var sep := LastIndexOf(p, '/');
    var dot := LastIndexOf(p, '.');
    if dot > sep && exists k :: sep < k < dot && p[k] != '.' then
      assert forall k :: 1 <= k < |p| - dot ==> p[dot..][k] == p[dot + k];
      p[dot..]
    else ""
  }
}
