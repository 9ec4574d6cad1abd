/**
 * The string primitives the classifier relies on: Python's whitespace class
 * (used by `str.strip`, `str.split` and the regular-expression class `\s`),
 * ASCII case mapping (`str.lower`, `re.IGNORECASE`, `str.isupper`), prefix
 * tests and substring containment (`kw in s`).
 */
module Text {

  /** Python's `str.isspace` for one character. */
  predicate IsSpace(c: char)
  {
    var n := c as int;
    (9 <= n <= 13) || (28 <= n <= 32) || n == 0x85 || n == 0xA0 || n == 0x1680
    || (0x2000 <= n <= 0x200A) || n == 0x2028 || n == 0x2029 || n == 0x202F
    || n == 0x205F || n == 0x3000
  }

  predicate AllSpace(s: string)
  {
    forall k | 0 <= k < |s| :: IsSpace(s[k])
  }

  predicate NoSpace(s: string)
  {
    forall k | 0 <= k < |s| :: !IsSpace(s[k])
  }

  /** Number of whitespace characters at the start of `s`. */
  function LeadingSpace(s: string): (n: nat)
    ensures n <= |s|
    ensures AllSpace(s[..n])
    ensures n == |s| || !IsSpace(s[n])
  {
    if |s| > 0 && IsSpace(s[0]) then 1 + LeadingSpace(s[1..]) else 0
  }

  /** Number of whitespace characters at the end of `s`. */
  function TrailingSpace(s: string): (n: nat)
    ensures n <= |s|
    ensures AllSpace(s[|s| - n..])
    ensures n == |s| || !IsSpace(s[|s| - n - 1])
  {
    if |s| > 0 && IsSpace(s[|s| - 1]) then 1 + TrailingSpace(s[..|s| - 1]) else 0
  }

  /** Number of non-whitespace characters at the start of `s`. */
  function LeadingWord(s: string): (n: nat)
    ensures n <= |s|
    ensures NoSpace(s[..n])
    ensures n == |s| || IsSpace(s[n])
  {
    if |s| > 0 && !IsSpace(s[0]) then 1 + LeadingWord(s[1..]) else 0
  }

  /** Position of the first `c` in `s`, or `|s|` when `c` does not occur. */
  function IndexOf(s: string, c: char): (i: nat)
    ensures i <= |s|
    ensures forall k | 0 <= k < i :: s[k] != c
    ensures i < |s| ==> s[i] == c
  {
    if |s| == 0 || s[0] == c then 0 else 1 + IndexOf(s[1..], c)
  }

  /** Python's `str.strip()` with no argument. */
  function Strip(s: string): (r: string)
    ensures |r| <= |s|
    ensures r == [] <==> AllSpace(s)
    ensures r != [] ==> !IsSpace(r[0]) && !IsSpace(r[|r| - 1])
    ensures IsTrimmedInfix(r, s)
  {
    var a := LeadingSpace(s);
    var t := s[a..];
    var n := TrailingSpace(t);
    var b := |t| - n;
    assert t[|t| - n..] == s[a + b..];
    assert b > 0 ==> t[b - 1] == s[a + b - 1];
    StripParts(s, a, b);
    assert t[..b] == s[a..a + b];
    t[..b]
  }

  /**
   * Whitespace before `a`, whitespace from `a + b` on, and non-whitespace at
   * both ends of what lies between: the part between is what `Strip` promises.
   */
  lemma StripParts(s: string, a: nat, b: nat)
    requires a + b <= |s|
    requires AllSpace(s[..a]) && (a == |s| || !IsSpace(s[a]))
    requires AllSpace(s[a + b..]) && (b == 0 || !IsSpace(s[a + b - 1]))
    ensures s[a..a + b] == [] <==> AllSpace(s)
    ensures b > 0 ==> !IsSpace(s[a..a + b][0]) && !IsSpace(s[a..a + b][b - 1])
    ensures IsTrimmedInfix(s[a..a + b], s)
  {
    if b == 0 {
      if a < |s| {
        assert false;
      }
      assert s[..a] == s;
    } else if AllSpace(s) {
      assert false;
    }
    TrimmedInfixAt(s[a..a + b], s, a);
  }

  /** A witness for `IsTrimmedInfix`. */
  lemma TrimmedInfixAt(r: string, s: string, i: nat)
    requires i + |r| <= |s| && s[i..i + |r|] == r
    requires AllSpace(s[..i]) && AllSpace(s[i + |r|..])
    ensures IsTrimmedInfix(r, s)
  {
  }

  /** A string whose two halves are whitespace is whitespace. */
  lemma AllSpaceSplit(s: string, a: nat)
    requires a <= |s|
    ensures AllSpace(s[..a]) && AllSpace(s[a..]) ==> AllSpace(s)
  {
    if AllSpace(s[..a]) && AllSpace(s[a..]) {
      forall k | 0 <= k < |s|
        ensures IsSpace(s[k])
      {
        if k < a {
          assert s[..a][k] == s[k];
        } else {
          assert s[a..][k - a] == s[k];
        }
      }
    }
  }

  /** `r` is `s` with some all-whitespace prefix and suffix removed. */
  ghost predicate IsTrimmedInfix(r: string, s: string)
  {
    exists i | 0 <= i <= |s| - |r| ::
      && s[i..i + |r|] == r
      && AllSpace(s[..i])
      && AllSpace(s[i + |r|..])
  }

  /**
   * `Strip` is the only trimmed infix of `s` that neither begins nor ends with
   * whitespace: any other way of cutting whitespace off both ends gives the same
   * string.
   */
  lemma StripUnique(s: string, r: string)
    requires IsTrimmedInfix(r, s)
    requires r != [] ==> !IsSpace(r[0]) && !IsSpace(r[|r| - 1])
    ensures r == Strip(s)
  {
    var i :| 0 <= i <= |s| - |r| && s[i..i + |r|] == r && AllSpace(s[..i]) && AllSpace(s[i + |r|..]);
    if r == [] {
      assert s[i..] == s[i + |r|..];
      AllSpaceSplit(s, i);
    } else {
      assert s[i] == r[0] && s[i + |r| - 1] == r[|r| - 1];
      StripAt(s, i, |r|);
    }
  }

  /** With whitespace exactly before `i` and from `i + n` on, `Strip` keeps `s[i..i + n]`. */
  lemma StripAt(s: string, i: nat, n: nat)
    requires 0 < n && i + n <= |s|
    requires AllSpace(s[..i]) && !IsSpace(s[i])
    requires AllSpace(s[i + n..]) && !IsSpace(s[i + n - 1])
    ensures Strip(s) == s[i..i + n]
  {
    LeadingSpaceAt(s, i);
    var t := s[i..];
    assert t[n..] == s[i + n..];
    assert t[n - 1] == s[i + n - 1];
    TrailingSpaceAt(t, n);
    assert t[..n] == s[i..i + n];
  }

  /** The leading whitespace ends at the first non-whitespace character. */
  lemma LeadingSpaceAt(s: string, i: nat)
    requires i < |s| && AllSpace(s[..i]) && !IsSpace(s[i])
    ensures LeadingSpace(s) == i
  {
  }

  /** A string made only of whitespace is all leading whitespace. */
  lemma LeadingSpaceAll(s: string)
    requires AllSpace(s)
    ensures LeadingSpace(s) == |s|
  {
    var a := LeadingSpace(s);
    if a < |s| {
      assert IsSpace(s[a]);
    }
  }

  /** The first occurrence of `c` is at `i` when `s[i]` is `c` and nothing before is. */
  lemma IndexOfAt(s: string, c: char, i: nat)
    requires i < |s| && s[i] == c
    requires forall k | 0 <= k < i :: s[k] != c
    ensures IndexOf(s, c) == i
  {
  }

  /** The trailing whitespace starts after the last non-whitespace character. */
  lemma TrailingSpaceAt(t: string, m: nat)
    requires 0 < m <= |t| && AllSpace(t[m..]) && !IsSpace(t[m - 1])
    ensures TrailingSpace(t) == |t| - m
  {
  }

  /** Stripping is idempotent. */
  lemma StripIdempotent(s: string)
    ensures Strip(Strip(s)) == Strip(s)
  {
    var r := Strip(s);
    assert r[0..0 + |r|] == r;
    assert r[..0] == [] && r[0 + |r|..] == [];
    StripUnique(r, r);
  }

  /** A string that neither begins nor ends with whitespace is its own strip. */
  lemma StripKeeps(s: string)
    requires s != [] && !IsSpace(s[0]) && !IsSpace(s[|s| - 1])
    ensures Strip(s) == s
  {
    assert s[0..0 + |s|] == s;
    assert s[..0] == [] && s[0 + |s|..] == [];
    StripUnique(s, s);
  }

  /** ASCII `str.lower()` for one character. */
  function LowerChar(c: char): (d: char)
    ensures 'A' <= c <= 'Z' ==> 'a' <= d <= 'z'
    ensures !('A' <= c <= 'Z') ==> d == c
  {
    if 'A' <= c <= 'Z' then (c as int + 32) as char else c
  }

  /** ASCII `str.lower()`: same length, each character lowered in place. */
  function Lower(s: string): (r: string)
    ensures |r| == |s|
    ensures forall k | 0 <= k < |s| :: r[k] == LowerChar(s[k])
    ensures forall k | 0 <= k < |r| :: !IsUpper(r[k])
    ensures forall k | 0 <= k < |s| && !IsUpper(s[k]) :: r[k] == s[k]
  {
    seq(|s|, k requires 0 <= k < |s| => LowerChar(s[k]))
  }

  /** ASCII `str.isupper()` for one character. */
  predicate IsUpper(c: char)
  {
    'A' <= c <= 'Z'
  }

  predicate IsLowerLetter(c: char)
  {
    'a' <= c <= 'z'
  }

  /** `s` ends with `t`. */
  predicate EndsWith(s: string, t: string)
  {
    |t| <= |s| && s[|s| - |t|..] == t
  }

  /** Python's `s.startswith(p)`. */
  predicate StartsWith(s: string, p: string)
  {
    |p| <= |s| && s[..|p|] == p
  }

  /** Python's `needle in haystack`, scanning start positions left to right. */
  predicate Contains(haystack: string, needle: string)
    ensures |needle| == 0 ==> Contains(haystack, needle)
    ensures Contains(haystack, needle) ==> |needle| <= |haystack|
    decreases |haystack|
  {
    StartsWith(haystack, needle) || (|haystack| > 0 && Contains(haystack[1..], needle))
  }

  /** `needle` occurs at some position of `haystack`. */
  ghost predicate OccursAt(haystack: string, needle: string, i: int)
  {
    0 <= i <= |haystack| - |needle| && haystack[i..i + |needle|] == needle
  }

  /** The scanning `Contains` agrees with the positional definition of a substring. */
  lemma {:induction false} ContainsIff(haystack: string, needle: string)
    ensures Contains(haystack, needle) <==> exists i :: OccursAt(haystack, needle, i)
    decreases |haystack|
  {
    if StartsWith(haystack, needle) {
      assert OccursAt(haystack, needle, 0);
    } else if |haystack| == 0 {
    } else {
      var tail := haystack[1..];
      ContainsIff(tail, needle);
      if Contains(tail, needle) {
        var i :| OccursAt(tail, needle, i);
        assert haystack[i + 1..i + 1 + |needle|] == tail[i..i + |needle|];
        assert OccursAt(haystack, needle, i + 1);
      }
      forall i | OccursAt(haystack, needle, i)
        ensures Contains(tail, needle)
      {
        if i > 0 {
          assert tail[i - 1..i - 1 + |needle|] == haystack[i..i + |needle|];
          assert OccursAt(tail, needle, i - 1);
        }
      }
    }
  }
}
