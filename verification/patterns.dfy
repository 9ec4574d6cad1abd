/**
 * The three regular expressions the classifier applies, hand-coded:
 *  - each type's pattern `^<key>(\([^)]+\))?:\s*.+`, matched with
 *    `re.IGNORECASE` (`Matches`);
 *  - the scope search `\(([^)]+)\)` (`ExtractScope`);
 *  - the header removal `re.sub(r'^[^:]+:\s*', '', m)` (`StripHeader`).
 */
module Patterns {
  import opened Wrappers
  import opened Text
  import opened CommitTypes

  /** `\s*.+` anchored at the start of `t`: whitespace, then a character `.` accepts (anything but a newline). */
  predicate TailMatches(t: string)
  {
    exists k | 0 <= k < |t| :: AllSpace(t[..k]) && t[k] != '\n'
  }

  /** `:\s*.+` anchored at the start of `s`. */
  predicate ColonTail(s: string)
  {
    |s| > 0 && s[0] == ':' && TailMatches(s[1..])
  }

  /** Where the first `)` after an opening parenthesis at `p` sits (`|s|` when there is none). */
  function GroupClose(s: string, p: nat): (q: nat)
    requires p < |s|
    ensures p < q <= |s|
    ensures forall k | p < k < q :: s[k] != ')'
    ensures q < |s| ==> s[q] == ')'
  {
    var q := p + 1 + IndexOf(s[p + 1..], ')');
    assert forall k | p < k < q :: s[k] == s[p + 1..][k - p - 1];
    q
  }

  /** `\([^)]+\)` matches at position `p`: a `(`, one or more characters other than `)`, a `)`. */
  predicate GroupAt(s: string, p: int)
  {
    0 <= p < |s| && s[p] == '(' && p + 2 <= GroupClose(s, p) < |s|
  }

  /** The text between the parentheses of a group at `p` (the regex's capture group). */
  function GroupContents(s: string, p: int): (g: string)
    requires GroupAt(s, p)
    ensures |g| > 0 && ')' !in g
  {
    s[p + 1..GroupClose(s, p)]
  }

  /** `(\([^)]+\))?:\s*.+` anchored at the start of `rest`: the group alternative is tried first. */
  predicate AfterName(rest: string)
  {
    (GroupAt(rest, 0) && ColonTail(rest[GroupClose(rest, 0) + 1..])) || ColonTail(rest)
  }

  /** `^<key>(\([^)]+\))?:\s*.+` with `re.IGNORECASE`, for a key written in lowercase. */
  predicate MatchesKey(key: string, m: string)
    ensures MatchesKey(key, m) ==> |key| + 2 <= |m| && (m[|key|] == '(' || m[|key|] == ':')
  {
    |key| <= |m| && Lower(m[..|key|]) == key && AfterName(m[|key|..])
  }

  /** The pattern of type `t`, matched case-insensitively at the start of `m`. */
  predicate Matches(t: CommitType, m: string)
    ensures Matches(t, m) ==> |Name(t)| + 2 <= |m| && (m[|Name(t)|] == '(' || m[|Name(t)|] == ':')
  {
    MatchesKey(Name(t), m)
  }

  /** A non-empty key made of the letters `a` to `z`. */
  predicate IsKey(key: string)
  {
    |key| > 0 && forall k | 0 <= k < |key| :: IsLowerLetter(key[k])
  }

  /** The key read case-insensitively at the start of `m`. */
  lemma KeyPrefix(key: string, m: string)
    requires |key| <= |m|
    requires forall k | 0 <= k < |key| :: LowerChar(m[k]) == key[k]
    ensures Lower(m[..|key|]) == key
  {
  }

  /**
   * `<key>:` followed by text that does not end in a newline matches: the
   * colon need not be followed by a space.
   */
  lemma KeyColonMatches(key: string, m: string)
    requires |key| + 1 < |m| && m[|key|] == ':' && m[|m| - 1] != '\n'
    requires forall k | 0 <= k < |key| :: LowerChar(m[k]) == key[k]
    ensures MatchesKey(key, m)
  {
    KeyPrefix(key, m);
    var rest := m[|key|..];
    var t := rest[1..];
    assert t[|t| - 1] == m[|m| - 1];
    TailMatchesIff(t);
  }

  /** The group opened at `p` closes at `q` when `q` holds the first `)` after `p`. */
  lemma GroupCloseAt(s: string, p: nat, q: nat)
    requires p < q < |s| && s[q] == ')'
    requires forall k | p < k < q :: s[k] != ')'
    ensures GroupClose(s, p) == q
  {
    IndexOfAt(s[p + 1..], ')', q - p - 1);
  }

  /**
   * `<key>(<scope>):` followed by text that does not end in a newline matches,
   * for a non-empty scope without `)`.
   */
  lemma KeyGroupMatches(key: string, m: string, q: nat)
    requires |key| + 2 <= q && q + 2 < |m|
    requires m[|key|] == '(' && m[q] == ')' && m[q + 1] == ':' && m[|m| - 1] != '\n'
    requires forall k | |key| < k < q :: m[k] != ')'
    requires forall k | 0 <= k < |key| :: LowerChar(m[k]) == key[k]
    ensures MatchesKey(key, m)
  {
    KeyPrefix(key, m);
    var rest := m[|key|..];
    GroupCloseAt(rest, 0, q - |key|);
    var after := rest[q - |key| + 1..];
    assert after == m[q + 1..];
    var t := after[1..];
    assert t[|t| - 1] == m[|m| - 1];
    TailMatchesIff(t);
  }

  /** What follows a matched key is `(` or `:`, never a letter. */
  lemma AfterNameStart(rest: string)
    requires AfterName(rest)
    ensures |rest| > 0 && (rest[0] == '(' || rest[0] == ':')
  {
  }

  /**
   * At most one type's pattern matches a message: every key is made of letters,
   * and a key must be followed by `(` or `:`, so no key can match where a longer
   * one does. The order in which the table is tried therefore never matters.
   */
  lemma MatchUnique(t: CommitType, u: CommitType, m: string)
    requires Matches(t, m) && Matches(u, m)
    ensures t == u
  {
    var a, b := Name(t), Name(u);
    assert IsKey(a) && IsKey(b);
    assert MatchesKey(a, m) && MatchesKey(b, m);
    if |a| <= |b| {
      KeyMatchUnique(a, b, m);
    } else {
      KeyMatchUnique(b, a, m);
    }
    NameInjective(t, u);
  }

  /** Two letter keys whose patterns both match the same message are the same key. */
  lemma KeyMatchUnique(k1: string, k2: string, m: string)
    requires IsKey(k1) && IsKey(k2) && |k1| <= |k2|
    requires MatchesKey(k1, m) && MatchesKey(k2, m)
    ensures k1 == k2
  {
    forall k | 0 <= k < |k1|
      ensures k1[k] == k2[k]
    {
      assert k1[k] == Lower(m[..|k1|])[k] == LowerChar(m[k]);
      assert k2[k] == Lower(m[..|k2|])[k] == LowerChar(m[k]);
    }
    if |k1| < |k2| {
      assert false;
    }
  }

  /** `\s*.+` succeeds exactly when `t` has some character other than a newline. */
  lemma TailMatchesIff(t: string)
    ensures TailMatches(t) <==> exists k | 0 <= k < |t| :: t[k] != '\n'
  {
    if k :| 0 <= k < |t| && t[k] != '\n' {
      var j := FirstNonNewline(t);
      assert AllSpace(t[..j]) by {
        forall i | 0 <= i < j
          ensures IsSpace(t[..j][i])
        {
          assert t[..j][i] == t[i] == '\n';
        }
      }
    }
  }

  /** Position of the first character of `t` that is not a newline (`|t|` if none). */
  function FirstNonNewline(t: string): (j: nat)
    ensures j <= |t|
    ensures forall i | 0 <= i < j :: t[i] == '\n'
    ensures j < |t| ==> t[j] != '\n'
  {
    if |t| == 0 || t[0] != '\n' then 0 else 1 + FirstNonNewline(t[1..])
  }

  /** On a stripped message the tail succeeds exactly when something follows. */
  lemma StrippedTailMatches(t: string)
    requires t != [] && !IsSpace(t[|t| - 1])
    ensures TailMatches(t)
  {
    TailMatchesIff(t);
  }

  /** First position at or after `from` where a parenthesised group starts, as `re.search` scans. */
  function FindGroup(s: string, from: nat): (r: Option<nat>)
    decreases |s| - from
    ensures r.Some? ==> from <= r.value && GroupAt(s, r.value)
    ensures r.Some? ==> forall p | from <= p < r.value :: !GroupAt(s, p)
    ensures r.None? ==> forall p | from <= p < |s| :: !GroupAt(s, p)
  {
    if from >= |s| then None
    else if GroupAt(s, from) then Some(from)
    else FindGroup(s, from + 1)
  }

  /** `p` is the leftmost position where the scope search can match. */
  ghost predicate IsFirstGroup(s: string, p: int)
  {
    GroupAt(s, p) && forall q | 0 <= q < p :: !GroupAt(s, q)
  }

  /**
   * `extract_scope`: the contents of the leftmost `(...)` group with non-empty,
   * `)`-free contents anywhere in `m`, or `None` when there is no such group.
   */
  function ExtractScope(m: string): (r: Option<string>)
    ensures r.None? <==> forall p | 0 <= p < |m| :: !GroupAt(m, p)
    ensures forall p | 0 <= p < |m| :: IsFirstGroup(m, p) ==> r == Some(GroupContents(m, p))
  {
    match FindGroup(m, 0)
    case None => None
    case Some(p) => Some(GroupContents(m, p))
  }

  /**
   * The scope is the group at `p` when no `(` comes before it and `q` holds the
   * first `)` after it.
   */
  lemma ScopeAt(m: string, p: nat, q: nat)
    requires p + 2 <= q < |m| && m[p] == '(' && m[q] == ')'
    requires '(' !in m[..p]
    requires forall k | p < k < q :: m[k] != ')'
    ensures ExtractScope(m) == Some(m[p + 1..q])
  {
    GroupCloseAt(m, p, q);
    forall k | 0 <= k < p
      ensures !GroupAt(m, k)
    {
      assert m[..p][k] == m[k];
    }
    assert IsFirstGroup(m, p);
  }

  /** With no `(` in the message there is no scope. */
  lemma NoParenNoScope(m: string)
    requires '(' !in m
    ensures ExtractScope(m) == None
  {
  }

  /** `[^:]+:\s*`: a non-empty colon-free run, a colon, then only whitespace. */
  ghost predicate IsHeader(h: string)
  {
    exists c | 0 < c < |h| :: h[c] == ':' && (forall k | 0 <= k < c :: h[k] != ':') && AllSpace(h[c + 1..])
  }

  /**
   * `re.sub(r'^[^:]+:\s*', '', m)`: when `m` has a colon that is not its first
   * character, everything up to the first colon and the whitespace after it is
   * cut off; otherwise `m` is returned unchanged.
   */
  function StripHeader(m: string): (r: string)
    ensures EndsWith(m, r)
    ensures (|m| == 0 || m[0] == ':' || ':' !in m) ==> r == m
    ensures |m| > 0 && m[0] != ':' && ':' in m ==> IsHeader(m[..|m| - |r|]) && (r == [] || !IsSpace(r[0]))
  {
    var c := IndexOf(m, ':');
    if c == 0 || c == |m| then m
    else
      var rest := m[c + 1..];
      var w := LeadingSpace(rest);
      var r := rest[w..];
      assert r == m[|m| - |r|..];
      assert IsHeader(m[..|m| - |r|]) by {
        var h := m[..|m| - |r|];
        assert h[c] == ':';
        assert h[c + 1..] == rest[..w];
      }
      r
  }

  /**
   * The header removal cuts at the first colon `c` and the `w` whitespace
   * characters after it.
   */
  lemma StripHeaderAt(m: string, c: nat, w: nat)
    requires 0 < c && c + 1 + w <= |m| && m[c] == ':'
    requires forall k | 0 <= k < c :: m[k] != ':'
    requires forall k | c < k <= c + w :: IsSpace(m[k])
    requires c + 1 + w == |m| || !IsSpace(m[c + 1 + w])
    ensures StripHeader(m) == m[c + 1 + w..]
  {
    IndexOfAt(m, ':', c);
    var rest := m[c + 1..];
    assert AllSpace(rest[..w]) by {
      forall k | 0 <= k < w
        ensures IsSpace(rest[..w][k])
      {
        assert rest[..w][k] == m[c + 1 + k];
      }
    }
    if w == |rest| {
      assert rest[..w] == rest;
      LeadingSpaceAll(rest);
    } else {
      assert rest[w] == m[c + 1 + w];
      LeadingSpaceAt(rest, w);
    }
  }

  /**
   * In a message that a type's pattern matches and that carries no trailing
   * whitespace, the header removal leaves a non-empty description.
   */
  lemma ConventionalDescription(t: CommitType, m: string)
    requires Matches(t, m)
    requires !IsSpace(m[|m| - 1])
    ensures var d := StripHeader(m); d != [] && !IsSpace(d[0]) && EndsWith(m, d)
    ensures IsHeader(m[..|m| - |StripHeader(m)|])
  {
    KeyDescription(Name(t), m);
  }

  lemma KeyDescription(key: string, m: string)
    requires IsKey(key) && MatchesKey(key, m)
    requires !IsSpace(m[|m| - 1])
    ensures StripHeader(m) != []
    ensures m[0] != ':' && ':' in m
  {
    var n := |key|;
    assert m[0] != ':' by {
      assert LowerChar(m[0]) == Lower(m[..n])[0] == key[0];
    }
    var p := n + PatternColon(m[n..]);
    assert m[p] == ':' by {
      assert m[n..][p - n] == m[p];
    }
    HeaderLeavesText(m, p);
  }

  /** A colon with text after it, in a message ending in non-whitespace, leaves a description. */
  lemma HeaderLeavesText(m: string, p: nat)
    requires p + 1 < |m| && m[p] == ':' && m[0] != ':'
    requires !IsSpace(m[|m| - 1])
    ensures StripHeader(m) != []
  {
    var c := IndexOf(m, ':');
    assert 0 < c <= p;
    var rest := m[c + 1..];
    assert rest[|rest| - 1] == m[|m| - 1];
    assert LeadingSpace(rest) < |rest|;
  }

  /** Where the colon the pattern requires sits after the key; something always follows it. */
  function PatternColon(rest: string): (i: nat)
    requires AfterName(rest)
    ensures i + 1 < |rest| && rest[i] == ':'
  {
    if ColonTail(rest) then 0
    else
      var q := GroupClose(rest, 0);
      assert rest[q + 1..][0] == rest[q + 1];
      q + 1
  }

  /**
   * When the pattern's optional group is present, `extract_scope` finds that same
   * group: nothing before it can open one, as the key is made of letters.
   */
  lemma ConventionalScope(t: CommitType, m: string)
    requires Matches(t, m)
    requires m[|Name(t)|] == '('
    ensures GroupAt(m, |Name(t)|)
    ensures ExtractScope(m) == Some(GroupContents(m, |Name(t)|))
  {
    var n := |Name(t)|;
    var rest := m[n..];
    assert rest[0] == '(';
    assert GroupAt(rest, 0);
    assert GroupClose(m, n) == n + GroupClose(rest, 0) by {
      assert m[n + 1..] == rest[1..];
    }
    forall q | 0 <= q < n
      ensures !GroupAt(m, q)
    {
      assert LowerChar(m[q]) == Lower(m[..n])[q] == Name(t)[q];
    }
    assert IsFirstGroup(m, n);
  }
}
