/**
 * Worked classifications of sample messages, including the edge cases of the
 * hand-coded regular expressions. Each fact about a sample is its own lemma so
 * that every proof stays small.
 */
module Examples {
  import opened Wrappers
  import opened Text
  import opened CommitTypes
  import opened Patterns
  import opened Classifier

  /** `feat: add login` is a `feat` with no scope, description `add login`, confidence 95. */
  lemma FeatAddLogin(m: string)
    requires m == "feat: add login"
    ensures ClassifyCommit(m) == Ok(Classification(Feat, None, "add login", 95))
  {
    FeatAddLoginFacts(m);
    ConventionalStripped(m, Feat, None, "add login");
  }

  lemma FeatAddLoginFacts(m: string)
    requires m == "feat: add login"
    ensures Strip(m) == m && Matches(Feat, m) && ExtractScope(m) == None
    ensures StripHeader(m) == "add login"
  {
    FeatAddLoginStripped(m);
    FeatAddLoginMatches(m);
    NoParenNoScope(m);
    FeatAddLoginDescription(m);
  }

  lemma FeatAddLoginStripped(m: string)
    requires m == "feat: add login"
    ensures Strip(m) == m
  {
    assert m[0] == 'f' && m[|m| - 1] == 'n';
    StripKeeps(m);
  }

  lemma FeatAddLoginMatches(m: string)
    requires m == "feat: add login"
    ensures Matches(Feat, m)
  {
    assert |m| == 15 && m[4] == ':' && m[14] == 'n';
    assert forall k | 0 <= k < 4 :: LowerChar(m[k]) == "feat"[k];
    KeyColonMatches("feat", m);
  }

  lemma FeatAddLoginDescription(m: string)
    requires m == "feat: add login"
    ensures StripHeader(m) == "add login"
  {
    StripHeaderAt(m, 4, 1);
    assert m[6..] == "add login";
  }

  /** `fix(api): resolve bug` is a `fix` with scope `api`, description `resolve bug`, confidence 95. */
  lemma FixWithScope(m: string)
    requires m == "fix(api): resolve bug"
    ensures ClassifyCommit(m) == Ok(Classification(Fix, Some("api"), "resolve bug", 95))
  {
    FixWithScopeFacts(m);
    ConventionalStripped(m, Fix, Some("api"), "resolve bug");
  }

  lemma FixWithScopeFacts(m: string)
    requires m == "fix(api): resolve bug"
    ensures Strip(m) == m && Matches(Fix, m)
    ensures ExtractScope(m) == Some("api")
    ensures StripHeader(m) == "resolve bug"
  {
    FixWithScopeStripped(m);
    FixWithScopeMatches(m);
    FixWithScopeParts(m);
  }

  lemma FixWithScopeStripped(m: string)
    requires m == "fix(api): resolve bug"
    ensures Strip(m) == m
  {
    assert m[0] == 'f' && m[|m| - 1] == 'g';
    StripKeeps(m);
  }

  lemma FixWithScopeMatches(m: string)
    requires m == "fix(api): resolve bug"
    ensures Matches(Fix, m)
  {
    FixScopeShape(m);
    assert m[8] == ':' && m[|m| - 1] == 'g';
    assert forall k | 0 <= k < 3 :: LowerChar(m[k]) == "fix"[k];
    KeyGroupMatches("fix", m, 7);
  }

  lemma FixWithScopeParts(m: string)
    requires m == "fix(api): resolve bug"
    ensures ExtractScope(m) == Some("api")
    ensures StripHeader(m) == "resolve bug"
  {
    FixScope(m);
    FixDescription(m);
  }

  lemma FixScope(m: string)
    requires m == "fix(api): resolve bug"
    ensures ExtractScope(m) == Some("api")
  {
    FixScopeShape(m);
    ScopeAt(m, 3, 7);
  }

  lemma FixScopeShape(m: string)
    requires m == "fix(api): resolve bug"
    ensures 3 + 2 <= 7 < |m| && m[3] == '(' && m[7] == ')'
    ensures '(' !in m[..3]
    ensures forall k | 3 < k < 7 :: m[k] != ')'
    ensures m[4..7] == "api"
  {
    assert m[..3] == "fix";
  }

  lemma FixDescription(m: string)
    requires m == "fix(api): resolve bug"
    ensures StripHeader(m) == "resolve bug"
  {
    StripHeaderAt(m, 8, 1);
    assert m[10..] == "resolve bug";
  }

  /** The colon need not be followed by a space. */
  lemma NoSpaceAfterColon(m: string)
    requires m == "feat:x"
    ensures Matches(Feat, m)
  {
    KeyColonMatches("feat", m);
  }

  /** The scope is searched for anywhere: `feat: add (x)` has scope `x`. */
  lemma ScopeAnywhere(m: string)
    requires m == "feat: add (x)"
    ensures Matches(Feat, m)
    ensures ExtractScope(m) == Some("x")
  {
    ScopeAnywhereMatches(m);
    ScopeAnywhereShape(m);
    ScopeAt(m, 10, 12);
  }

  lemma ScopeAnywhereMatches(m: string)
    requires m == "feat: add (x)"
    ensures Matches(Feat, m)
  {
    assert |m| == 13 && m[4] == ':' && m[12] == ')';
    assert forall k | 0 <= k < 4 :: LowerChar(m[k]) == "feat"[k];
    KeyColonMatches("feat", m);
  }

  lemma ScopeAnywhereShape(m: string)
    requires m == "feat: add (x)"
    ensures 10 + 2 <= 12 < |m| && m[10] == '(' && m[12] == ')'
    ensures '(' !in m[..10]
    ensures forall k | 10 < k < 12 :: m[k] != ')'
    ensures m[11..12] == "x"
  {
    assert m[..10] == "feat: add ";
  }

  /** A colon inside the scope is where the description starts: `feat(a:b): x` gives `b): x`. */
  lemma ColonInScope(m: string)
    requires m == "feat(a:b): x"
    ensures Matches(Feat, m)
    ensures StripHeader(m) == "b): x"
  {
    ColonInScopeMatches(m);
    ColonInScopeDescription(m);
  }

  lemma ColonInScopeMatches(m: string)
    requires m == "feat(a:b): x"
    ensures Matches(Feat, m)
  {
    assert |m| == 12 && m[4] == '(' && m[8] == ')' && m[9] == ':' && m[11] == 'x';
    assert forall k | 4 < k < 8 :: m[k] != ')';
    assert forall k | 0 <= k < 4 :: LowerChar(m[k]) == "feat"[k];
    KeyGroupMatches("feat", m, 8);
  }

  lemma ColonInScopeDescription(m: string)
    requires m == "feat(a:b): x"
    ensures StripHeader(m) == "b): x"
  {
    StripHeaderAt(m, 6, 0);
    assert m[7..] == "b): x";
  }

  /**
   * On a raw message `.+` can consume trailing whitespace: `feat: ` matches the
   * pattern, `feat:` followed by a newline does not.
   */
  lemma TrailingSpaceTail(m1: string, m2: string)
    requires m1 == "feat: " && m2 == "feat:\n"
    ensures Matches(Feat, m1)
    ensures !Matches(Feat, m2)
  {
    KeyColonMatches("feat", m1);
    var t := m2[5..];
    assert t == "\n";
    TailMatchesIff(t);
    assert m2[4..][1..] == t;
  }

  /** Empty and whitespace-only messages are rejected. */
  lemma EmptyRejected(m1: string, m2: string)
    requires m1 == "" && m2 == "   "
    ensures ClassifyCommit(m1) == Err(EmptyMessage)
    ensures ClassifyCommit(m2) == Err(EmptyMessage)
  {
    assert AllSpace(m2);
  }
}
