/**
 * `classify_commit`: strip the message, reject it if nothing is left, try every
 * type's conventional pattern in table order, and fall back to keyword
 * scoring when none matches.
 */
module Classifier {
  import opened Wrappers
  import opened Text
  import opened CommitTypes
  import opened Patterns
  import opened Scoring

  /** The dictionary `classify_commit` returns; `confidence` is in hundredths. */
  datatype Classification = Classification(
    kind: CommitType,
    scope: Option<string>,
    description: string,
    confidence: nat)

  /** The only way classification fails: the 400 "Empty commit message". */
  datatype ClassifyError = EmptyMessage

  /** The first loop of `classify_commit` from entry `i` on: the first type whose pattern matches. */
  function FirstConventional(m: string, i: nat): (r: Option<CommitType>)
    requires i <= |AllTypes|
    ensures r.Some? ==> Matches(r.value, m)
    ensures r.None? ==> forall j | i <= j < |AllTypes| :: !Matches(AllTypes[j], m)
    decreases |AllTypes| - i
  {
    if i == |AllTypes| then None
    else
      var t := AllTypes[i];
      if Matches(t, m) then Some(t)
      else
        var r := FirstConventional(m, i + 1);
        assert r.None? ==> forall j | i < j < |AllTypes| :: !Matches(AllTypes[j], m);
        r
  }

  /**
   * The first loop finds a type exactly when some type's pattern matches, and
   * then it finds that type, whatever its place in the table.
   */
  lemma FirstConventionalFinds(m: string, t: CommitType)
    requires Matches(t, m)
    ensures FirstConventional(m, 0) == Some(t)
  {
    assert AllTypes[Index(t)] == t;
    var r := FirstConventional(m, 0);
    MatchUnique(r.value, t, m);
  }

  /** Some type's pattern matches `m`. */
  ghost predicate IsConventional(m: string)
  {
    exists t: CommitType :: Matches(t, m)
  }

  /** When the first loop finds nothing, no type's pattern matches. */
  lemma NoneConventional(m: string)
    requires FirstConventional(m, 0).None?
    ensures forall u: CommitType :: !Matches(u, m)
    ensures !IsConventional(m)
  {
    forall u: CommitType
      ensures !Matches(u, m)
    {
      assert AllTypes[Index(u)] == u;
    }
  }

  /** `classify_commit(message)`. */
  function ClassifyCommit(message: string): (r: Result<Classification, ClassifyError>)
    ensures r.Err? <==> AllSpace(message)
    ensures r.Ok? ==> r.value.confidence in {50, 70, 80, 90, 95}
    ensures r.Ok? ==> (r.value.confidence == 95 <==> IsConventional(Strip(message)))
    ensures r.Ok? ==> r.value.description != [] && !IsSpace(r.value.description[0])
    ensures r.Ok? ==> EndsWith(Strip(message), r.value.description)
  {
    var m := Strip(message);
    if m == [] then Err(EmptyMessage)
    else
      match FirstConventional(m, 0)
      case Some(t) =>
        ConventionalDescription(t, m);
        Ok(Classification(t, ExtractScope(m), StripHeader(m), 95))
      case None =>
        NoneConventional(m);
        FallbackBelowConventional(m);
        var (t, c) := KeywordFallback(m);
        Ok(Classification(t, None, m, c))
  }

  /**
   * A conventional message: the type is the one whose pattern matches, the
   * scope is whatever the scope search finds anywhere in the message, the
   * description is the message after its first colon and the whitespace that
   * follows, and the confidence is 95.
   */
  lemma ConventionalClassification(message: string, t: CommitType)
    requires Matches(t, Strip(message))
    ensures var m := Strip(message);
      ClassifyCommit(message) == Ok(Classification(t, ExtractScope(m), StripHeader(m), 95))
  {
    FirstConventionalFinds(Strip(message), t);
  }

  /** The conventional rule, for a message that is already stripped. */
  lemma ConventionalStripped(m: string, t: CommitType, scope: Option<string>, description: string)
    requires Strip(m) == m && Matches(t, m)
    requires ExtractScope(m) == scope && StripHeader(m) == description
    ensures ClassifyCommit(m) == Ok(Classification(t, scope, description, 95))
  {
    ConventionalClassification(m, t);
  }

  /**
   * With a scope right after the type, the classification's scope is that
   * group's contents.
   */
  lemma ConventionalScopeAfterType(message: string, t: CommitType)
    requires Matches(t, Strip(message))
    requires Strip(message)[|Name(t)|] == '('
    ensures var m := Strip(message);
      && GroupAt(m, |Name(t)|)
      && ClassifyCommit(message).value.scope == Some(GroupContents(m, |Name(t)|))
  {
    ConventionalClassification(message, t);
    ConventionalScope(t, Strip(message));
  }

  /**
   * A non-conventional message: no scope, the whole stripped message as
   * description, and the keyword rule for type and confidence: `chore` at 50
   * when no keyword of any type occurs; otherwise min(60 + 10k, 90) for the
   * chosen type's k hits, no type scoring higher and every earlier type scoring
   * strictly lower.
   */
  lemma FallbackClassification(message: string)
    requires !AllSpace(message)
    requires forall u: CommitType :: !Matches(u, Strip(message))
    ensures var m := Strip(message);
      var r := ClassifyCommit(message).value;
      && r.scope == None
      && r.description == m
      && r.confidence < 95
      && ((forall u: CommitType :: KeywordMatches(u, m) == 0) ==> r.kind == Chore && r.confidence == 50)
      && ((exists u: CommitType :: KeywordMatches(u, m) > 0) ==>
            && KeywordMatches(r.kind, m) > 0
            && r.confidence == KeywordConfidence(KeywordMatches(r.kind, m))
            && (forall u: CommitType | KeywordMatches(u, m) > 0 :: KeywordConfidence(KeywordMatches(u, m)) <= r.confidence)
            && (forall u: CommitType | KeywordMatches(u, m) > 0 && Index(u) < Index(r.kind) ::
                  KeywordConfidence(KeywordMatches(u, m)) < r.confidence))
  {
    FallbackResult(message);
    FallbackKeywordRule(Strip(message));
  }

  /** A non-conventional message takes the fallback's type and confidence, with no scope. */
  lemma FallbackResult(message: string)
    requires !AllSpace(message)
    requires forall u: CommitType :: !Matches(u, Strip(message))
    ensures var m := Strip(message);
      ClassifyCommit(message) == Ok(Classification(KeywordFallback(m).0, None, m, KeywordFallback(m).1))
  {
    var m := Strip(message);
    var f := FirstConventional(m, 0);
    if f.Some? {
      assert false;
    }
  }

  /** Classifying the stripped message gives the same result as classifying the message itself. */
  lemma ClassifyIgnoresSurroundingSpace(message: string)
    ensures ClassifyCommit(Strip(message)) == ClassifyCommit(message)
  {
    StripIdempotent(message);
  }
}
