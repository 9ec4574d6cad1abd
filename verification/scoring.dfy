/**
 * Keyword scoring: `calculate_confidence` and the fallback loop of
 * `classify_commit`. Confidences are integer hundredths: 95 for a pattern
 * match, min(60 + 10k, 90) for k > 0 keyword hits, 50 otherwise. (In Python's
 * floating point 0.6 + k * 0.1 is exactly 0.7, 0.8 and 0.9 for k = 1, 2, 3, and
 * the cap makes every k >= 3 exactly 0.9, so equal hundredths are equal floats.)
 */
module Scoring {
  import opened Text
  import opened CommitTypes
  import opened Patterns

  /** `sum(1 for kw in keywords if kw in lowered)`. */
  function CountHits(kws: seq<string>, lowered: string): (k: nat)
    ensures k <= |kws|
    ensures k == 0 <==> forall i | 0 <= i < |kws| :: !Contains(lowered, kws[i])
    ensures k == |kws| <==> forall i | 0 <= i < |kws| :: Contains(lowered, kws[i])
  {
    if |kws| == 0 then 0
    else
      var k := (if Contains(lowered, kws[0]) then 1 else 0) + CountHits(kws[1..], lowered);
      assert forall i | 1 <= i < |kws| :: kws[i] == kws[1..][i - 1];
      k
  }

  /**
   * The count adds up over any split of the keyword list: with the one-keyword
   * case of `CountHits`'s contract, this fixes the count as the number of
   * keywords that occur.
   */
  lemma {:induction false} CountHitsAppend(a: seq<string>, b: seq<string>, lowered: string)
    ensures CountHits(a + b, lowered) == CountHits(a, lowered) + CountHits(b, lowered)
    decreases |a|
  {
    if |a| == 0 {
      assert a + b == b;
    } else {
      assert (a + b)[0] == a[0];
      assert (a + b)[1..] == a[1..] + b;
      CountHitsAppend(a[1..], b, lowered);
    }
  }

  /** One keyword counts 1 exactly when it occurs. */
  lemma CountHitsSingle(kw: string, lowered: string)
    ensures CountHits([kw], lowered) == if Contains(lowered, kw) then 1 else 0
  {
    assert [kw][0] == kw;
  }

  /** How many of `t`'s keywords occur in the lowercased message. */
  function KeywordMatches(t: CommitType, m: string): (k: nat)
    ensures k <= |Keywords(t)|
    ensures k == 0 <==> forall i | 0 <= i < |Keywords(t)| :: !Contains(Lower(m), Keywords(t)[i])
  {
    CountHits(Keywords(t), Lower(m))
  }

  /** The keyword branch of `calculate_confidence` for `k` hits. */
  function KeywordConfidence(k: nat): (c: nat)
    ensures c == 50 <==> k == 0
    ensures c == 70 <==> k == 1
    ensures c == 80 <==> k == 2
    ensures c == 90 <==> k >= 3
  {
    if k > 0 then (if 60 + 10 * k < 90 then 60 + 10 * k else 90) else 50
  }

  /** More keyword hits never lower the confidence. */
  lemma KeywordConfidenceMonotone(k1: nat, k2: nat)
    requires k1 <= k2
    ensures KeywordConfidence(k1) <= KeywordConfidence(k2)
  {
  }

  /** `calculate_confidence(m, t)`: 95 on a pattern match, otherwise the keyword score. */
  function CalculateConfidence(m: string, t: CommitType): (c: nat)
    ensures c in {50, 70, 80, 90, 95}
    ensures c == 95 <==> Matches(t, m)
    ensures c == 50 <==> !Matches(t, m) && KeywordMatches(t, m) == 0
    ensures !Matches(t, m) ==> c == KeywordConfidence(KeywordMatches(t, m))
  {
    if Matches(t, m) then 95 else KeywordConfidence(KeywordMatches(t, m))
  }

  /**
   * The confidence the fallback loop gives `t`: it only calls
   * `calculate_confidence` for a type with a keyword hit, and 0 stands for a type
   * it skips (0 is also the loop's starting best).
   */
  function LoopScore(m: string, t: CommitType): (c: nat)
    ensures c == 0 <==> KeywordMatches(t, m) == 0
  {
    if KeywordMatches(t, m) > 0 then CalculateConfidence(m, t) else 0
  }

  /**
   * After the loop has looked at the first `n` entries, `(t, c)` is its
   * `(best_match, best_confidence)`: `('chore', 0)` if nothing scored, else the
   * earliest entry with the highest score.
   */
  ghost predicate IsLeader(m: string, t: CommitType, c: nat, n: nat)
  {
    if c == 0 then
      t == Chore && forall j | 0 <= j < n && j < |AllTypes| :: LoopScore(m, AllTypes[j]) == 0
    else
      && Index(t) < n
      && LoopScore(m, t) == c
      && (forall j | 0 <= j < n && j < |AllTypes| :: LoopScore(m, AllTypes[j]) <= c)
      && (forall j | 0 <= j < Index(t) :: LoopScore(m, AllTypes[j]) < c)
  }

  /** The fallback loop of `classify_commit` from entry `i` on; `>` keeps the earlier type on a tie. */
  function ScanKeywords(m: string, i: nat, best: CommitType, bestConf: nat): (r: (CommitType, nat))
    requires i <= |AllTypes| && IsLeader(m, best, bestConf, i)
    ensures IsLeader(m, r.0, r.1, |AllTypes|)
    decreases |AllTypes| - i
  {
    if i == |AllTypes| then (best, bestConf)
    else
      var t := AllTypes[i];
      LeaderStep(m, best, bestConf, i);
      if KeywordMatches(t, m) > 0 && CalculateConfidence(m, t) > bestConf then
        ScanKeywords(m, i + 1, t, CalculateConfidence(m, t))
      else
        ScanKeywords(m, i + 1, best, bestConf)
  }

  /** One iteration of the loop keeps `IsLeader`: a strictly higher score takes over, anything else does not. */
  lemma LeaderStep(m: string, best: CommitType, bestConf: nat, i: nat)
    requires i < |AllTypes| && IsLeader(m, best, bestConf, i)
    ensures LoopScore(m, AllTypes[i]) > bestConf ==> IsLeader(m, AllTypes[i], LoopScore(m, AllTypes[i]), i + 1)
    ensures LoopScore(m, AllTypes[i]) <= bestConf ==> IsLeader(m, best, bestConf, i + 1)
  {
    var t := AllTypes[i];
    var s := LoopScore(m, t);
    IndexOfEntry(i);
    if s > bestConf {
      forall j | 0 <= j < i + 1
        ensures LoopScore(m, AllTypes[j]) <= s
      {
      }
    } else if bestConf == 0 {
      assert s == 0;
    }
  }

  lemma IndexOfEntry(i: nat)
    requires i < |AllTypes|
    ensures Index(AllTypes[i]) == i
  {
  }

  /**
   * The fallback result `(best_match, max(best_confidence, 0.5))`: `chore` at 50
   * when no keyword hits, otherwise the type with the highest score, the earliest
   * in declaration order among equals.
   */
  function KeywordFallback(m: string): (r: (CommitType, nat))
    ensures (forall u: CommitType :: LoopScore(m, u) == 0) ==> r == (Chore, 50)
    ensures (exists u: CommitType :: LoopScore(m, u) > 0) ==>
      && LoopScore(m, r.0) == r.1
      && (forall u: CommitType :: LoopScore(m, u) <= r.1)
      && (forall u: CommitType | Index(u) < Index(r.0) :: LoopScore(m, u) < r.1)
  {
    var r := ScanKeywords(m, 0, Chore, 0);
    LeaderOverTypes(m, r.0, r.1);
    (r.0, if r.1 > 50 then r.1 else 50)
  }

  /** Restates a leader over the whole table in terms of types instead of positions. */
  lemma LeaderOverTypes(m: string, t: CommitType, c: nat)
    requires IsLeader(m, t, c, |AllTypes|)
    ensures c == 0 ==> t == Chore && forall u: CommitType :: LoopScore(m, u) == 0
    ensures c > 0 ==> 70 <= c && LoopScore(m, t) == c
    ensures c > 0 ==> forall u: CommitType :: LoopScore(m, u) <= c
    ensures c > 0 ==> forall u: CommitType | Index(u) < Index(t) :: LoopScore(m, u) < c
  {
    if c == 0 {
      forall u: CommitType
        ensures LoopScore(m, u) == 0
      {
        assert AllTypes[Index(u)] == u;
      }
    } else {
      forall u: CommitType
        ensures LoopScore(m, u) <= c
      {
        assert AllTypes[Index(u)] == u;
      }
      forall u: CommitType | Index(u) < Index(t)
        ensures LoopScore(m, u) < c
      {
        assert AllTypes[Index(u)] == u;
      }
      assert c in {50, 70, 80, 90, 95};
    }
  }

  /**
   * The fallback's contract pins its result down: any type and confidence that
   * satisfy it are the ones the loop returns.
   */
  lemma FallbackCharacterized(m: string, t: CommitType, c: nat)
    requires c > 0 && LoopScore(m, t) == c
    requires forall u: CommitType :: LoopScore(m, u) <= c
    requires forall u: CommitType | Index(u) < Index(t) :: LoopScore(m, u) < c
    ensures KeywordFallback(m) == (t, c)
  {
    var r := KeywordFallback(m);
    assert LoopScore(m, r.0) == r.1;
    if Index(r.0) < Index(t) {
      assert false;
    } else if Index(t) < Index(r.0) {
      assert false;
    }
  }

  /**
   * When no pattern matches, the loop's score of a type is its keyword
   * confidence (the 95 branch of `calculate_confidence` cannot fire), so the
   * fallback confidence is 50, 70, 80 or 90 and never 95.
   */
  lemma FallbackBelowConventional(m: string)
    requires forall u: CommitType :: !Matches(u, m)
    ensures forall u: CommitType :: LoopScore(m, u) == (if KeywordMatches(u, m) > 0 then KeywordConfidence(KeywordMatches(u, m)) else 0)
    ensures KeywordFallback(m).1 in {50, 70, 80, 90}
  {
    var r := KeywordFallback(m);
    if exists u: CommitType :: LoopScore(m, u) > 0 {
      assert LoopScore(m, r.0) == r.1;
    }
  }

  /**
   * The fallback in terms of keyword hits, when no pattern matches: `chore` at
   * 50 when no type has a hit; otherwise a type with hits whose keyword
   * confidence is the result, no type above it and every earlier type below.
   */
  lemma FallbackKeywordRule(m: string)
    requires forall u: CommitType :: !Matches(u, m)
    ensures var r := KeywordFallback(m);
      (forall u: CommitType :: KeywordMatches(u, m) == 0) ==> r == (Chore, 50)
    ensures var r := KeywordFallback(m);
      (exists u: CommitType :: KeywordMatches(u, m) > 0) ==>
        && KeywordMatches(r.0, m) > 0
        && r.1 == KeywordConfidence(KeywordMatches(r.0, m))
        && (forall u: CommitType | KeywordMatches(u, m) > 0 :: KeywordConfidence(KeywordMatches(u, m)) <= r.1)
        && (forall u: CommitType | KeywordMatches(u, m) > 0 && Index(u) < Index(r.0) ::
              KeywordConfidence(KeywordMatches(u, m)) < r.1)
  {
    FallbackBelowConventional(m);
    if exists u: CommitType :: KeywordMatches(u, m) > 0 {
      var u :| KeywordMatches(u, m) > 0;
      assert LoopScore(m, u) > 0;
    }
  }
}
