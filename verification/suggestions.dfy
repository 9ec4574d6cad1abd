/**
 * `generate_suggestions`: five advisory rules applied to the raw message and
 * its classification, always in the same order.
 */
module Suggestions {
  import opened Text
  import opened CommitTypes
  import opened Patterns
  import opened Classifier

  datatype Suggestion =
    | UseConventionalFormat(kind: CommitType, description: string)
    | TooShort
    | TooLong
    | UseImperativeMood
    | StartLowercase

  /** Position of each rule in the fixed order the suggestions are emitted in. */
  function Rank(s: Suggestion): nat
  {
    match s
    case UseConventionalFormat(_, _) => 0
    case TooShort => 1
    case TooLong => 2
    case UseImperativeMood => 3
    case StartLowercase => 4
  }

  /** The fixed opening of the format suggestion's text. */
  const FormatLead: string := "Consider using conventional format: "

  /** The text each suggestion carries in the response. */
  function Render(s: Suggestion): string
  {
    match s
    case UseConventionalFormat(kind, description) =>
      FormatLead + Name(kind) + ": " + description
    case TooShort => "Commit message is too short. Add more details."
    case TooLong => "Commit message is long. Consider keeping summary under 72 characters."
    case UseImperativeMood => "Use imperative mood (e.g., 'add' instead of 'added')"
    case StartLowercase => "Start description with lowercase letter"
  }

  /**
   * The format suggestion's text is the fixed lead-in, then the type's key, then
   * the description at the very end.
   */
  lemma RenderFormat(kind: CommitType, description: string)
    ensures var r := Render(UseConventionalFormat(kind, description));
      && StartsWith(r, FormatLead)
      && StartsWith(r[|FormatLead|..], Name(kind))
      && EndsWith(r, description)
  {
    var r := Render(UseConventionalFormat(kind, description));
    var lead := FormatLead;
    assert r == lead + (Name(kind) + ": " + description);
    assert r[..|lead|] == lead;
    assert r[|lead|..] == Name(kind) + ": " + description;
  }

  /** Messages shorter than this are too short. */
  const MinLength: nat := 10
  /** Messages longer than this are too long. */
  const MaxLength: nat := 100

  /** The past-tense markers of the imperative-mood rule, in source order. */
  const PastTenseMarkers: seq<string> := ["added", "fixed", "updated", "changed", "removed", "created"]

  /** `s.split()[0]`: the first maximal run of non-whitespace characters. */
  function FirstWord(s: string): (w: string)
    requires !AllSpace(s)
    ensures w != [] && NoSpace(w)
    ensures var a := LeadingSpace(s);
      && a + |w| <= |s|
      && s[a..a + |w|] == w
      && (a + |w| == |s| || IsSpace(s[a + |w|]))
  {
    var a := LeadingSpace(s);
    var rest := s[a..];
    var w := rest[..LeadingWord(rest)];
    assert a + |w| < |s| ==> s[a + |w|] == rest[|w|];
    w
  }

  /** The lowercased word starts with one of the past-tense markers. */
  predicate IsPastTense(word: string)
  {
    exists i | 0 <= i < |PastTenseMarkers| :: StartsWith(Lower(word), PastTenseMarkers[i])
  }

  /** Ranks strictly increase along `r`. */
  predicate InRuleOrder(r: seq<Suggestion>)
  {
    forall i, j | 0 <= i < j < |r| :: Rank(r[i]) < Rank(r[j])
  }

  /** `suggestions.append(x)` when rule `x` fires; `x` ranks after everything already emitted. */
  function Push(r: seq<Suggestion>, fires: bool, x: Suggestion): (r': seq<Suggestion>)
    requires InRuleOrder(r)
    requires forall e | e in r :: Rank(e) < Rank(x)
    ensures InRuleOrder(r')
    ensures forall e | e in r' :: Rank(e) <= Rank(x)
    ensures forall e | e in r' :: e in r || e == x
    ensures forall e | e in r :: e in r'
    ensures x in r' <==> fires || x in r
  {
    if fires then r + [x] else r
  }

  /**
   * The suggestion list for the given rule outcomes, in rule order: one entry
   * per rule that fires and nothing else.
   */
  function Emit(format: Suggestion, useFormat: bool, short: bool, long: bool, mood: bool, caps: bool): (r: seq<Suggestion>)
    requires format.UseConventionalFormat?
    ensures InRuleOrder(r)
    ensures forall s | s in r && s.UseConventionalFormat? :: s == format
    ensures format in r <==> useFormat
    ensures TooShort in r <==> short
    ensures TooLong in r <==> long
    ensures UseImperativeMood in r <==> mood
    ensures StartLowercase in r <==> caps
  {
    var r0 := Push([], useFormat, format);
    var r1 := Push(r0, short, TooShort);
    var r2 := Push(r1, long, TooLong);
    var r3 := Push(r2, mood, UseImperativeMood);
    Push(r3, caps, StartLowercase)
  }

  /**
   * `generate_suggestions(message, classification)` on the raw, unstripped
   * message. The source indexes `split()[0]` of a non-empty description, which
   * would raise on one made only of whitespace; every classification has a
   * description that is empty or holds a non-whitespace character.
   */
  function GenerateSuggestions(message: string, c: Classification): (r: seq<Suggestion>)
    requires c.description == [] || !AllSpace(c.description)
    ensures |r| <= 4
    ensures InRuleOrder(r)
    ensures forall s | s in r && s.UseConventionalFormat? :: s == UseConventionalFormat(c.kind, c.description)
    ensures UseConventionalFormat(c.kind, c.description) in r <==> !Matches(c.kind, message)
    ensures TooShort in r <==> |message| < MinLength
    ensures TooLong in r <==> |message| > MaxLength
    ensures UseImperativeMood in r <==> c.description != [] && IsPastTense(FirstWord(c.description))
    ensures StartLowercase in r <==> c.description != [] && IsUpper(c.description[0])
  {
    var d := c.description;
    var useFormat := !Matches(c.kind, message);
    var short := |message| < MinLength;
    var long := |message| > MaxLength;
    var mood := d != [] && IsPastTense(FirstWord(d));
    var caps := d != [] && IsUpper(d[0]);
    var r := Emit(UseConventionalFormat(c.kind, d), useFormat, short, long, mood, caps);
    AtMostFour(r, short, long);
    r
  }

  /** The short and long rules exclude each other, so at most four rules fire. */
  lemma AtMostFour(r: seq<Suggestion>, short: bool, long: bool)
    requires InRuleOrder(r)
    requires TooShort in r <==> short
    requires TooLong in r <==> long
    requires !(short && long)
    ensures |r| <= 4
  {
    if |r| > 4 {
      RankBounds(r, 1);
      RankBounds(r, 2);
      assert false;
    }
  }

  /** In rule order, the entry at `i` has at least `i` entries before it and room for the rest after it. */
  lemma RankBounds(r: seq<Suggestion>, i: nat)
    requires InRuleOrder(r) && i < |r|
    ensures i <= Rank(r[i]) <= 4 - (|r| - 1 - i)
  {
    RankAtLeastIndex(r, i);
    RankRoomAfter(r, i);
  }

  lemma {:induction false} RankAtLeastIndex(r: seq<Suggestion>, i: nat)
    requires InRuleOrder(r) && i < |r|
    ensures Rank(r[i]) >= i
  {
    if i > 0 {
      RankAtLeastIndex(r, i - 1);
    }
  }

  lemma {:induction false} RankRoomAfter(r: seq<Suggestion>, i: nat)
    requires InRuleOrder(r) && i < |r|
    ensures Rank(r[i]) <= 4 - (|r| - 1 - i)
    decreases |r| - i
  {
    if i + 1 < |r| {
      RankRoomAfter(r, i + 1);
    }
  }

  /**
   * The format rule looks at the message as sent: one with leading whitespace
   * always gets the format suggestion, even when its stripped form is
   * conventional.
   */
  lemma LeadingSpaceGetsFormatHint(message: string, c: Classification)
    requires |message| > 0 && IsSpace(message[0])
    requires c.description == [] || !AllSpace(c.description)
    ensures UseConventionalFormat(c.kind, c.description) in GenerateSuggestions(message, c)
  {
  }
}
