/**
 * The per-message response and the per-item logic of the batch route, without
 * the HTTP framing and without the timestamps.
 */
module Api {
  import opened Wrappers
  import opened Text
  import opened CommitTypes
  import opened Patterns
  import opened Classifier
  import opened Suggestions

  /** One classification response; `message` is the message exactly as sent. */
  datatype ClassificationResult = ClassificationResult(
    message: string,
    kind: CommitType,
    scope: Option<string>,
    description: string,
    confidence: nat,
    suggestions: seq<Suggestion>)
  {
    /** The classification part of the response. */
    function Verdict(): Classification
    {
      Classification(kind, scope, description, confidence)
    }
  }

  /**
   * Classifies `message` and attaches the suggestions for it: the classifier
   * sees the stripped message, the suggestion rules the message as sent.
   */
  function ClassifyMessage(message: string): (r: Result<ClassificationResult, ClassifyError>)
    ensures r.Err? <==> AllSpace(message)
    ensures r.Ok? ==> r.value.message == message
    ensures r.Ok? ==> r.value.confidence in {50, 70, 80, 90, 95}
    ensures r.Ok? ==> |r.value.suggestions| <= 4 && InRuleOrder(r.value.suggestions)
    ensures r.Ok? ==> ClassifyCommit(message) == Ok(r.value.Verdict())
    ensures r.Ok? ==> r.value.suggestions == GenerateSuggestions(message, r.value.Verdict())
  {
    match ClassifyCommit(message)
    case Err(e) => Err(e)
    case Ok(c) =>
      Ok(ClassificationResult(message, c.kind, c.scope, c.description, c.confidence,
                              GenerateSuggestions(message, c)))
  }

  /**
   * A conventional message sent without surrounding whitespace gets no format
   * suggestion; with leading whitespace it always gets one, although it is
   * classified the same way.
   */
  lemma FormatHintFollowsRawMessage(message: string, t: CommitType)
    requires Matches(t, Strip(message))
    ensures ClassifyMessage(message).Ok?
    ensures var r := ClassifyMessage(message).value;
      Strip(message) == message ==> UseConventionalFormat(t, r.description) !in r.suggestions
    ensures var r := ClassifyMessage(message).value;
      IsSpace(message[0]) ==> UseConventionalFormat(t, r.description) in r.suggestions
  {
    ConventionalClassification(message, t);
    var c := ClassifyCommit(message).value;
    if IsSpace(message[0]) {
      LeadingSpaceGetsFormatHint(message, c);
    }
  }

  /** One entry of the batch response: a result, or the message with its error. */
  datatype BatchEntry =
    | Classified(result: ClassificationResult)
    | Failed(message: string, error: ClassifyError)
  {
    /** The `message` field every entry carries. */
    function Message(): string
    {
      match this
      case Classified(res) => res.message
      case Failed(msg, _) => msg
    }
  }

  /** The batch response: `results` in input order and their count `total`. */
  datatype BatchResponse = BatchResponse(results: seq<BatchEntry>, total: nat)

  /** The body of the batch loop for one message; a failure is caught and recorded. */
  function Entry(message: string): (e: BatchEntry)
    ensures e.Message() == message
    ensures e.Failed? <==> AllSpace(message)
  {
    match ClassifyMessage(message)
    case Ok(res) => Classified(res)
    case Err(err) => Failed(message, err)
  }

  /**
   * The batch loop: `f` applied to every item, in order. The per-item function
   * is a parameter, so each item's result depends on that item alone.
   */
  method MapItems<X, Y>(xs: seq<X>, f: X -> Y) returns (ys: seq<Y>)
    ensures |ys| == |xs|
    ensures forall i | 0 <= i < |xs| :: ys[i] == f(xs[i])
  {
    ys := [];
    var i := 0;
    while i < |xs|
      invariant i <= |xs|
      invariant |ys| == i
      invariant forall j | 0 <= j < i :: ys[j] == f(xs[j])
    {
      ys := ys + [f(xs[i])];
      i := i + 1;
    }
  }

  /**
   * `classify_batch`: one entry per message, in order, each computed from its
   * own message alone, with `total` the number of entries.
   */
  method ClassifyBatch(messages: seq<string>) returns (resp: BatchResponse)
    ensures |resp.results| == |messages| && resp.total == |messages|
    ensures forall i | 0 <= i < |messages| :: resp.results[i] == Entry(messages[i])
    ensures forall i | 0 <= i < |messages| :: resp.results[i].Message() == messages[i]
    ensures forall i | 0 <= i < |messages| :: resp.results[i].Failed? <==> AllSpace(messages[i])
  {
    var results := MapItems(messages, Entry);
    resp := BatchResponse(results, |results|);
  }
}
