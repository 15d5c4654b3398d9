/**
 * The decision logic of the `/predict` handler of app.py (lines 38-68):
 * the availability guard (lines 40-42) and the three-way threshold rule on
 * the model's positive-sentiment probability (lines 58-63).
 *
 * The tokenizer, `pad_sequences` and `model.predict` (lines 49-54) are one
 * opaque parameter `infer` that maps the cleaned text to a score.
 */
module Sentiment {
  import opened TextClean
  import TextCleanProofs

  datatype Label = Positive | Neutral | Negative

  /** Lowest score labelled Positive. */
  const PositiveThreshold: real := 0.5
  /** Lowest score labelled Neutral. */
  const NeutralThreshold: real := 0.1

  /**
   * The `if/elif/else` chain on the score: the first threshold reached,
   * from the top, decides; a score on a threshold goes to the higher label.
   */
  function Classify(score: real): (verdict: Label)
    ensures verdict == Positive <==> PositiveThreshold <= score
    ensures verdict == Neutral <==> NeutralThreshold <= score < PositiveThreshold
    ensures verdict == Negative <==> score < NeutralThreshold
  {
    if score >= PositiveThreshold then Positive
    else if score >= NeutralThreshold then Neutral
    else Negative
  }

  /** Labels in the order of the sentiment they stand for. */
  function Rank(verdict: Label): nat
  {
    match verdict
    case Negative => 0
    case Neutral => 1
    case Positive => 2
  }

  /** A higher score never gets a less positive label. */
  lemma ClassifyMonotone(a: real, b: real)
    requires a <= b
    ensures Rank(Classify(a)) <= Rank(Classify(b))
  {
  }

  /** The boundary cases: each threshold belongs to the label above it. */
  lemma ClassifyBoundaries()
    ensures Classify(1.0) == Positive && Classify(0.5) == Positive
    ensures Classify(0.4999) == Neutral && Classify(0.1) == Neutral
    ensures Classify(0.0999) == Negative && Classify(0.0) == Negative
  {
  }

  /** The string the JSON reply carries under "sentiment". */
  function LabelName(verdict: Label): (name: string)
    ensures name != ErrorSentiment
  {
    match verdict
    case Positive => "Positive"
    case Neutral => "Neutral"
    case Negative => "Negative"
  }

  const ErrorSentiment: string := "Error"

  /**
   * Whether the start-up load produced the model and the tokenizer
   * (`model is not None`, `tokenizer is not None`). Loading itself, with its
   * file I/O and the exception it catches, is not modelled.
   */
  datatype Artifacts = Artifacts(modelLoaded: bool, tokenizerLoaded: bool)

  predicate Available(artifacts: Artifacts)
  {
    artifacts.modelLoaded && artifacts.tokenizerLoaded
  }

  /**
   * A reply of `/predict`: either the fixed error payload with its HTTP
   * status, or a label with the raw score it was computed from (returned
   * with status 200; `f"{conf:.2f}"` formats the score).
   */
  datatype Reply =
    | Failed(status: nat, sentiment: string, confidence: string, message: string)
    | Scored(verdict: Label, score: real)

  const NotLoaded: Reply :=
    Failed(500, ErrorSentiment, "0.00", "Model not loaded. Check server console for details.")

  function Status(reply: Reply): nat
  {
    match reply
    case Failed(status, _, _, _) => status
    case Scored(_, _) => 200
  }

  /** The "sentiment" field of the JSON reply. */
  function SentimentField(reply: Reply): string
  {
    match reply
    case Failed(_, sentiment, _, _) => sentiment
    case Scored(verdict, _) => LabelName(verdict)
  }

  /**
   * `predict()` for the form field `message`: the guard first, then the
   * cleaned text goes to the model and its score to Classify.
   */
  function Predict(artifacts: Artifacts, message: string, infer: string -> real): (reply: Reply)
    ensures reply.Failed? <==> !Available(artifacts)
    ensures reply.Failed? ==> reply == NotLoaded
    ensures reply.Scored? ==> reply.score == infer(CleanText(message))
    ensures reply.Scored? ==> reply.verdict == Classify(reply.score)
  {
    if !Available(artifacts) then NotLoaded
    else
      var score := infer(CleanText(message));
      Scored(Classify(score), score)
  }

  /**
   * Without the model or the tokenizer every request gets the same error
   * payload with status 500, whatever the message and whatever the model
   * would have said: nothing is classified.
   */
  lemma UnavailableIgnoresRequest(artifacts: Artifacts, m1: string, m2: string, f: string -> real, g: string -> real)
    requires !Available(artifacts)
    ensures Predict(artifacts, m1, f) == Predict(artifacts, m2, g) == NotLoaded
    ensures Status(Predict(artifacts, m1, f)) == 500
    ensures SentimentField(Predict(artifacts, m1, f)) == ErrorSentiment
  {
  }

  /** A client tells the error payload from a prediction by its "sentiment" field alone. */
  lemma ErrorSentimentOnlyOnFailure(reply: Reply)
    requires reply == NotLoaded || reply.Scored?
    ensures SentimentField(reply) == ErrorSentiment <==> reply.Failed?
    ensures reply.Scored? ==> Status(reply) == 200
  {
  }

  /**
   * The model only ever sees cleaned text: a message and its cleaned form
   * get the same reply, because cleaning is idempotent.
   */
  lemma PredictSeesOnlyCleanText(artifacts: Artifacts, message: string, infer: string -> real)
    ensures Predict(artifacts, CleanText(message), infer) == Predict(artifacts, message, infer)
  {
    TextCleanProofs.CleanTextIdempotent(message);
  }
}
