/** What the scoring oracle produces for one piece of text: a label (field `predicted`) from the closed set
    {positive, neutral, negative}, the confidence of that label, and, when present, a score per
    label. The oracle itself (a FinBERT classifier) is not part of this model. */
module Sentiment {
  import opened Wrappers

  datatype Label = Positive | Neutral | Negative

  /** One result dictionary `{label, score, scores}`; `scores` is `None` when the key is absent. */
  datatype SentimentResult = SentimentResult(predicted: Label, score: real, scores: Option<map<Label, real>>)

  /** The oracle's promise: every score is a probability. */
  predicate ValidResult(r: SentimentResult) {
    && 0.0 <= r.score <= 1.0
    && (r.scores.Some? ==> forall l :: l in r.scores.value ==> 0.0 <= r.scores.value[l] <= 1.0)
  }
}
