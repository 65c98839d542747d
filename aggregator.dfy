/** `SentimentAggregator.aggregate_sentiment` (aggregator.py): reduces the per-item sentiment results
    of one request to a summary: the modal label, the share of items carrying it, the share of each
    observed label, the mean score per label and the item count. Fractions are exact reals. */
module Aggregator {
  import opened Wrappers
  import opened Sentiment

  /** The keys of the `sentiment_scores` dictionary, in its order. */
  const SCORE_LABELS: seq<Label> := [Positive, Neutral, Negative]

  /** The two shapes the function returns: for an empty input the short dictionary
      `{overall_sentiment, confidence, details: {}}`, otherwise the full summary. */
  datatype Summary =
    | Brief(overall: Label, confidence: real)
    | Full(overall: Label, confidence: real, distribution: map<Label, real>,
           averageScores: map<Label, real>, itemCount: nat)

  /** The `KeyError` raised when a result has no `scores` entry. */
  datatype AggregateError = MissingScores

  // ---------------------------------------------------------------------------------------------
  // Label counting: `Counter([result["label"] for result in sentiment_results])`

  function LabelsOf(results: seq<SentimentResult>): (labels: seq<Label>)
    ensures |labels| == |results|
    ensures forall i :: 0 <= i < |results| ==> labels[i] == results[i].predicted
  {
    seq(|results|, i requires 0 <= i < |results| => results[i].predicted)
  }

  /** The counter's value for `l`: how many times `l` occurs. */
  function Count(labels: seq<Label>, l: Label): (n: nat)
    ensures n <= |labels|
    ensures n > 0 <==> l in labels
  {
    if labels == [] then 0
    else
      assert labels == labels[..|labels| - 1] + [labels[|labels| - 1]];
      Count(labels[..|labels| - 1], l) + if labels[|labels| - 1] == l then 1 else 0
  }

  /** Every occurrence of `b` in `labels` has an occurrence of `a` before it. */
  predicate OccursBefore(labels: seq<Label>, a: Label, b: Label) {
    forall p :: 0 <= p < |labels| && labels[p] == b ==> a in labels[..p]
  }

  /** The counter's keys in insertion order: each label that occurs, once, in order of first
      occurrence. */
  function Keys(labels: seq<Label>): (keys: seq<Label>)
    ensures forall l :: l in keys <==> l in labels
  {
    if labels == [] then []
    else
      var prev := Keys(labels[..|labels| - 1]);
      var last := labels[|labels| - 1];
      assert labels == labels[..|labels| - 1] + [last];
      if last in prev then prev else prev + [last]
  }

  /** `keys` lists distinct labels, each before the next in order of first occurrence in `labels`. */
  predicate FirstSeenOrder(labels: seq<Label>, keys: seq<Label>) {
    && (forall i, j :: 0 <= i < j < |keys| ==> keys[i] != keys[j])
    && (forall i, j :: 0 <= i < j < |keys| ==> OccursBefore(labels, keys[i], keys[j]))
  }

  /** The counter's keys are distinct and in order of first occurrence. */
  lemma {:induction false} KeysFirstSeen(labels: seq<Label>)
    ensures FirstSeenOrder(labels, Keys(labels))
  {
    if labels != [] {
      var init := labels[..|labels| - 1];
      KeysFirstSeen(init);
      KeysStep(labels, Keys(init));
    }
  }

  /** Appending one label keeps the keys distinct and in first-occurrence order. */
  lemma KeysStep(labels: seq<Label>, prev: seq<Label>)
    requires labels != []
    requires forall l :: l in prev <==> l in labels[..|labels| - 1]
    requires FirstSeenOrder(labels[..|labels| - 1], prev)
    ensures var last := labels[|labels| - 1];
      FirstSeenOrder(labels, if last in prev then prev else prev + [last])
  {
    var n := |labels| - 1;
    var init := labels[..n];
    var last := labels[n];
    var keys := if last in prev then prev else prev + [last];
    forall i, j | 0 <= i < j < |keys| ensures OccursBefore(labels, keys[i], keys[j]) {
      forall p | 0 <= p < |labels| && labels[p] == keys[j] ensures keys[i] in labels[..p] {
        if p < n {
          assert labels[..p] == init[..p];
          assert init[p] == labels[p];
          if j < |prev| {
            assert OccursBefore(init, prev[i], prev[j]);
          }
        } else {
          assert keys[i] == prev[i] && prev[i] in prev;
          assert labels[..p] == init;
        }
      }
    }
  }

  /** `Counter.most_common(1)[0][0]`: the first key, in the counter's order, whose count is the
      largest (`max` keeps the earlier of two equal candidates). */
  function MostCommon(keys: seq<Label>, labels: seq<Label>): (m: Label)
    requires keys != []
    ensures m in keys
    ensures forall k :: k in keys ==> Count(labels, k) <= Count(labels, m)
  {
    if |keys| == 1 then keys[0]
    else
      var rest := MostCommon(keys[1..], labels);
      assert forall k :: k in keys ==> k == keys[0] || k in keys[1..];
      if Count(labels, keys[0]) >= Count(labels, rest) then keys[0] else rest
  }

  /** No key before the chosen one has as large a count: among tied keys the earliest wins. */
  lemma {:induction false} MostCommonIsFirst(keys: seq<Label>, labels: seq<Label>, j: nat)
    requires j < |keys|
    requires Count(labels, keys[j]) == Count(labels, MostCommon(keys, labels))
    ensures MostCommon(keys, labels) in keys[..j + 1]
  {
    var m := MostCommon(keys, labels);
    if |keys| > 1 && Count(labels, keys[0]) < Count(labels, MostCommon(keys[1..], labels)) {
      assert j > 0;
      assert keys[1..][j - 1] == keys[j];
      MostCommonIsFirst(keys[1..], labels, j - 1);
      assert keys[1..][..j] == keys[1..j + 1];
    } else {
      assert keys[..j + 1][0] == keys[0];
    }
  }

  /** `{label: count / n for label, count in sentiment_counts.items()}`. */
  function Distribution(labels: seq<Label>): map<Label, real>
    requires labels != []
  {
    map l | l in Keys(labels) :: Count(labels, l) as real / |labels| as real
  }

  /** The sum of a map's values (a map over labels has at most three entries). */
  function Total(m: map<Label, real>): real {
    (if Positive in m then m[Positive] else 0.0)
    + (if Neutral in m then m[Neutral] else 0.0)
    + (if Negative in m then m[Negative] else 0.0)
  }

  // ---------------------------------------------------------------------------------------------
  // Score collection and averaging

  /** What one result contributes to the list for `l`. */
  function ScoreEntry(r: SentimentResult, l: Label): seq<real> {
    if r.scores.Some? && l in r.scores.value then [r.scores.value[l]] else []
  }

  predicate HasAllScores(results: seq<SentimentResult>) {
    forall i :: 0 <= i < |results| ==> results[i].scores.Some?
  }

  predicate AllValid(results: seq<SentimentResult>) {
    forall i :: 0 <= i < |results| ==> ValidResult(results[i])
  }

  /** `sentiment_scores[l]` after the collecting loop: the `l`-scores of the results that report
      one, in input order. */
  function ScoresFor(results: seq<SentimentResult>, l: Label): seq<real> {
    if results == [] then []
    else ScoresFor(results[..|results| - 1], l) + ScoreEntry(results[|results| - 1], l)
  }

  /** The list for `l` has at most one entry per result; it is empty when no result reports `l`;
      and when every result is a valid oracle result, every entry is a probability. */
  lemma {:induction false} ScoresForBounds(results: seq<SentimentResult>, l: Label)
    ensures |ScoresFor(results, l)| <= |results|
    ensures (forall i :: 0 <= i < |results| ==> ScoreEntry(results[i], l) == []) ==> ScoresFor(results, l) == []
    ensures AllValid(results) ==> forall k :: 0 <= k < |ScoresFor(results, l)| ==> 0.0 <= ScoresFor(results, l)[k] <= 1.0
  {
    if results != [] {
      var init := results[..|results| - 1];
      assert forall i :: 0 <= i < |init| ==> init[i] == results[i];
      ScoresForBounds(init, l);
    }
  }

  function Sum(xs: seq<real>): real {
    if xs == [] then 0.0 else Sum(xs[..|xs| - 1]) + xs[|xs| - 1]
  }

  /** `np.mean(xs)` (exact). */
  function Mean(xs: seq<real>): (m: real)
    requires xs != []
    ensures m * |xs| as real == Sum(xs)
  {
    Sum(xs) / |xs| as real
  }

  /** `{label: np.mean(scores) if scores else 0.0 for label, scores in sentiment_scores.items()}`. */
  function AverageScores(results: seq<SentimentResult>): map<Label, real> {
    map l | l in SCORE_LABELS :: var xs := ScoresFor(results, l); if xs == [] then 0.0 else Mean(xs)
  }

  // ---------------------------------------------------------------------------------------------
  // The whole reduction

  /** The value `aggregate_sentiment(results)` returns or raises. */
  function Aggregate(results: seq<SentimentResult>): (r: Result<Summary, AggregateError>)
    ensures results == [] ==> r == Success(Brief(Neutral, 0.0))
    ensures results != [] ==> (r.Failure? <==> !HasAllScores(results))
    ensures r.Success? && results != [] ==> r.value.Full? && r.value.itemCount == |results|
  {
    if results == [] then Success(Brief(Neutral, 0.0))
    else if !HasAllScores(results) then Failure(MissingScores)
    else
      var labels := LabelsOf(results);
      var overall := MostCommon(Keys(labels), labels);
      var n := |results| as real;
      Success(Full(overall, Count(labels, overall) as real / n, Distribution(labels),
                   AverageScores(results), |results|))
  }

  /** Extending the input by one result extends each label's list by that result's entry. */
  lemma ScoresForSnoc(results: seq<SentimentResult>, i: nat, l: Label)
    requires i < |results|
    ensures ScoresFor(results[..i + 1], l) == ScoresFor(results[..i], l) + ScoreEntry(results[i], l)
  {
    assert results[..i + 1][..i] == results[..i];
  }

  lemma EveryLabelIsScored(l: Label)
    ensures l in SCORE_LABELS
  {
  }

  /** The inner loop of the collection: for each key of `sentiment_scores`, in order, append the
      result's score for that key if `scores` has one. */
  method AppendScores(buckets: map<Label, seq<real>>, scores: map<Label, real>) returns (next: map<Label, seq<real>>)
    requires forall l :: l in buckets
    ensures forall l :: l in next && next[l] == buckets[l] + (if l in scores then [scores[l]] else [])
  {
    next := buckets;
    var j := 0;
    while j < |SCORE_LABELS|
      invariant 0 <= j <= |SCORE_LABELS|
      invariant forall l :: l in next
      invariant forall k :: 0 <= k < j ==> next[SCORE_LABELS[k]] == buckets[SCORE_LABELS[k]] + (if SCORE_LABELS[k] in scores then [scores[SCORE_LABELS[k]]] else [])
      invariant forall k :: j <= k < |SCORE_LABELS| ==> next[SCORE_LABELS[k]] == buckets[SCORE_LABELS[k]]
    {
      var key := SCORE_LABELS[j];
      if key in scores {
        next := next[key := next[key] + [scores[key]]];
      }
      j := j + 1;
    }
    forall l ensures next[l] == buckets[l] + (if l in scores then [scores[l]] else []) {
      EveryLabelIsScored(l);
    }
  }

  lemma HasAllScoresSnoc(results: seq<SentimentResult>, i: nat)
    requires i < |results| && HasAllScores(results[..i]) && results[i].scores.Some?
    ensures HasAllScores(results[..i + 1])
  {
    assert forall k :: 0 <= k < i ==> results[..i + 1][k] == results[..i][k];
  }

  /** The nested loop that fills `sentiment_scores`: for each result, for each of the three labels,
      append the result's score for that label if it has one. A result without `scores` raises. */
  method CollectScores(results: seq<SentimentResult>) returns (r: Result<map<Label, seq<real>>, AggregateError>)
    ensures r.Success? <==> HasAllScores(results)
    ensures r.Success? ==> forall l :: l in r.value && r.value[l] == ScoresFor(results, l)
  {
    var sentimentScores: map<Label, seq<real>> := map[Positive := [], Neutral := [], Negative := []];
    var i := 0;
    forall l ensures l in sentimentScores && sentimentScores[l] == ScoresFor(results[..i], l) {
      match l
      case Positive =>
      case Neutral =>
      case Negative =>
    }
    while i < |results|
      invariant 0 <= i <= |results|
      invariant HasAllScores(results[..i])
      invariant forall l :: l in sentimentScores && sentimentScores[l] == ScoresFor(results[..i], l)
    {
      var res := results[i];
      if res.scores.None? {
        return Failure(MissingScores);
      }
      sentimentScores := AppendScores(sentimentScores, res.scores.value);
      forall l ensures sentimentScores[l] == ScoresFor(results[..i + 1], l) {
        ScoresForSnoc(results, i, l);
      }
      HasAllScoresSnoc(results, i);
      i := i + 1;
    }
    assert results[..i] == results;
    return Success(sentimentScores);
  }

  /** Averaging the collected lists gives the averages of the reduction. */
  lemma AveragesMatch(results: seq<SentimentResult>, buckets: map<Label, seq<real>>)
    requires forall l :: l in buckets && buckets[l] == ScoresFor(results, l)
    ensures (map l | l in buckets :: var xs := buckets[l]; if xs == [] then 0.0 else Mean(xs)) == AverageScores(results)
  {
    forall l ensures l in SCORE_LABELS {
      EveryLabelIsScored(l);
    }
  }

  /** `aggregate_sentiment` itself: the collecting loop, then the comprehensions and the counter. */
  method AggregateSentiment(results: seq<SentimentResult>) returns (r: Result<Summary, AggregateError>)
    ensures r == Aggregate(results)
  {
    if results == [] {
      return Success(Brief(Neutral, 0.0));
    }
    var labels := LabelsOf(results);
    var collected := CollectScores(results);
    if collected.Failure? {
      assert collected.error == MissingScores;
      return Failure(collected.error);
    }
    var sentimentScores := collected.value;
    var avgScores := map l | l in sentimentScores :: var xs := sentimentScores[l]; if xs == [] then 0.0 else Mean(xs);
    AveragesMatch(results, sentimentScores);
    var overall := MostCommon(Keys(labels), labels);
    var confidence := Count(labels, overall) as real / |results| as real;
    r := Success(Full(overall, confidence, Distribution(labels), avgScores, |results|));
  }

  // ---------------------------------------------------------------------------------------------
  // Properties of the summary

  /** The three counts add up to the number of items. */
  lemma {:induction false} CountsAddUp(labels: seq<Label>)
    ensures Count(labels, Positive) + Count(labels, Neutral) + Count(labels, Negative) == |labels|
  {
    if labels != [] {
      CountsAddUp(labels[..|labels| - 1]);
    }
  }

  lemma ShareBounds(c: nat, n: nat)
    requires 1 <= c <= n
    ensures 0.0 < c as real / n as real <= 1.0
  {
  }

  lemma SharesAdd(a: real, b: real, c: real, n: real)
    requires n > 0.0 && a + b + c == n
    ensures a / n + b / n + c / n == 1.0
  {
    assert a / n + b / n + c / n == (a + b + c) / n;
  }

  /** The counter's shares: a key for exactly the labels that occur, each mapped to its share,
      adding up to one. */
  lemma DistributionShares(labels: seq<Label>)
    requires labels != []
    ensures var d := Distribution(labels);
      && (forall l :: l in d <==> l in labels)
      && (forall l :: l in d ==> d[l] == Count(labels, l) as real / |labels| as real && 0.0 < d[l] <= 1.0)
      && Total(d) == 1.0
  {
    var d := Distribution(labels);
    forall l | l in d ensures 0.0 < d[l] <= 1.0 {
      ShareBounds(Count(labels, l), |labels|);
    }
    DistributionTotal(labels);
  }

  lemma DistributionEntry(labels: seq<Label>, l: Label)
    requires labels != []
    ensures var d := Distribution(labels);
      (if l in d then d[l] else 0.0) == Count(labels, l) as real / |labels| as real
  {
  }

  lemma DistributionTotal(labels: seq<Label>)
    requires labels != []
    ensures Total(Distribution(labels)) == 1.0
  {
    var n := |labels| as real;
    DistributionEntry(labels, Positive);
    DistributionEntry(labels, Neutral);
    DistributionEntry(labels, Negative);
    CountsAddUp(labels);
    SharesAdd(Count(labels, Positive) as real, Count(labels, Neutral) as real, Count(labels, Negative) as real, n);
  }

  /** `distribution` has a key for exactly the labels that occur, maps each to its share of the
      items, and its values add up to one. */
  lemma DistributionIsShare(results: seq<SentimentResult>)
    requires results != [] && HasAllScores(results)
    ensures var d := Aggregate(results).value.distribution;
      var labels := LabelsOf(results);
      && (forall l :: l in d <==> l in labels)
      && (forall l :: l in d ==> d[l] == Count(labels, l) as real / |results| as real && 0.0 < d[l] <= 1.0)
      && Total(d) == 1.0
  {
    SummaryFields(results);
    DistributionShares(LabelsOf(results));
  }

  /** The most common key is a label of the input with the largest count. */
  lemma MostCommonIsMax(labels: seq<Label>)
    requires labels != []
    ensures var m := MostCommon(Keys(labels), labels);
      m in labels && forall l :: Count(labels, l) <= Count(labels, m)
  {
    var keys := Keys(labels);
    assert labels[0] in keys;
    var m := MostCommon(keys, labels);
    forall l ensures Count(labels, l) <= Count(labels, m) {
      if l in labels {
        assert l in keys;
      }
    }
  }

  lemma InLongerPrefix(labels: seq<Label>, x: Label, p: nat)
    requires p < |labels| && x in labels[..p]
    ensures x in labels[..p + 1]
  {
    var k :| 0 <= k < p && labels[..p][k] == x;
    assert labels[..p + 1][k] == x;
  }

  /** A key earlier in the counter's order occurs before any occurrence of a later one. */
  lemma EarlierKeyFirst(labels: seq<Label>, i: nat, j: nat, p: nat)
    requires i < j < |Keys(labels)| && p < |labels| && labels[p] == Keys(labels)[j]
    ensures Keys(labels)[i] in labels[..p]
  {
    KeysFirstSeen(labels);
    assert OccursBefore(labels, Keys(labels)[i], Keys(labels)[j]);
  }

  /** A label at position `p` with the same count as the most common key does not occur before it. */
  lemma MostCommonTieBreak(labels: seq<Label>, p: nat)
    requires p < |labels|
    requires Count(labels, labels[p]) == Count(labels, MostCommon(Keys(labels), labels))
    ensures MostCommon(Keys(labels), labels) in labels[..p + 1]
  {
    var keys := Keys(labels);
    var m := MostCommon(keys, labels);
    assert labels[p] in keys;
    var j :| 0 <= j < |keys| && keys[j] == labels[p];
    MostCommonIsFirst(keys, labels, j);
    var i :| 0 <= i <= j && keys[i] == m;
    if i < j {
      EarlierKeyFirst(labels, i, j, p);
      InLongerPrefix(labels, m, p);
    } else {
      assert labels[..p + 1][p] == m;
    }
  }

  /** The most common key is a label of the input with the largest count, and among the labels
      with that count it is the one that occurs first. */
  lemma MostCommonIsModal(labels: seq<Label>)
    requires labels != []
    ensures var m := MostCommon(Keys(labels), labels);
      && m in labels
      && (forall l :: Count(labels, l) <= Count(labels, m))
      && (forall p :: 0 <= p < |labels| && Count(labels, labels[p]) == Count(labels, m) ==> m in labels[..p + 1])
  {
    MostCommonIsMax(labels);
    forall p | 0 <= p < |labels| && Count(labels, labels[p]) == Count(labels, MostCommon(Keys(labels), labels))
      ensures MostCommon(Keys(labels), labels) in labels[..p + 1]
    {
      MostCommonTieBreak(labels, p);
    }
  }

  /** The fields of a non-empty summary, by name. */
  lemma SummaryFields(results: seq<SentimentResult>)
    requires results != [] && HasAllScores(results)
    ensures var labels := LabelsOf(results);
      var s := Aggregate(results).value;
      && s.overall == MostCommon(Keys(labels), labels)
      && s.confidence == Count(labels, s.overall) as real / |results| as real
      && s.distribution == Distribution(labels)
      && s.averageScores == AverageScores(results)
  {
  }

  /** `overall_sentiment` is a label of the input with the largest count, and among the labels
      with that count it is the one that occurs first. */
  lemma OverallIsModal(results: seq<SentimentResult>)
    requires results != [] && HasAllScores(results)
    ensures var m := Aggregate(results).value.overall;
      var labels := LabelsOf(results);
      && m in labels
      && (forall l :: Count(labels, l) <= Count(labels, m))
      && (forall p :: 0 <= p < |labels| && Count(labels, labels[p]) == Count(labels, m) ==> m in labels[..p + 1])
  {
    SummaryFields(results);
    MostCommonIsModal(LabelsOf(results));
  }

  /** `confidence` is the modal label's share of the items: positive, at most one, and equal to
      that label's entry in `distribution`. */
  lemma ConfidenceIsModalShare(results: seq<SentimentResult>)
    requires results != [] && HasAllScores(results)
    ensures var s := Aggregate(results).value;
      && s.confidence == Count(LabelsOf(results), s.overall) as real / |results| as real
      && 0.0 < s.confidence <= 1.0
      && s.overall in s.distribution && s.distribution[s.overall] == s.confidence
  {
    SummaryFields(results);
    OverallIsModal(results);
    DistributionIsShare(results);
  }

  lemma {:induction false} SumBounds(xs: seq<real>)
    requires forall k :: 0 <= k < |xs| ==> 0.0 <= xs[k] <= 1.0
    ensures 0.0 <= Sum(xs) <= |xs| as real
  {
    if xs != [] {
      SumBounds(xs[..|xs| - 1]);
    }
  }

  lemma MeanBound(xs: seq<real>)
    requires xs != []
    requires forall k :: 0 <= k < |xs| ==> 0.0 <= xs[k] <= 1.0
    ensures 0.0 <= Mean(xs) <= 1.0
  {
    SumBounds(xs);
    QuotientBound(Sum(xs), |xs| as real);
  }

  lemma QuotientBound(s: real, n: real)
    requires 0.0 < n && 0.0 <= s <= n
    ensures 0.0 <= s / n <= 1.0
  {
  }

  /** One label's average: present, 0.0 when no result reports the label, the mean of its list
      otherwise, and a probability when every result is a valid oracle result. */
  lemma AverageEntry(results: seq<SentimentResult>, l: Label)
    ensures var a := AverageScores(results);
      && l in a
      && ((forall i :: 0 <= i < |results| ==> ScoreEntry(results[i], l) == []) ==> a[l] == 0.0)
      && (ScoresFor(results, l) != [] ==> a[l] == Mean(ScoresFor(results, l)))
      && (AllValid(results) ==> 0.0 <= a[l] <= 1.0)
  {
    EveryLabelIsScored(l);
    ScoresForBounds(results, l);
    var xs := ScoresFor(results, l);
    if AllValid(results) && xs != [] {
      MeanBound(xs);
    }
  }

  /** `average_scores` always has the three keys; a label no result reports averages 0.0; and for
      results whose scores are probabilities every average is a probability. */
  lemma AverageScoresShape(results: seq<SentimentResult>)
    requires results != [] && HasAllScores(results)
    ensures var a := Aggregate(results).value.averageScores;
      && (forall l :: l in a)
      && (forall l :: (forall i :: 0 <= i < |results| ==> ScoreEntry(results[i], l) == []) ==> a[l] == 0.0)
      && (forall l :: ScoresFor(results, l) != [] ==> a[l] == Mean(ScoresFor(results, l)))
      && (AllValid(results) ==> forall l :: 0.0 <= a[l] <= 1.0)
  {
    SummaryFields(results);
    forall l {
      AverageEntry(results, l);
    }
  }

  // ---------------------------------------------------------------------------------------------
  // Worked inputs

  function Labelled(l: Label): SentimentResult {
    SentimentResult(l, 1.0, Some(map[l := 1.0]))
  }

  /** One more label adds one to its own count and nothing to the others. */
  lemma CountSnoc(labels: seq<Label>, x: Label, l: Label)
    ensures Count(labels + [x], l) == Count(labels, l) + if x == l then 1 else 0
  {
    assert (labels + [x])[..|labels|] == labels;
  }

  lemma CountsPNNP()
    ensures forall l :: Count([Positive, Negative, Negative, Positive], l) == if l == Neutral then 0 else 2
  {
    forall l ensures Count([Positive, Negative, Negative, Positive], l) == if l == Neutral then 0 else 2 {
      assert [Positive, Negative, Negative, Positive] == [Positive] + [Negative] + [Negative] + [Positive];
      CountSnoc([], Positive, l);
      CountSnoc([Positive], Negative, l);
      CountSnoc([Positive] + [Negative], Negative, l);
      CountSnoc([Positive] + [Negative] + [Negative], Positive, l);
    }
  }

  lemma CountsPPN()
    ensures forall l :: Count([Positive, Positive, Neutral], l) == if l == Positive then 2 else if l == Neutral then 1 else 0
  {
    forall l ensures Count([Positive, Positive, Neutral], l) == if l == Positive then 2 else if l == Neutral then 1 else 0 {
      assert [Positive, Positive, Neutral] == [Positive] + [Positive] + [Neutral];
      CountSnoc([], Positive, l);
      CountSnoc([Positive], Positive, l);
      CountSnoc([Positive] + [Positive], Neutral, l);
    }
  }

  /** When the first item's label has the largest count, it is the overall label. */
  lemma FirstModalWins(results: seq<SentimentResult>)
    requires results != [] && HasAllScores(results)
    requires forall l :: Count(LabelsOf(results), l) <= Count(LabelsOf(results), results[0].predicted)
    ensures Aggregate(results).value.overall == results[0].predicted
  {
    var labels := LabelsOf(results);
    OverallIsModal(results);
    assert labels[..1] == [labels[0]];
  }

  /** `[pos, neg, neg, pos]`: both labels occur twice; positive occurs first and wins. */
  lemma TieGoesToFirstSeen()
    ensures Aggregate([Labelled(Positive), Labelled(Negative), Labelled(Negative), Labelled(Positive)]).value.overall == Positive
  {
    var results := [Labelled(Positive), Labelled(Negative), Labelled(Negative), Labelled(Positive)];
    assert LabelsOf(results) == [Positive, Negative, Negative, Positive];
    CountsPNNP();
    FirstModalWins(results);
  }

  /** `[neg, pos]`: one each; negative is seen first. */
  lemma FirstSeenWinsOneEach()
    ensures Aggregate([Labelled(Negative), Labelled(Positive)]).value.overall == Negative
  {
    var results := [Labelled(Negative), Labelled(Positive)];
    var labels := LabelsOf(results);
    assert labels == [Negative] + [Positive];
    forall l ensures Count(labels, l) == (if l == Neutral then 0 else 1) {
      CountSnoc([], Negative, l);
      CountSnoc([Negative], Positive, l);
    }
    OverallIsModal(results);
    assert labels[..1] == [Negative];
  }

  lemma DistributionPPN()
    ensures Distribution([Positive, Positive, Neutral]) == map[Positive := 2.0 / 3.0, Neutral := 1.0 / 3.0]
  {
    var labels := [Positive, Positive, Neutral];
    CountsPPN();
    DistributionShares(labels);
    assert Positive in labels && Neutral in labels && Negative !in labels;
  }

  /** `[pos, pos, neu]`: positive with confidence 2/3; distribution {positive: 2/3, neutral: 1/3}. */
  lemma TwoThirdsPositive()
    ensures var s := Aggregate([Labelled(Positive), Labelled(Positive), Labelled(Neutral)]).value;
      && s.overall == Positive && s.confidence == 2.0 / 3.0 && s.itemCount == 3
      && s.distribution == map[Positive := 2.0 / 3.0, Neutral := 1.0 / 3.0]
  {
    var results := [Labelled(Positive), Labelled(Positive), Labelled(Neutral)];
    assert LabelsOf(results) == [Positive, Positive, Neutral];
    CountsPPN();
    FirstModalWins(results);
    SummaryFields(results);
    DistributionPPN();
  }
}
