/** Evaluation of suggestions against the expected ones: binary labels per paragraph and per
    sentence, and suggestion-level precision, recall and F1 from set-based counts. */
module Metrics {
  import opened Text

  function Min(a: nat, b: nat): nat {
    if a <= b then a else b
  }

  /** `1 if flag else 0`. */
  function Label(flag: bool): (r: nat)
    ensures r <= 1 && (r == 1 <==> flag)
  {
    if flag then 1 else 0
  }

  /** The labels of `paragraph_classification_report`: one per paragraph, 1 when it has a
      suggestion. */
  function ParagraphLabels(suggestions: seq<seq<string>>): (r: seq<nat>)
    ensures |r| == |suggestions|
    ensures forall i :: 0 <= i < |r| ==> r[i] <= 1 && (r[i] == 1 <==> suggestions[i] != [])
  {
    seq(|suggestions|, i requires 0 <= i < |suggestions| => Label(suggestions[i] != []))
  }

  /** Paragraph labels of two runs agree exactly where both or neither have suggestions. */
  lemma ParagraphLabelsAgree(trues: seq<seq<string>>, preds: seq<seq<string>>, i: nat)
    requires i < |trues| && i < |preds|
    ensures ParagraphLabels(trues)[i] == ParagraphLabels(preds)[i] <==> (trues[i] == [] <==> preds[i] == [])
  {
  }

  /** `any(err in sent_text for err in errors)`. */
  function Flagged(sentence: string, errors: seq<string>): (r: bool)
    ensures r <==> exists i :: 0 <= i < |errors| && Contains(sentence, errors[i])
    decreases |errors|
  {
    if errors == [] then false
    else if Contains(sentence, errors[0]) then true
    else
      var r := Flagged(sentence, errors[1..]);
      assert forall i :: 1 <= i < |errors| ==> errors[i] == errors[1..][i - 1];
      r
  }

  /** One label per sentence of a text. */
  function LabelsFor(sentences: seq<string>, errors: seq<string>): (r: seq<nat>)
    ensures |r| == |sentences|
    ensures forall i :: 0 <= i < |r| ==> r[i] == Label(Flagged(sentences[i], errors))
  {
    seq(|sentences|, i requires 0 <= i < |sentences| => Label(Flagged(sentences[i], errors)))
  }

  /** The labels of the first `n` texts, text after text. */
  function SentenceLabels(texts: seq<seq<string>>, errors: seq<seq<string>>, n: nat): seq<nat>
    requires n <= |texts| && n <= |errors|
  {
    if n == 0 then [] else SentenceLabels(texts, errors, n - 1) + LabelsFor(texts[n - 1], errors[n - 1])
  }

  /** The number of sentences in the first `n` texts. */
  function SentenceCount(texts: seq<seq<string>>, n: nat): nat
    requires n <= |texts|
  {
    if n == 0 then 0 else SentenceCount(texts, n - 1) + |texts[n - 1]|
  }

  /** The expected and the predicted labels have one entry per sentence, so they line up. */
  lemma {:induction false} SentenceLabelsAligned(texts: seq<seq<string>>, errors: seq<seq<string>>, n: nat)
    requires n <= |texts| && n <= |errors|
    ensures |SentenceLabels(texts, errors, n)| == SentenceCount(texts, n)
  {
    if n > 0 {
      SentenceLabelsAligned(texts, errors, n - 1);
    }
  }

  /** One more sentence adds exactly its own label. */
  lemma LabelsForSnoc(sentences: seq<string>, j: nat, errors: seq<string>)
    requires j < |sentences|
    ensures LabelsFor(sentences[..j + 1], errors) == LabelsFor(sentences[..j], errors) + [Label(Flagged(sentences[j], errors))]
  {
  }

  /** `sentence_classification_report`'s loop: each text, as split into sentences, is paired
      with its expected and predicted suggestions (as far as all three lists go), and every
      sentence gets a label from each. */
  method SentenceClassificationLabels(texts: seq<seq<string>>, trues: seq<seq<string>>, preds: seq<seq<string>>)
    returns (yTrue: seq<nat>, yPred: seq<nat>)
    ensures var n := Min(Min(|texts|, |trues|), |preds|);
      yTrue == SentenceLabels(texts, trues, n) && yPred == SentenceLabels(texts, preds, n)
  {
    var n := Min(Min(|texts|, |trues|), |preds|);
    yTrue, yPred := [], [];
    var k := 0;
    while k < n
      invariant 0 <= k <= n
      invariant yTrue == SentenceLabels(texts, trues, k) && yPred == SentenceLabels(texts, preds, k)
    {
      var sents := texts[k];
      var j := 0;
      while j < |sents|
        invariant 0 <= j <= |sents|
        invariant yTrue == SentenceLabels(texts, trues, k) + LabelsFor(sents[..j], trues[k])
        invariant yPred == SentenceLabels(texts, preds, k) + LabelsFor(sents[..j], preds[k])
      {
        LabelsForSnoc(sents, j, trues[k]);
        LabelsForSnoc(sents, j, preds[k]);
        yTrue := yTrue + [Label(Flagged(sents[j], trues[k]))];
        yPred := yPred + [Label(Flagged(sents[j], preds[k]))];
        j := j + 1;
      }
      assert sents[..j] == texts[k];
      k := k + 1;
    }
  }

  /** `set(xs)`. */
  function SetOf(xs: seq<string>): set<string> {
    set x | x in xs
  }

  /** True positives, false positives and false negatives. */
  datatype Counts = Counts(tp: nat, fp: nat, fn: nat)

  /** The counts one pair of suggestion lists contributes, each list read as a set. */
  function PairCounts(trues: seq<string>, preds: seq<string>): Counts {
    var t := SetOf(trues);
    var p := SetOf(preds);
    Counts(|t * p|, |p - t|, |t - p|)
  }

  /** The counts over the first `n` pairs. */
  function Tally(trues: seq<seq<string>>, preds: seq<seq<string>>, n: nat): Counts
    requires n <= |trues| && n <= |preds|
  {
    if n == 0 then Counts(0, 0, 0)
    else
      var c := Tally(trues, preds, n - 1);
      var d := PairCounts(trues[n - 1], preds[n - 1]);
      Counts(c.tp + d.tp, c.fp + d.fp, c.fn + d.fn)
  }

  /** The number of distinct suggestions in each of the first `n` lists, summed. */
  function DistinctTotal(xss: seq<seq<string>>, n: nat): nat
    requires n <= |xss|
  {
    if n == 0 then 0 else DistinctTotal(xss, n - 1) + |SetOf(xss[n - 1])|
  }

  /** A set splits into the part shared with another set and the rest. */
  lemma SplitCard(a: set<string>, b: set<string>)
    ensures |a * b| + |b - a| == |b|
  {
    assert b == (a * b) + (b - a);
    assert (a * b) * (b - a) == {};
  }

  /** Every distinct predicted suggestion is a true or a false positive, and every distinct
      expected one a true positive or a false negative. */
  lemma PairCountsTotals(trues: seq<string>, preds: seq<string>)
    ensures PairCounts(trues, preds).tp + PairCounts(trues, preds).fp == |SetOf(preds)|
    ensures PairCounts(trues, preds).tp + PairCounts(trues, preds).fn == |SetOf(trues)|
  {
    var t := SetOf(trues);
    var p := SetOf(preds);
    SplitCard(t, p);
    SplitCard(p, t);
    assert p * t == t * p;
  }

  /** `tp + fp` is the number of distinct predictions and `tp + fn` that of distinct expected
      suggestions, list by list. */
  lemma {:induction false} TallyTotals(trues: seq<seq<string>>, preds: seq<seq<string>>, n: nat)
    requires n <= |trues| && n <= |preds|
    ensures Tally(trues, preds, n).tp + Tally(trues, preds, n).fp == DistinctTotal(preds, n)
    ensures Tally(trues, preds, n).tp + Tally(trues, preds, n).fn == DistinctTotal(trues, n)
  {
    if n > 0 {
      TallyTotals(trues, preds, n - 1);
      PairCountsTotals(trues[n - 1], preds[n - 1]);
    }
  }

  /** A suggestion repeated in a list counts once. */
  lemma DuplicateCountsOnce(trues: seq<string>, preds: seq<string>, i: nat)
    requires i < |preds|
    ensures PairCounts(trues, preds + [preds[i]]) == PairCounts(trues, preds)
  {
    assert SetOf(preds + [preds[i]]) == SetOf(preds);
  }

  /** Predictions that equal the expected suggestions have no false positive and no false
      negative, and every distinct suggestion is a true positive. */
  lemma {:induction false} PerfectTally(trues: seq<seq<string>>, preds: seq<seq<string>>, n: nat)
    requires n <= |trues| && n <= |preds|
    requires forall k :: 0 <= k < n ==> preds[k] == trues[k]
    ensures Tally(trues, preds, n) == Counts(DistinctTotal(trues, n), 0, 0)
  {
    if n > 0 {
      PerfectTally(trues, preds, n - 1);
      var t := SetOf(trues[n - 1]);
      assert t * t == t && t - t == {};
    }
  }

  /** Some non-empty list among the first `n` gives at least one distinct suggestion. */
  lemma {:induction false} DistinctTotalPositive(xss: seq<seq<string>>, n: nat, k: nat)
    requires k < n <= |xss| && xss[k] != []
    ensures DistinctTotal(xss, n) > 0
  {
    if k == n - 1 {
      assert xss[k][0] in SetOf(xss[k]);
    } else {
      DistinctTotalPositive(xss, n - 1, k);
    }
  }

  /** Precision, recall and F1. */
  datatype Scores = Scores(precision: real, recall: real, f1: real)

  /** `num / den if den > 0 else 0.0`. */
  function Ratio(num: nat, den: nat): (r: real)
    ensures den == 0 ==> r == 0.0
    ensures num <= den ==> 0.0 <= r <= 1.0
    ensures 0 < num == den ==> r == 1.0
  {
    if den > 0 then num as real / den as real else 0.0
  }

  /** `2 * p * r / (p + r) if p + r > 0 else 0.0`. */
  function F1(p: real, r: real): (f: real)
    ensures p + r == 0.0 ==> f == 0.0
    ensures p == 1.0 && r == 1.0 ==> f == 1.0
  {
    if p + r > 0.0 then 2.0 * (p * r) / (p + r) else 0.0
  }

  /** The scores of a tally: all three lie in [0, 1], and an empty denominator gives 0. */
  function ScoresOf(c: Counts): (s: Scores)
    ensures 0.0 <= s.precision <= 1.0 && 0.0 <= s.recall <= 1.0
    ensures c.tp + c.fp == 0 ==> s.precision == 0.0
    ensures c.tp + c.fn == 0 ==> s.recall == 0.0
    ensures c.tp == 0 ==> s.f1 == 0.0
  {
    var p := Ratio(c.tp, c.tp + c.fp);
    var r := Ratio(c.tp, c.tp + c.fn);
    Scores(p, r, F1(p, r))
  }

  /** `suggestion_level_metrics`: counts over the pairs `zip` forms, then the scores. */
  method SuggestionLevelMetrics(trues: seq<seq<string>>, preds: seq<seq<string>>) returns (s: Scores)
    ensures s == ScoresOf(Tally(trues, preds, Min(|trues|, |preds|)))
  {
    var n := Min(|trues|, |preds|);
    var tp: nat, fp: nat, fn: nat := 0, 0, 0;
    var i := 0;
    while i < n
      invariant 0 <= i <= n
      invariant Counts(tp, fp, fn) == Tally(trues, preds, i)
    {
      var t := SetOf(trues[i]);
      var p := SetOf(preds[i]);
      tp := tp + |t * p|;
      fp := fp + |p - t|;
      fn := fn + |t - p|;
      i := i + 1;
    }
    var precision := Ratio(tp, tp + fp);
    var recall := Ratio(tp, tp + fn);
    var f1 := F1(precision, recall);
    s := Scores(precision, recall, f1);
  }

  /** When every prediction equals its expected list and some list is non-empty, precision,
      recall and F1 are all 1. */
  lemma PerfectScores(trues: seq<seq<string>>, preds: seq<seq<string>>, k: nat)
    requires |preds| == |trues| && k < |trues| && trues[k] != []
    requires forall i :: 0 <= i < |trues| ==> preds[i] == trues[i]
    ensures ScoresOf(Tally(trues, preds, |trues|)) == Scores(1.0, 1.0, 1.0)
  {
    PerfectTally(trues, preds, |trues|);
    DistinctTotalPositive(trues, |trues|, k);
  }

  /** Lists past the shorter of the two are never read. */
  lemma {:induction false} TallyIgnoresExtra(trues: seq<seq<string>>, preds: seq<seq<string>>, extra: seq<seq<string>>, n: nat)
    requires n <= |trues| && n <= |preds|
    ensures Tally(trues, preds, n) == Tally(trues + extra, preds, n)
  {
    if n > 0 {
      TallyIgnoresExtra(trues, preds, extra, n - 1);
      assert (trues + extra)[n - 1] == trues[n - 1];
    }
  }
}
