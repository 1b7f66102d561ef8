/** The heading classifier: a short-circuiting decision list over one feature
    record, and the pass that keeps the accepted records in order. */
module Classifier {
  import opened PyText
  import opened Features
  import Seqs

  /** A heading level, `"H1"` to `"H4"`. */
  type Level = n: int | 1 <= n <= 4 witness 1

  datatype Prediction = Heading(level: Level) | Paragraph

  /** A record the classifier accepted, with its predicted level (`level_pred`). */
  datatype Classification = Classification(features: Feature, level: Level)

  /** `predict`: numbering first, then "Appendix ", then bold by relative size,
      then short all-caps text, then very large text; anything else is body text. */
  function Predict(f: Feature): (p: Prediction)
    ensures 1 <= f.numberingDepth <= 4 ==> p == Heading(f.numberingDepth)
    ensures !(1 <= f.numberingDepth <= 4) && f.isBold ==> p.Heading?
    ensures p == Paragraph <==>
      && !(1 <= f.numberingDepth <= 4)
      && !StartsWith(f.text, "Appendix ")
      && !f.isBold
      && !(f.isAllCaps && f.textLen < 10)
      && f.relativeSize <= 1.5
  {
    if f.numberingDepth > 0 && f.numberingDepth == 1 then Heading(1)
    else if f.numberingDepth > 0 && f.numberingDepth == 2 then Heading(2)
    else if f.numberingDepth > 0 && f.numberingDepth == 3 then Heading(3)
    else if f.numberingDepth > 0 && f.numberingDepth == 4 then Heading(4)
    else if StartsWith(f.text, "Appendix ") then Heading(2)
    else if f.isBold then
      if f.relativeSize > 1.3 then Heading(1)
      else if f.relativeSize > 1.1 then Heading(2)
      else Heading(3)
    else if f.isAllCaps && f.textLen < 10 then Heading(1)
    else if f.relativeSize > 1.5 then Heading(1)
    else Paragraph
  }

  /** The same policy written as an ordered list of guarded rules, the first
      rule whose guard holds deciding the outcome. */
  datatype Rule = Rule(guard: Feature -> bool, outcome: Prediction)

  const Cascade: seq<Rule> := [
    Rule((f: Feature) => f.numberingDepth == 1, Heading(1)),
    Rule((f: Feature) => f.numberingDepth == 2, Heading(2)),
    Rule((f: Feature) => f.numberingDepth == 3, Heading(3)),
    Rule((f: Feature) => f.numberingDepth == 4, Heading(4)),
    Rule((f: Feature) => StartsWith(f.text, "Appendix "), Heading(2)),
    Rule((f: Feature) => f.isBold && f.relativeSize > 1.3, Heading(1)),
    Rule((f: Feature) => f.isBold && f.relativeSize > 1.1, Heading(2)),
    Rule((f: Feature) => f.isBold, Heading(3)),
    Rule((f: Feature) => f.isAllCaps && f.textLen < 10, Heading(1)),
    Rule((f: Feature) => f.relativeSize > 1.5, Heading(1))
  ]

  /** The outcome of the first rule, from position `i` on, whose guard holds. */
  function FirstMatch(rules: seq<Rule>, i: nat, f: Feature): Prediction
    decreases |rules| - i
  {
    if i >= |rules| then Paragraph
    else if rules[i].guard(f) then rules[i].outcome
    else FirstMatch(rules, i + 1, f)
  }

  /** From the sixth rule on, the list decides by boldness, capitals and size. */
  lemma StyledRulesMatch(f: Feature)
    ensures FirstMatch(Cascade, 5, f) ==
      if f.isBold then
        if f.relativeSize > 1.3 then Heading(1) else if f.relativeSize > 1.1 then Heading(2) else Heading(3)
      else if f.isAllCaps && f.textLen < 10 then Heading(1)
      else if f.relativeSize > 1.5 then Heading(1)
      else Paragraph
  {
    var rs := Cascade;
    assert FirstMatch(rs, 10, f) == Paragraph;
    assert FirstMatch(rs, 9, f) == if f.relativeSize > 1.5 then Heading(1) else Paragraph;
    assert FirstMatch(rs, 8, f) == if f.isAllCaps && f.textLen < 10 then Heading(1) else FirstMatch(rs, 9, f);
    assert FirstMatch(rs, 7, f) == if f.isBold then Heading(3) else FirstMatch(rs, 8, f);
  }

  /** `predict` is the first-match evaluation of the rule list. */
  lemma PredictIsFirstMatch(f: Feature)
    ensures Predict(f) == FirstMatch(Cascade, 0, f)
  {
    var rs := Cascade;
    StyledRulesMatch(f);
    assert FirstMatch(rs, 3, f) == if f.numberingDepth == 4 then Heading(4)
      else if StartsWith(f.text, "Appendix ") then Heading(2) else FirstMatch(rs, 5, f);
    assert FirstMatch(rs, 1, f) == if f.numberingDepth == 2 then Heading(2)
      else if f.numberingDepth == 3 then Heading(3) else FirstMatch(rs, 3, f);
  }

  /** The pre-filter of `classify`: long blocks and sentence-like blocks are
      never headings. */
  predicate PassesPrefilter(f: Feature) {
    !(f.textLen > 30 || f.endsWithPunct)
  }

  predicate Accepted(f: Feature) {
    PassesPrefilter(f) && Predict(f) != Paragraph
  }

  function FeaturesOf(c: Classification): Feature { c.features }

  /** `HeadingClassifier.classify`: the accepted records, in input order, each
      with its predicted level. */
  method Classify(features: seq<Feature>) returns (classifications: seq<Classification>)
    ensures Seqs.Map(FeaturesOf, classifications) == Seqs.Filter(Accepted, features)
    ensures forall c :: c in classifications ==>
      c.features in features && Predict(c.features) == Heading(c.level)
      && c.features.textLen <= 30 && !c.features.endsWithPunct
  {
    classifications := [];
    var i := 0;
    while i < |features|
      invariant 0 <= i <= |features|
      invariant Seqs.Map(FeaturesOf, classifications) == Seqs.Filter(Accepted, features[..i])
      invariant forall c :: c in classifications ==>
        c.features in features[..i] && Predict(c.features) == Heading(c.level)
        && PassesPrefilter(c.features)
    {
      var f := features[i];
      assert features[..i + 1] == features[..i] + [f];
      Seqs.FilterAppend(Accepted, features[..i], f);
      if f.textLen > 30 || f.endsWithPunct {
        i := i + 1;
        continue;
      }
      var prediction := Predict(f);
      if prediction != Paragraph {
        classifications := classifications + [Classification(f, prediction.level)];
      }
      i := i + 1;
    }
    assert features[..i] == features;
  }
}
