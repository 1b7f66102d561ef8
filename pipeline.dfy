/** The per-document pipeline: features, then classification, then outline. */
module Pipeline {
  import opened Document
  import opened StyleProfile
  import opened Features
  import opened Classifier
  import opened Outline
  import Seqs

  /** One document through the three stages, as the main loop runs them
      before writing the JSON result. */
  method Process(doc: seq<Page>) returns (features: seq<Feature>, classifications: seq<Classification>, result: OutlineResult)
    requires WellFormedDoc(doc)
    ensures features == DocFeatures(doc, Mode(DocTallies(doc)))
    ensures Seqs.Map(FeaturesOf, classifications) == Seqs.Filter(Accepted, features)
    ensures forall c :: c in classifications ==> Predict(c.features) == Heading(c.level)
    ensures result.title == Title(classifications) && result.outline == OutlineOf(classifications)
    ensures WellNested(result.outline)
    ensures forall e :: e in result.outline ==> 1 <= e.page <= |doc| && !IsTocEntry(e.text)
    ensures doc == [] ==> result == OutlineResult("", [])
  {
    features := ExtractFeatures(doc);
    classifications := Classify(features);
    result := BuildOutline(classifications);
    OutlineFromInput(classifications);
    DocFeaturesOnPages(doc, Mode(DocTallies(doc)));
    forall e | e in result.outline ensures e.page <= |doc| {
      var c :| c in classifications && !IsTitlePart(c) && e == ToEntry(c);
    }
  }
}
