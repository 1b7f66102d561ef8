/** A worked example in pipeline order: three numbered blocks on a first page
    go through the feature extractor, `predict` and the outline builder. */
module Walkthrough {
  import opened PyText
  import opened Features
  import opened Classifier
  import opened Outline

  /** The record the extractor makes for a plain first-page block of body-size,
      non-bold text: every text-derived field computed from `text`. */
  function FirstPageFeature(text: string, blockNum: int): Feature {
    Feature(text, 0, blockNum, 12.0, 1.0, false, WordCount(text), IsUpper(text),
            EndsWithChar(text, '.'), NumberingDepth(text))
  }

  /** The entry `classify` appends for a record predicted to be a heading. A
      "Paragraph" record is never appended, so its level here is never read. */
  function Classified(f: Feature): Classification {
    Classification(f, if Predict(f).Heading? then Predict(f).level else 1)
  }

  /** "1 Intro" and "2 Methods" carry one numbering group, "1.1 Background" two. */
  lemma ExampleDepths()
    ensures NumberingDepth("1 Intro") == 1
    ensures NumberingDepth("2 Methods") == 1
    ensures NumberingDepth("1.1 Background") == 2
  {
    assert "1 Intro"[..1] == "1";
    assert "2 Methods"[..1] == "2";
    var t := "1.1 Background";
    assert t[..1] == "1";
    assert IsNumbering(t[..1]);
    assert ScanNumbering(t, 3) == 3;
    assert ScanNumbering(t, 1) == 3;
    assert t[..3] == "1.1";
    assert Dots("1.1") == 1 by {
      assert "1.1"[..2] == "1." && "1."[..1] == "1" && "1"[..0] == "";
    }
  }

  /** A number followed by a dot, as in "1. Intro", is not a numbering: the
      pattern needs whitespace right after the digits, so such a plain block
      is body text. */
  lemma DottedNumberIsBodyText()
    ensures NumberingDepth("1. Intro") == 0
    ensures Predict(FirstPageFeature("1. Intro", 0)) == Paragraph
  {
    var t := "1. Intro";
    assert t[..1] == "1";
    assert IsNumbering(t[..1]);
    assert ScanNumbering(t, 1) == 1;
    assert IsLowerChar(t[4]);
    assert !StartsWith(t, "Appendix ");
  }

  /** Three numbered blocks on the first page: "1 Intro", "1.1 Background",
      "2 Methods", each with its predicted level. */
  function NumberedFirstPage(): seq<Classification> {
    [Classified(FirstPageFeature("1 Intro", 0)), Classified(FirstPageFeature("1.1 Background", 1)),
     Classified(FirstPageFeature("2 Methods", 2))]
  }

  lemma NumberedFirstPageLevels()
    ensures NumberedFirstPage() == [
      Classification(FirstPageFeature("1 Intro", 0), 1),
      Classification(FirstPageFeature("1.1 Background", 1), 2),
      Classification(FirstPageFeature("2 Methods", 2), 1)]
  {
    ExampleDepths();
  }

  /** In the numbered example both H1s are first-page H1s and form the title. */
  lemma NumberedFirstPageTitle()
    ensures TitleParts(NumberedFirstPage()) == [NumberedFirstPage()[0], NumberedFirstPage()[2]]
    ensures Title(NumberedFirstPage()) == "1 Intro" + " " + "2 Methods"
  {
    NumberedFirstPageLevels();
    var cs := NumberedFirstPage();
    TwoTitlePartsAround(cs[0], cs[1], cs[2]);
    assert cs[0].features.text == "1 Intro" && cs[2].features.text == "2 Methods";
  }

  /** The H2 left behind has no open H1 and is dropped: the outline is empty. */
  lemma NumberedFirstPageOutline()
    ensures WithoutTitle(NumberedFirstPage()) == [NumberedFirstPage()[1]]
    ensures OutlineOf(NumberedFirstPage()) == []
  {
    NumberedFirstPageLevels();
    var cs := NumberedFirstPage();
    OrphanBetweenTitleParts(cs[0], cs[1], cs[2]);
  }
}
