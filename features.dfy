/** The feature extractor: one feature record per non-empty text block, pages
    in order and, within a page, blocks sorted stably by their top edge. */
module Features {
  import opened Wrappers
  import opened PyText
  import opened Document
  import opened StyleProfile
  import Seqs

  /** The features of one block that the classifier and the outline builder read. */
  datatype Feature = Feature(
    text: string,
    pageNum: nat,
    blockNum: int,
    fontSize: real,
    relativeSize: real,
    isBold: bool,
    textLen: nat,
    isAllCaps: bool,
    endsWithPunct: bool,
    numberingDepth: nat)

  // ---------------------------------------------------------------------
  // Numbering depth: `re.match(r'^((\d+(\.\d+)*))\s', text)` followed by
  // `len(match.group(1).split('.'))`, as a hand-written scanner.
  // ---------------------------------------------------------------------

  /** `p` matches `\d+(\.\d+)*`: it starts with a digit and every dot sits
      right before a digit. */
  predicate IsNumbering(p: string) {
    && p != [] && IsDigit(p[0])
    && forall i {:trigger p[i]} :: 0 <= i < |p| ==> IsDigit(p[i]) || (p[i] == '.' && i + 1 < |p| && IsDigit(p[i + 1]))
  }

  /** The regular expression matches `t` with `group(1) == t[..e]`. */
  predicate NumberingEndsAt(t: string, e: int) {
    0 < e < |t| && IsNumbering(t[..e]) && IsSpace(t[e])
  }

  function Dots(s: string): nat {
    if s == [] then 0 else Dots(s[..|s| - 1]) + (if s[|s| - 1] == '.' then 1 else 0)
  }

  /** Extend a numbering prefix `t[..i]` by digits and by `.digit` pairs as
      far as possible: the greedy run of `\d+(\.\d+)*`. */
  function ScanNumbering(t: string, i: nat): (e: nat)
    requires 1 <= i <= |t| && IsNumbering(t[..i])
    ensures i <= e <= |t| && IsNumbering(t[..e])
    ensures !(e < |t| && IsDigit(t[e]))
    ensures !(e + 1 < |t| && t[e] == '.' && IsDigit(t[e + 1]))
    decreases |t| - i
  {
    if i < |t| && IsDigit(t[i]) then
      assert IsNumbering(t[..i + 1]) by {
        assert forall j :: 0 <= j < i ==> t[..i + 1][j] == t[..i][j];
      }
      ScanNumbering(t, i + 1)
    else if i + 1 < |t| && t[i] == '.' && IsDigit(t[i + 1]) then
      assert IsNumbering(t[..i + 2]) by {
        var p := t[..i + 2];
        forall j | 0 <= j < i + 2
          ensures IsDigit(p[j]) || (p[j] == '.' && j + 1 < |p| && IsDigit(p[j + 1]))
        {
          if j < i {
            assert p[j] == t[..i][j];
            if j + 1 < i { assert p[j + 1] == t[..i][j + 1]; }
          } else {
            assert p[i] == t[i] && p[i + 1] == t[i + 1];
          }
        }
      }
      ScanNumbering(t, i + 2)
    else i
  }

  /** `numbering_depth`: the number of dot-separated digit groups in a leading
      numbering immediately followed by whitespace, otherwise 0. */
  function NumberingDepth(t: string): (d: nat)
    ensures d > 0 ==> 2 <= |t| && IsDigit(t[0])
  {
    if t != [] && IsDigit(t[0]) then
      assert IsNumbering(t[..1]);
      var e := ScanNumbering(t, 1);
      if e < |t| && IsSpace(t[e]) then Dots(t[..e]) + 1
      else 0
    else 0
  }

  /** Only one end position can satisfy the regular expression. */
  lemma NumberingEndUnique(t: string, e: nat, e': nat)
    requires 1 <= e <= |t| && IsNumbering(t[..e])
    requires !(e < |t| && IsDigit(t[e]))
    requires !(e + 1 < |t| && t[e] == '.' && IsDigit(t[e + 1]))
    requires NumberingEndsAt(t, e')
    ensures e' == e
  {
  }

  /** The scanner decides exactly what the anchored regular expression does:
      0 when nothing matches, otherwise one more than the dots in `group(1)`. */
  lemma NumberingDepthMatches(t: string)
    ensures NumberingDepth(t) > 0 ==> exists e :: NumberingEndsAt(t, e) && NumberingDepth(t) == Dots(t[..e]) + 1
    ensures forall e :: NumberingEndsAt(t, e) ==> NumberingDepth(t) == Dots(t[..e]) + 1
  {
    forall e | NumberingEndsAt(t, e)
      ensures NumberingDepth(t) == Dots(t[..e]) + 1
    {
      assert t[..e][0] == t[0];
      assert IsNumbering(t[..1]);
      NumberingEndUnique(t, ScanNumbering(t, 1), e);
    }
    if NumberingDepth(t) > 0 {
      assert IsNumbering(t[..1]);
      assert NumberingEndsAt(t, ScanNumbering(t, 1));
    }
  }

  // ---------------------------------------------------------------------
  // The stable sort of a page's blocks by their top edge.
  // ---------------------------------------------------------------------

  predicate SortedByTop(bs: seq<Block>) {
    forall i, j :: 0 <= i < j < |bs| ==> bs[i].top <= bs[j].top
  }

  /** The blocks of `bs` whose top edge is `y`, in order. */
  function AtTop(bs: seq<Block>, y: real): seq<Block> {
    Seqs.Filter((b: Block) => b.top == y, bs)
  }

  /** Insert `b` before the first block that is not above it. */
  function InsertByTop(b: Block, bs: seq<Block>): (r: seq<Block>)
    ensures multiset(r) == multiset(bs) + multiset{b}
  {
    if bs == [] || b.top <= bs[0].top then [b] + bs
    else
      assert bs == [bs[0]] + bs[1..];
      [bs[0]] + InsertByTop(b, bs[1..])
  }

  lemma {:induction false} InsertSorted(b: Block, bs: seq<Block>)
    requires SortedByTop(bs)
    ensures SortedByTop(InsertByTop(b, bs))
    decreases |bs|
  {
    if !(bs == [] || b.top <= bs[0].top) {
      var rest := bs[1..];
      InsertSorted(b, rest);
      var r0 := InsertByTop(b, rest);
      forall x | x in r0 ensures bs[0].top <= x.top {
        assert x in multiset(r0);
        if x != b {
          assert x in rest;
        }
      }
    }
  }

  /** `sorted(blocks, key=lambda b: b['bbox'][1])`. */
  function SortByTop(bs: seq<Block>): (r: seq<Block>)
    ensures multiset(r) == multiset(bs)
    ensures SortedByTop(r)
  {
    if bs == [] then []
    else
      assert bs == [bs[0]] + bs[1..];
      InsertSorted(bs[0], SortByTop(bs[1..]));
      InsertByTop(bs[0], SortByTop(bs[1..]))
  }

  lemma FilterFront(y: real, b: Block, bs: seq<Block>)
    ensures AtTop([b] + bs, y) == (if b.top == y then [b] else []) + AtTop(bs, y)
  {
    Seqs.FilterConcat((x: Block) => x.top == y, [b], bs);
    assert [b] == [] + [b];
    Seqs.FilterAppend((x: Block) => x.top == y, [], b);
  }

  lemma {:induction false} InsertStable(b: Block, bs: seq<Block>, y: real)
    requires SortedByTop(bs)
    ensures AtTop(InsertByTop(b, bs), y) == AtTop([b] + bs, y)
    decreases |bs|
  {
    if !(bs == [] || b.top <= bs[0].top) {
      var rest := bs[1..];
      assert bs == [bs[0]] + rest;
      InsertStable(b, rest, y);
      FilterFront(y, bs[0], InsertByTop(b, rest));
      FilterFront(y, b, rest);
      FilterFront(y, bs[0], [b] + rest);
      FilterFront(y, b, bs);
      FilterFront(y, bs[0], rest);
    }
  }

  /** Stability: the blocks sharing any one top edge keep their parser order. */
  lemma {:induction false} SortByTopStable(bs: seq<Block>, y: real)
    ensures AtTop(SortByTop(bs), y) == AtTop(bs, y)
  {
    if bs != [] {
      var rest := bs[1..];
      assert bs == [bs[0]] + rest;
      SortByTopStable(rest, y);
      InsertStable(bs[0], SortByTop(rest), y);
      FilterFront(y, bs[0], SortByTop(rest));
      FilterFront(y, bs[0], rest);
    }
  }

  // ---------------------------------------------------------------------
  // One block's features.
  // ---------------------------------------------------------------------

  /** The texts of all spans of all lines, in order. */
  function SpanTexts(lines: seq<Line>): seq<string> {
    if lines == [] then []
    else SpanTexts(lines[..|lines| - 1]) + Seqs.Map((s: Span) => s.text, lines[|lines| - 1].spans)
  }

  /** `" ".join(s['text'] for l in lines for s in l['spans']).strip()`. */
  function BlockText(lines: seq<Line>): (r: string)
    ensures |r| <= |JoinWith(" ", SpanTexts(lines))|
    ensures r != [] ==> !IsSpace(r[0]) && !IsSpace(r[|r| - 1])
  {
    var joined := JoinWith(" ", SpanTexts(lines));
    StripSpec(joined);
    Strip(joined)
  }

  /** The block text is a piece of the joined span texts, and it is blank
      exactly when every character of the joined texts is whitespace. */
  lemma BlockTextOfJoined(lines: seq<Line>)
    ensures exists i :: OccursAt(JoinWith(" ", SpanTexts(lines)), BlockText(lines), i)
    ensures BlockText(lines) == [] ==>
      forall i :: 0 <= i < |JoinWith(" ", SpanTexts(lines))| ==> IsSpace(JoinWith(" ", SpanTexts(lines))[i])
    ensures BlockText(lines) != [] ==>
      exists i :: 0 <= i < |JoinWith(" ", SpanTexts(lines))| && !IsSpace(JoinWith(" ", SpanTexts(lines))[i])
  {
    var joined := JoinWith(" ", SpanTexts(lines));
    StripSpec(joined);
    assert BlockText(lines) == Strip(joined);
  }

  /** The source reads `lines[0].spans[0]` of every block with text; a parser
      block always has it. */
  predicate HasLeadSpan(b: Block) {
    b.lines.Some? && BlockText(b.lines.value) != [] ==>
      |b.lines.value| > 0 && |b.lines.value[0].spans| > 0
  }

  predicate WellFormedBlocks(blocks: seq<Block>) {
    forall i :: 0 <= i < |blocks| ==> HasLeadSpan(blocks[i])
  }

  predicate WellFormedDoc(doc: seq<Page>) {
    forall p :: 0 <= p < |doc| ==> WellFormedBlocks(doc[p].blocks)
  }

  lemma SortedWellFormed(blocks: seq<Block>)
    requires WellFormedBlocks(blocks)
    ensures WellFormedBlocks(SortByTop(blocks))
  {
    var r := SortByTop(blocks);
    forall i | 0 <= i < |r| ensures HasLeadSpan(r[i]) {
      assert r[i] in multiset(blocks);
      var k :| 0 <= k < |blocks| && blocks[k] == r[i];
    }
  }

  /** `span['size'] / body_size if body_size > 0 else 1`. */
  function RelativeSize(size: real, body: int): (r: real)
    ensures body <= 0 ==> r == 1.0
    ensures body > 0 ==> r * body as real == size
  {
    if body > 0 then size / body as real else 1.0
  }

  /** `"bold" in font.lower()`. */
  function IsBoldFont(font: string): (r: bool)
    ensures r ==> |font| >= 4
  {
    ContainsIff(Lower(font), "bold");
    LowerAt(font);
    Contains(Lower(font), "bold")
  }

  /** `font[i..i + 4]` spells "bold" in any mix of ASCII case. */
  predicate BoldAt(font: string, i: int) {
    && 0 <= i <= |font| - 4
    && LowerChar(font[i]) == 'b' && LowerChar(font[i + 1]) == 'o'
    && LowerChar(font[i + 2]) == 'l' && LowerChar(font[i + 3]) == 'd'
  }

  /** The font counts as bold exactly when some position of its name spells
      "bold", whatever the case of each letter. */
  lemma IsBoldFontIff(font: string)
    ensures IsBoldFont(font) <==> exists i :: BoldAt(font, i)
  {
    ContainsIff(Lower(font), "bold");
    LowerAt(font);
    if Contains(Lower(font), "bold") {
      var i :| OccursAt(Lower(font), "bold", i);
      assert Lower(font)[i..i + 4] == "bold";
      assert Lower(font)[i + 3] == Lower(font)[i..i + 4][3];
      assert Lower(font)[i + 2] == Lower(font)[i..i + 4][2];
      assert Lower(font)[i + 1] == Lower(font)[i..i + 4][1];
      assert Lower(font)[i] == Lower(font)[i..i + 4][0];
      assert BoldAt(font, i);
    }
    if exists i :: BoldAt(font, i) {
      var i :| BoldAt(font, i);
      assert Lower(font)[i..i + 4] == "bold";
      assert OccursAt(Lower(font), "bold", i);
    }
  }

  /** A stripped text that is not empty has at least one word. */
  lemma NonEmptyHasWord(t: string)
    requires t != [] && !IsSpace(t[0])
    ensures WordCount(t) >= 1
  {
  }

  /** The feature record of one block, or `None` for a block that is skipped
      (no lines, or only whitespace). */
  function BlockFeature(b: Block, pageNum: nat, body: int): (r: Option<Feature>)
    requires HasLeadSpan(b)
    ensures b.lines.None? ==> r.None?
    ensures r.Some? ==> r.value.text != [] && !IsSpace(r.value.text[0]) && !IsSpace(r.value.text[|r.value.text| - 1])
    ensures r.Some? ==> r.value.textLen >= 1 && r.value.pageNum == pageNum
  {
    if b.lines.None? then None
    else
      var text := BlockText(b.lines.value);
      if text == [] then None
      else
        var span := b.lines.value[0].spans[0];
        NonEmptyHasWord(text);
        Some(Feature(
          text := text,
          pageNum := pageNum,
          blockNum := if b.number.Some? then b.number.value else -1,
          fontSize := span.size,
          relativeSize := RelativeSize(span.size, body),
          isBold := IsBoldFont(span.font),
          textLen := WordCount(text),
          isAllCaps := IsUpper(text),
          endsWithPunct := EndsWithChar(text, '.'),
          numberingDepth := NumberingDepth(text)))
  }

  /** A block yields a record exactly when it has lines whose joined text is
      not blank. */
  lemma BlockFeatureSkipsBlank(b: Block, pageNum: nat, body: int)
    requires HasLeadSpan(b)
    ensures BlockFeature(b, pageNum, body).Some? <==> b.lines.Some? && BlockText(b.lines.value) != []
  {
  }

  // ---------------------------------------------------------------------
  // The whole document.
  // ---------------------------------------------------------------------

  /** The records of a page's blocks, taken in the given order. */
  function PageFeatures(blocks: seq<Block>, pageNum: nat, body: int): seq<Feature>
    requires WellFormedBlocks(blocks)
  {
    if blocks == [] then []
    else
      var b := blocks[|blocks| - 1];
      var f := BlockFeature(b, pageNum, body);
      PageFeatures(blocks[..|blocks| - 1], pageNum, body) + (if f.Some? then [f.value] else [])
  }

  /** The records of every page, each page's blocks sorted by top edge. */
  function DocFeatures(doc: seq<Page>, body: int): seq<Feature>
    requires WellFormedDoc(doc)
  {
    if doc == [] then []
    else
      var blocks := SortByTop(doc[|doc| - 1].blocks);
      SortedWellFormed(doc[|doc| - 1].blocks);
      DocFeatures(doc[..|doc| - 1], body) + PageFeatures(blocks, |doc| - 1, body)
  }

  /** Every record of a page carries that page's index. */
  lemma {:induction false} PageFeaturesOnPage(blocks: seq<Block>, pageNum: nat, body: int)
    requires WellFormedBlocks(blocks)
    ensures forall f :: f in PageFeatures(blocks, pageNum, body) ==> f.pageNum == pageNum && f.textLen >= 1
  {
    if blocks != [] {
      WellFormedBlocksPrefix(blocks, |blocks| - 1);
      PageFeaturesOnPage(blocks[..|blocks| - 1], pageNum, body);
    }
  }

  /** Every record names a page of the document and holds at least one word. */
  lemma {:induction false} DocFeaturesOnPages(doc: seq<Page>, body: int)
    requires WellFormedDoc(doc)
    ensures forall f :: f in DocFeatures(doc, body) ==> f.pageNum < |doc| && f.textLen >= 1
  {
    if doc != [] {
      var k := |doc| - 1;
      DocFeaturesNextPage(doc, k, body);
      assert doc[..k + 1] == doc;
      DocFeaturesOnPages(doc[..k], body);
      PageFeaturesOnPage(SortByTop(doc[k].blocks), k, body);
    }
  }

  /** Records come page by page: their page indices never decrease. */
  lemma {:induction false} DocFeaturesInPageOrder(doc: seq<Page>, body: int)
    requires WellFormedDoc(doc)
    ensures forall i, j :: 0 <= i < j < |DocFeatures(doc, body)| ==>
      DocFeatures(doc, body)[i].pageNum <= DocFeatures(doc, body)[j].pageNum
  {
    if doc != [] {
      var k := |doc| - 1;
      DocFeaturesNextPage(doc, k, body);
      assert doc[..k + 1] == doc;
      DocFeaturesInPageOrder(doc[..k], body);
      DocFeaturesOnPages(doc[..k], body);
      var front := DocFeatures(doc[..k], body);
      var page := PageFeatures(SortByTop(doc[k].blocks), k, body);
      PageFeaturesOnPage(SortByTop(doc[k].blocks), k, body);
      ConcatInPageOrder(front, page, k);
    }
  }

  lemma ConcatInPageOrder(front: seq<Feature>, page: seq<Feature>, k: nat)
    requires forall i, j :: 0 <= i < j < |front| ==> front[i].pageNum <= front[j].pageNum
    requires forall f :: f in front ==> f.pageNum < k
    requires forall f :: f in page ==> f.pageNum == k
    ensures forall i, j :: 0 <= i < j < |front + page| ==> (front + page)[i].pageNum <= (front + page)[j].pageNum
  {
    var r := front + page;
    forall i, j | 0 <= i < j < |r| ensures r[i].pageNum <= r[j].pageNum {
      if i >= |front| {
        assert r[i] == page[i - |front|] && r[j] == page[j - |front|];
      } else if j >= |front| {
        assert r[i] == front[i] && r[j] == page[j - |front|];
      } else {
        assert r[i] == front[i] && r[j] == front[j];
      }
    }
  }

  lemma WellFormedPrefix(doc: seq<Page>, k: nat)
    requires WellFormedDoc(doc) && k <= |doc|
    ensures WellFormedDoc(doc[..k])
  {
  }

  lemma WellFormedBlocksPrefix(blocks: seq<Block>, k: nat)
    requires WellFormedBlocks(blocks) && k <= |blocks|
    ensures WellFormedBlocks(blocks[..k])
  {
  }

  lemma DocFeaturesNextPage(doc: seq<Page>, k: nat, body: int)
    requires WellFormedDoc(doc) && k < |doc|
    ensures WellFormedDoc(doc[..k]) && WellFormedDoc(doc[..k + 1])
    ensures WellFormedBlocks(SortByTop(doc[k].blocks))
    ensures DocFeatures(doc[..k + 1], body)
         == DocFeatures(doc[..k], body) + PageFeatures(SortByTop(doc[k].blocks), k, body)
  {
    WellFormedPrefix(doc, k);
    WellFormedPrefix(doc, k + 1);
    SortedWellFormed(doc[k].blocks);
    assert doc[..k + 1][..k] == doc[..k];
  }

  lemma PageFeaturesNextBlock(blocks: seq<Block>, j: nat, pageNum: nat, body: int)
    requires WellFormedBlocks(blocks) && j < |blocks|
    ensures WellFormedBlocks(blocks[..j]) && WellFormedBlocks(blocks[..j + 1]) && HasLeadSpan(blocks[j])
    ensures PageFeatures(blocks[..j + 1], pageNum, body)
         == PageFeatures(blocks[..j], pageNum, body)
            + (var f := BlockFeature(blocks[j], pageNum, body); if f.Some? then [f.value] else [])
  {
    WellFormedBlocksPrefix(blocks, j);
    WellFormedBlocksPrefix(blocks, j + 1);
    assert blocks[..j + 1][..j] == blocks[..j];
    assert blocks[..j + 1][j] == blocks[j];
  }

  /** The inner `for block in blocks` loop of `extract_features_from_pdf`:
      append the records of one page's sorted blocks. */
  method AppendPageFeatures(acc: seq<Feature>, blocks: seq<Block>, pageNum: nat, body: int)
    returns (features: seq<Feature>)
    requires WellFormedBlocks(blocks)
    ensures features == acc + PageFeatures(blocks, pageNum, body)
  {
    features := acc;
    var j := 0;
    while j < |blocks|
      invariant 0 <= j <= |blocks|
      invariant WellFormedBlocks(blocks[..j])
      invariant features == acc + PageFeatures(blocks[..j], pageNum, body)
    {
      PageFeaturesNextBlock(blocks, j, pageNum, body);
      var f := BlockFeature(blocks[j], pageNum, body);
      if f.Some? {
        features := features + [f.value];
      }
      j := j + 1;
    }
    assert blocks[..j] == blocks;
  }

  /** `extract_features_from_pdf` after the document has been opened: pages
      in order, each page's blocks sorted by their top edge. */
  method ExtractFeatures(doc: seq<Page>) returns (features: seq<Feature>)
    requires WellFormedDoc(doc)
    ensures features == DocFeatures(doc, Mode(DocTallies(doc)))
  {
    if |doc| == 0 {
      return [];
    }
    var body := BodySize(DocTallies(doc));
    features := [];
    var pageNum := 0;
    while pageNum < |doc|
      invariant 0 <= pageNum <= |doc|
      invariant WellFormedDoc(doc[..pageNum])
      invariant features == DocFeatures(doc[..pageNum], body)
    {
      DocFeaturesNextPage(doc, pageNum, body);
      var blocks := SortByTop(doc[pageNum].blocks);
      features := AppendPageFeatures(features, blocks, pageNum, body);
      pageNum := pageNum + 1;
    }
    assert doc[..pageNum] == doc;
  }
}
