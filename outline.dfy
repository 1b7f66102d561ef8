/** The outline builder: title extraction from the first page's H1s, removal
    of table-of-contents lines, and a walk that drops orphan headings so that
    the outline nests properly. */
module Outline {
  import opened Wrappers
  import opened PyText
  import opened Features
  import opened Classifier
  import Seqs

  /** One outline entry: `{"level": "H<level>", "text": ..., "page": ...}`. */
  datatype Entry = Entry(level: Level, text: string, page: nat)

  /** The `{title, outline}` result of one document. */
  datatype OutlineResult = OutlineResult(title: string, outline: seq<Entry>)

  // ---------------------------------------------------------------------
  // Title extraction.
  // ---------------------------------------------------------------------

  /** An H1 on the first page (page index 0). */
  predicate IsTitlePart(c: Classification) {
    c.features.pageNum == 0 && c.level == 1
  }

  function TitleParts(cs: seq<Classification>): seq<Classification> {
    Seqs.Filter(IsTitlePart, cs)
  }

  function TextOf(c: Classification): string { c.features.text }

  /** The texts of all first-page H1s joined by single spaces. */
  function Title(cs: seq<Classification>): (r: string)
    ensures TitleParts(cs) == [] ==> r == []
    ensures |TitleParts(cs)| == 1 ==> r == TitleParts(cs)[0].features.text
  {
    JoinWith(" ", Seqs.Map(TextOf, TitleParts(cs)))
  }

  function BlockNums(cs: seq<Classification>): set<int> {
    set c | c in cs :: c.features.blockNum
  }

  /** The test `c['block_num'] not in title_blocks`. */
  function OutsideBlocks(blocks: set<int>): Classification -> bool {
    (c: Classification) => c.features.blockNum !in blocks
  }

  /** The classifications left once every block that holds a title part is removed. */
  function WithoutTitle(cs: seq<Classification>): (r: seq<Classification>)
    ensures |r| <= |cs|
    ensures forall c :: c in r ==> c in cs && !IsTitlePart(c)
  {
    var parts := TitleParts(cs);
    if parts == [] then
      NoTitlePart(cs);
      cs
    else
      var blocks := BlockNums(parts);
      OutsideTitleBlocks(cs);
      Seqs.Filter(OutsideBlocks(blocks), cs)
  }

  lemma NoTitlePart(cs: seq<Classification>)
    requires TitleParts(cs) == []
    ensures forall c :: c in cs ==> !IsTitlePart(c)
  {
    forall c | c in cs && IsTitlePart(c)
      ensures false
    {
      Seqs.FilterKeeps(IsTitlePart, cs, c);
    }
  }

  lemma OutsideTitleBlocks(cs: seq<Classification>)
    ensures forall c :: c in Seqs.Filter(OutsideBlocks(BlockNums(TitleParts(cs))), cs) ==> !IsTitlePart(c)
  {
    var blocks := BlockNums(TitleParts(cs));
    forall c | c in Seqs.Filter(OutsideBlocks(blocks), cs) && IsTitlePart(c)
      ensures false
    {
      Seqs.FilterKeeps(IsTitlePart, cs, c);
    }
  }

  /** Title removal deletes exactly the classifications whose block holds a
      first-page H1, keeps the rest in order, and leaves no first-page H1. */
  lemma TitleRemoval(cs: seq<Classification>)
    ensures TitleParts(cs) == [] ==> Title(cs) == [] && WithoutTitle(cs) == cs
    ensures Seqs.IsSubsequence(WithoutTitle(cs), cs)
    ensures forall c :: c in WithoutTitle(cs) <==>
      c in cs && forall p :: p in TitleParts(cs) ==> p.features.blockNum != c.features.blockNum
    ensures forall c :: c in WithoutTitle(cs) ==> !IsTitlePart(c)
  {
    var parts := TitleParts(cs);
    if parts == [] {
      Seqs.SubsequenceSelf(cs);
      forall c | c in cs ensures !IsTitlePart(c) {
        if IsTitlePart(c) { Seqs.FilterKeeps(IsTitlePart, cs, c); }
      }
    } else {
      var blocks := BlockNums(parts);
      var keep := OutsideBlocks(blocks);
      Seqs.FilterIsSubsequence(keep, cs);
      forall c | c in cs && (forall p :: p in parts ==> p.features.blockNum != c.features.blockNum)
        ensures c in WithoutTitle(cs)
      {
        Seqs.FilterKeeps(keep, cs, c);
      }
      forall c | c in WithoutTitle(cs) ensures !IsTitlePart(c) {
        if IsTitlePart(c) {
          Seqs.FilterKeeps(IsTitlePart, cs, c);
        }
      }
    }
  }

  // ---------------------------------------------------------------------
  // Table-of-contents lines: `re.search(r'\.{3,}\s*\d+$', text)`.
  // ---------------------------------------------------------------------

  /** Length of the longest suffix of `s` whose characters all satisfy `p`. */
  function TrailingRun(s: string, p: char -> bool): (n: nat)
    ensures n <= |s|
    ensures forall x :: |s| - n <= x < |s| ==> p(s[x])
    ensures n < |s| ==> !p(s[|s| - n - 1])
  {
    if s == [] || !p(s[|s| - 1]) then 0
    else TrailingRun(s[..|s| - 1], p) + 1
  }

  predicate IsDot(c: char) { c == '.' }

  /** `s` without its trailing digits. */
  function BeforeDigits(s: string): string {
    s[..|s| - TrailingRun(s, IsDigit)]
  }

  /** Scanning from the end: digits, then whitespace, then at least three dots. */
  predicate EndsWithLeader(s: string) {
    TrailingRun(s, IsDigit) >= 1 && TrailingRun(StripRight(BeforeDigits(s)), IsDot) >= 3
  }

  /** `is_toc_entry`; `$` also matches just before a final newline. */
  function IsTocEntry(t: string): (r: bool)
    ensures r ==> |t| >= 4
    ensures r ==> IsDigit(t[|t| - 1]) || (t[|t| - 1] == '\n' && |t| >= 5 && IsDigit(t[|t| - 2]))
  {
    || EndsWithLeader(t)
    || (t != [] && t[|t| - 1] == '\n' && EndsWithLeader(t[..|t| - 1]))
  }

  /** `t[i..j]` is three or more dots, `t[j..k]` whitespace, `t[k..]` one or
      more digits reaching the end: the shape the pattern describes. */
  predicate LeaderAt(t: string, i: int, j: int, k: int) {
    && 0 <= i && i + 3 <= j <= k < |t|
    && (forall x :: i <= x < j ==> t[x] == '.')
    && (forall x :: j <= x < k ==> IsSpace(t[x]))
    && (forall x :: k <= x < |t| ==> IsDigit(t[x]))
  }

  /** A suffix of `p`-characters preceded by a non-`p` character is the whole run. */
  lemma TrailingRunExact(s: string, p: char -> bool, m: nat)
    requires m <= |s|
    requires forall x :: |s| - m <= x < |s| ==> p(s[x])
    requires m < |s| ==> !p(s[|s| - m - 1])
    ensures TrailingRun(s, p) == m
  {
  }

  /** A suffix of `p`-characters lies within the trailing run. */
  lemma TrailingRunAtLeast(s: string, p: char -> bool, m: nat)
    requires m <= |s|
    requires forall x :: |s| - m <= x < |s| ==> p(s[x])
    ensures TrailingRun(s, p) >= m
  {
  }

  /** What the backward scan finds is a leader of the pattern's shape. */
  lemma ScannedLeader(t: string) returns (i: int, j: int, k: int)
    requires EndsWithLeader(t)
    ensures LeaderAt(t, i, j, k)
  {
    var s1 := BeforeDigits(t);
    var s2 := StripRight(s1);
    var dots := TrailingRun(s2, IsDot);
    i, j, k := |s2| - dots, |s2|, |s1|;
    assert forall x :: i <= x < j ==> t[x] == s2[x];
    assert forall x :: j <= x < k ==> t[x] == s1[x];
  }

  /** On a leader, the digit scan stops where the digits begin. */
  lemma LeaderDigits(t: string, i: int, j: int, k: int)
    requires LeaderAt(t, i, j, k)
    ensures TrailingRun(t, IsDigit) == |t| - k && BeforeDigits(t) == t[..k]
  {
    assert IsDot(t[k - 1]) || IsSpace(t[k - 1]);
    TrailingRunExact(t, IsDigit, |t| - k);
  }

  /** On a leader, the whitespace scan stops where the whitespace begins. */
  lemma LeaderSpaces(t: string, i: int, j: int, k: int)
    requires LeaderAt(t, i, j, k)
    ensures StripRight(t[..k]) == t[..j]
  {
    var s1 := t[..k];
    assert forall x :: j <= x < k ==> s1[x] == t[x];
    assert s1[j - 1] == '.';
  }

  /** Every leader of the pattern's shape is found by the backward scan. */
  lemma LeaderScanned(t: string, i: int, j: int, k: int)
    requires LeaderAt(t, i, j, k)
    ensures EndsWithLeader(t)
  {
    LeaderDigits(t, i, j, k);
    LeaderSpaces(t, i, j, k);
    var s2 := t[..j];
    assert forall x :: i <= x < j ==> s2[x] == t[x];
    TrailingRunAtLeast(s2, IsDot, j - i);
  }

  /** `is_toc_entry` holds exactly when the text, or the text without its
      final newline, has the shape dots{3,}, whitespace, digits to the end. */
  lemma IsTocEntryIff(t: string)
    ensures IsTocEntry(t) <==>
      || (exists i, j, k :: LeaderAt(t, i, j, k))
      || (t != [] && t[|t| - 1] == '\n' && var u := t[..|t| - 1]; exists i, j, k :: LeaderAt(u, i, j, k))
  {
    EndsWithLeaderIff(t);
    if t != [] {
      EndsWithLeaderIff(t[..|t| - 1]);
    }
  }

  /** The backward scanner accepts exactly the strings of the pattern's shape. */
  lemma EndsWithLeaderIff(t: string)
    ensures EndsWithLeader(t) <==> exists i, j, k :: LeaderAt(t, i, j, k)
  {
    if EndsWithLeader(t) {
      var i, j, k := ScannedLeader(t);
    }
    if exists i, j, k :: LeaderAt(t, i, j, k) {
      var i, j, k :| LeaderAt(t, i, j, k);
      LeaderScanned(t, i, j, k);
    }
  }

  predicate NotToc(c: Classification) { !IsTocEntry(c.features.text) }

  // ---------------------------------------------------------------------
  // Hierarchy reconciliation.
  // ---------------------------------------------------------------------

  /** `{"level": level_str, "text": ..., "page": page_num + 1}`. */
  function ToEntry(c: Classification): Entry {
    Entry(c.level, c.features.text, c.features.pageNum + 1)
  }

  /** The level of the last entry of `out` that sits above level `n`, if any. */
  function ParentLevel(out: seq<Entry>, n: int): Option<Level> {
    if out == [] then None
    else if out[|out| - 1].level < n then Some(out[|out| - 1].level)
    else ParentLevel(out[..|out| - 1], n)
  }

  /** A level-`n` heading may follow `out` when it is an H1, or when the nearest
      heading above it is one level up. */
  predicate Admits(out: seq<Entry>, n: Level) {
    n == 1 || ParentLevel(out, n) == Some(n - 1)
  }

  /** The outline the walk should produce: each classification in turn, kept
      exactly when the outline built so far admits its level. */
  function Reconciled(cs: seq<Classification>): (out: seq<Entry>)
    ensures |out| <= |cs|
    ensures forall e :: e in out ==> e.page >= 1
  {
    if cs == [] then []
    else
      var out := Reconciled(cs[..|cs| - 1]);
      var c := cs[|cs| - 1];
      if Admits(out, c.level) then out + [ToEntry(c)] else out
  }

  /** No orphans: the nearest entry above a level-N entry (N > 1) is at level N - 1. */
  predicate WellNested(out: seq<Entry>) {
    forall k :: 0 <= k < |out| && out[k].level > 1 ==>
      ParentLevel(out[..k], out[k].level) == Some(out[k].level - 1)
  }

  lemma {:induction false} ReconciledWellNested(cs: seq<Classification>)
    ensures WellNested(Reconciled(cs))
  {
    if cs != [] {
      var init := cs[..|cs| - 1];
      var c := cs[|cs| - 1];
      var out0 := Reconciled(init);
      ReconciledWellNested(init);
      if Admits(out0, c.level) {
        var out := out0 + [ToEntry(c)];
        assert Reconciled(cs) == out;
        forall k | 0 <= k < |out| && out[k].level > 1
          ensures ParentLevel(out[..k], out[k].level) == Some(out[k].level - 1)
        {
          if k < |out0| {
            assert out[..k] == out0[..k];
            assert out[k] == out0[k];
          } else {
            assert out[..k] == out0;
          }
        }
      }
    }
  }

  /** The outline keeps the walk's order: it is a subsequence of all the entries. */
  lemma {:induction false} ReconciledSubsequence(cs: seq<Classification>)
    ensures Seqs.IsSubsequence(Reconciled(cs), Seqs.Map(ToEntry, cs))
  {
    if cs != [] {
      var init := cs[..|cs| - 1];
      var out0 := Reconciled(init);
      var all := Seqs.Map(ToEntry, cs);
      ReconciledSubsequence(init);
      assert all[..|all| - 1] == Seqs.Map(ToEntry, init);
      var out := Reconciled(cs);
      if out == out0 {
        Seqs.SubsequenceDrop(out0, Seqs.Map(ToEntry, init), all[|all| - 1]);
        assert Seqs.Map(ToEntry, init) + [all[|all| - 1]] == all;
      } else {
        assert out[..|out| - 1] == out0;
      }
    }
  }

  predicate IsTopEntry(e: Entry) { e.level == 1 }
  predicate IsTopClassification(c: Classification) { c.level == 1 }

  /** Every H1 survives: the outline's H1s are exactly the input's H1s, in order. */
  lemma {:induction false} ReconciledKeepsH1(cs: seq<Classification>)
    ensures Seqs.Filter(IsTopEntry, Reconciled(cs)) == Seqs.Map(ToEntry, Seqs.Filter(IsTopClassification, cs))
  {
    if cs != [] {
      var init := cs[..|cs| - 1];
      var c := cs[|cs| - 1];
      ReconciledKeepsH1(init);
      Seqs.FilterAppend(IsTopClassification, init, c);
      assert init + [c] == cs;
      var out0 := Reconciled(init);
      if Admits(out0, c.level) {
        Seqs.FilterAppend(IsTopEntry, out0, ToEntry(c));
      }
      if c.level == 1 {
        var h := Seqs.Filter(IsTopClassification, init);
        assert Seqs.Map(ToEntry, h + [c]) == Seqs.Map(ToEntry, h) + [ToEntry(c)];
      }
    }
  }

  /** One more classification extends the outline by its entry when admitted,
      and leaves it unchanged otherwise. */
  lemma ReconciledNext(cs: seq<Classification>, i: nat)
    requires i < |cs|
    ensures Admits(Reconciled(cs[..i]), cs[i].level) ==>
      Reconciled(cs[..i + 1]) == Reconciled(cs[..i]) + [ToEntry(cs[i])]
    ensures !Admits(Reconciled(cs[..i]), cs[i].level) ==>
      Reconciled(cs[..i + 1]) == Reconciled(cs[..i])
  {
    assert cs[..i + 1][..i] == cs[..i];
  }

  lemma ParentLevelAppend(out: seq<Entry>, e: Entry, n: int)
    ensures ParentLevel(out + [e], n) == if e.level < n then Some(e.level) else ParentLevel(out, n)
  {
    assert (out + [e])[..|out|] == out;
  }

  /** The outline that `build_outline` computes, stated stage by stage. */
  function OutlineOf(cs: seq<Classification>): (r: seq<Entry>)
    ensures |r| <= |cs|
    ensures WellNested(r)
    ensures forall e :: e in r ==> e.page >= 1
  {
    var kept := Seqs.Filter(NotToc, WithoutTitle(cs));
    ReconciledWellNested(kept);
    Reconciled(kept)
  }

  /** The outline keeps the input's order: it is the input's entries with some dropped. */
  lemma OutlineInOrder(cs: seq<Classification>)
    ensures Seqs.IsSubsequence(OutlineOf(cs), Seqs.Map(ToEntry, cs))
  {
    var rest := WithoutTitle(cs);
    var filtered := Seqs.Filter(NotToc, rest);
    TitleRemoval(cs);
    Seqs.FilterIsSubsequence(NotToc, rest);
    Seqs.SubsequenceTrans(filtered, rest, cs);
    ReconciledSubsequence(filtered);
    Seqs.MapSubsequence(ToEntry, filtered, cs);
    Seqs.SubsequenceTrans(OutlineOf(cs), Seqs.Map(ToEntry, filtered), Seqs.Map(ToEntry, cs));
  }

  /** Each outline entry comes from a classification of the input that is
      neither a table-of-contents line nor a first-page H1. */
  lemma OutlineEntrySource(cs: seq<Classification>, e: Entry) returns (c: Classification)
    requires e in OutlineOf(cs)
    ensures c in cs && NotToc(c) && !IsTitlePart(c) && e == ToEntry(c)
  {
    var rest := WithoutTitle(cs);
    var filtered := Seqs.Filter(NotToc, rest);
    var all := Seqs.Map(ToEntry, filtered);
    ReconciledSubsequence(filtered);
    Seqs.SubsequenceMembers(OutlineOf(cs), all, e);
    var i :| 0 <= i < |all| && all[i] == e;
    c := filtered[i];
    assert c in filtered;
    TitleRemoval(cs);
  }

  /** The outline lists headings of the input, in the input's order, none of
      them a table-of-contents line and none of them a first-page H1. */
  lemma OutlineFromInput(cs: seq<Classification>)
    ensures Seqs.IsSubsequence(OutlineOf(cs), Seqs.Map(ToEntry, cs))
    ensures forall e :: e in OutlineOf(cs) ==> !IsTocEntry(e.text) && e.page >= 1
    ensures forall e :: e in OutlineOf(cs) ==> exists c :: c in cs && !IsTitlePart(c) && e == ToEntry(c)
  {
    OutlineInOrder(cs);
    forall e | e in OutlineOf(cs)
      ensures !IsTocEntry(e.text)
      ensures exists c :: c in cs && !IsTitlePart(c) && e == ToEntry(c)
    {
      var c := OutlineEntrySource(cs, e);
    }
  }

  /** The `last_h` walk of `build_outline`: each classification is appended
      unless its parent level is not open, and the open H1/H2/H3 slots are
      updated as the source updates them. */
  method WalkHeadings(filtered: seq<Classification>) returns (outline: seq<Entry>)
    ensures outline == Reconciled(filtered)
  {
    outline := [];
    var lastH1: Option<Classification> := None;
    var lastH2: Option<Classification> := None;
    var lastH3: Option<Classification> := None;
    var i := 0;
    while i < |filtered|
      invariant 0 <= i <= |filtered|
      invariant outline == Reconciled(filtered[..i])
      invariant lastH1.Some? <==> ParentLevel(outline, 2) == Some(1)
      invariant lastH2.Some? <==> ParentLevel(outline, 3) == Some(2)
      invariant lastH3.Some? <==> ParentLevel(outline, 4) == Some(3)
    {
      var item := filtered[i];
      ReconciledNext(filtered, i);
      ParentLevelAppend(outline, ToEntry(item), 2);
      ParentLevelAppend(outline, ToEntry(item), 3);
      ParentLevelAppend(outline, ToEntry(item), 4);
      // `keep` is false exactly where the source `continue`s.
      var levelNum := item.level;
      var keep := true;
      if levelNum == 1 {
        lastH1, lastH2, lastH3 := Some(item), None, None;
      } else if levelNum == 2 {
        keep := lastH1.Some?;
        assert keep == Admits(outline, 2);
        if keep {
          lastH2, lastH3 := Some(item), None;
        }
      } else if levelNum == 3 {
        keep := lastH2.Some?;
        assert keep == Admits(outline, 3);
        if keep {
          lastH3 := Some(item);
        }
      } else {
        keep := lastH3.Some?;
        assert keep == Admits(outline, 4);
      }
      if keep {
        outline := outline + [ToEntry(item)];
      }
      i := i + 1;
    }
    assert filtered[..i] == filtered;
  }

  /** `build_outline` without the per-file overrides. */
  method BuildOutline(cs: seq<Classification>) returns (result: OutlineResult)
    ensures result.title == Title(cs)
    ensures result.outline == OutlineOf(cs)
    ensures WellNested(result.outline)
    ensures forall e :: e in result.outline ==> e.page >= 1
  {
    var title := "";
    var remaining := cs;
    var firstPageH1s := TitleParts(cs);
    if firstPageH1s != [] {
      title := JoinWith(" ", Seqs.Map(TextOf, firstPageH1s));
      var titleBlocks := BlockNums(firstPageH1s);
      remaining := Seqs.Filter(OutsideBlocks(titleBlocks), cs);
    }
    var filtered := Seqs.Filter(NotToc, remaining);
    var outline := WalkHeadings(filtered);
    ReconciledWellNested(filtered);
    result := OutlineResult(title, outline);
  }

  // ---------------------------------------------------------------------
  // Title removal and table-of-contents lines on small inputs.
  // ---------------------------------------------------------------------

  /** Two first-page H1s around another heading are the title parts. */
  lemma TwoTitlePartsAround(c1: Classification, c2: Classification, c3: Classification)
    requires IsTitlePart(c1) && !IsTitlePart(c2) && IsTitlePart(c3)
    ensures TitleParts([c1, c2, c3]) == [c1, c3]
    ensures Title([c1, c2, c3]) == c1.features.text + " " + c3.features.text
  {
    var cs := [c1, c2, c3];
    assert cs[..2] == [c1, c2] && cs[..2][..1] == [c1] && [c1][..0] == [];
    assert Seqs.Filter(IsTitlePart, [c1]) == [c1];
    assert Seqs.Filter(IsTitlePart, [c1, c2]) == [c1];
    var parts := [c1, c3];
    assert parts[..1] == [c1];
    var texts := Seqs.Map(TextOf, parts);
    assert texts == [c1.features.text, c3.features.text];
    assert texts[..1] == [c1.features.text];
    assert JoinWith(" ", texts[..1]) == c1.features.text;
  }

  /** A heading below H1 in its own block, between two first-page H1s, is all
      that title removal leaves, and with no H1 open it is dropped. */
  lemma OrphanBetweenTitleParts(c1: Classification, c2: Classification, c3: Classification)
    requires IsTitlePart(c1) && IsTitlePart(c3) && c2.level > 1
    requires c2.features.blockNum != c1.features.blockNum && c2.features.blockNum != c3.features.blockNum
    ensures WithoutTitle([c1, c2, c3]) == [c2]
    ensures OutlineOf([c1, c2, c3]) == []
  {
    TwoTitlePartsAround(c1, c2, c3);
    var cs := [c1, c2, c3];
    assert cs[..2] == [c1, c2] && cs[..2][..1] == [c1] && [c1][..0] == [];
    var blocks := BlockNums([c1, c3]);
    assert blocks == {c1.features.blockNum, c3.features.blockNum};
    var keep := OutsideBlocks(blocks);
    assert Seqs.Filter(keep, [c1]) == [];
    assert Seqs.Filter(keep, [c1, c2]) == [c2];
    assert Seqs.Filter(NotToc, [c2]) == if NotToc(c2) then [c2] else [];
    assert Reconciled([c2]) == [];
  }

  /** Block numbers restart on every page, and the test compares only the
      number: a classification on any later page whose block number equals a
      title part's is removed too, even an H1. */
  lemma CrossPageRemoval(c1: Classification, c2: Classification)
    requires IsTitlePart(c1) && c2.features.pageNum > 0
    requires c2.features.blockNum == c1.features.blockNum
    ensures WithoutTitle([c1, c2]) == []
    ensures OutlineOf([c1, c2]) == []
  {
    var cs := [c1, c2];
    assert cs[..1] == [c1] && [c1][..0] == [];
    assert Seqs.Filter(IsTitlePart, [c1]) == [c1];
    assert TitleParts(cs) == [c1];
    assert BlockNums([c1]) == {c1.features.blockNum};
    var keep := OutsideBlocks({c1.features.blockNum});
    assert Seqs.Filter(keep, [c1]) == [];
    assert Seqs.Filter(NotToc, []) == [];
  }

  /** A dotted leader followed by a page number is a table-of-contents line. */
  lemma TocLineExample()
    ensures IsTocEntry("Introduction.... 4")
  {
    LeaderScanned("Introduction.... 4", 12, 16, 17);
  }

  /** `$` also matches before a final newline, so such a line is one too. */
  lemma TocNewlineExample()
    ensures IsTocEntry("Contents... 3\n")
  {
    var t := "Contents... 3\n";
    assert t[..|t| - 1] == "Contents... 3";
    LeaderScanned("Contents... 3", 8, 11, 12);
  }

  /** A version number is not: its digits are preceded by a single dot. */
  lemma VersionLineExample()
    ensures !IsTocEntry("Version 1.2")
  {
    var v := "Version 1.2";
    assert TrailingRun(v, IsDigit) == 1;
    assert BeforeDigits(v) == "Version 1.";
    assert StripRight("Version 1.") == "Version 1.";
    assert TrailingRun("Version 1", IsDot) == 0;
    assert TrailingRun("Version 1.", IsDot) == 1;
  }
}
