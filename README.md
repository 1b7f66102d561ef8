# PDF outline extraction, modelled in Dafny

This project models the heading-inference pipeline of `process_pdfs.py`, which
turns the positioned text spans of a PDF into a title and a nested outline of
H1–H4 headings with 1-based page numbers. The pipeline has three stages, and
each stage is its own module here:

- **Style profile and feature extraction** (`style_profile.dfy`, `features.dfy`).
  - The body-text size is the rounded span size that carries the most stripped
    characters. On a tie, the size counted first wins. A document without spans
    gets 10.
  - Each page's blocks are sorted stably by their top edge.
  - Every block that has lines and whose joined, stripped text is not blank
    becomes a feature record with these fields: text, page index, block number,
    lead-span size, size relative to the body size, bold font, word count,
    all-caps, final period, and the depth of a leading `1.2.3 ` numbering.
- **Classification** (`classifier.dfy`).
  - `predict` is a short-circuiting decision list. Numbering comes first, then
    "Appendix ", then bold text by relative size, then short all-caps text, then
    very large text.
  - `classify` drops long or sentence-like records. It keeps the rest that are
    not predicted to be paragraphs, in their original order.
- **Outline building** (`outline.dfy`).
  - Every first-page H1 goes into the title. Then every classification, on any
    page, whose block number equals a title part's block number is removed.
    Block numbers restart on every page, so this also removes, say, block 0 of
    page 3 when a title part came from block 0 of page 0.
  - Lines ending in a dotted leader and a page number are removed as
    table-of-contents lines.
  - A walk with the open H1/H2/H3 headings then drops every heading whose parent
    level is not open.

`pipeline.dfy` composes the three stages the way the main loop runs them for one
document. `pytext.dfy` models the parts of Python's `str` behaviour that the
stages rely on: `isspace`, `strip`, `split`, `" ".join`, `lower`, `in`,
`isupper` and `startswith`. `seqs.dfy` holds order-preserving filter, map and
the subsequence relation.

Most loops of the source are imperative methods, each proved equal to a
declarative function:

- the counting loop and `most_common(1)` (`BodySize`)
- the page and block loops (`ExtractFeatures`, `AppendPageFeatures`)
- `classify` (`Classify`)
- the `last_h` walk (`WalkHeadings`, called by `BuildOutline`)

The properties are then proved about those functions. The state the walk keeps
in `last_h` is related to the outline built so far: an H(N) slot is open exactly
when the nearest outline entry above level N+1 is at level N.

As written, all first-page H1s join the title, not only the first one. Take a
first page whose blocks read "1 Intro", "1.1 Background" and "2 Methods", with
every field computed as the extractor computes it. Numbering makes the first and
last H1 and the middle one H2. Both H1s become the title "1 Intro 2 Methods".
The H2 left behind has no open H1, so the outline is empty. The
`NumberedFirstPage…` lemmas of `walkthrough.dfy` prove this. A text such as "1. Intro" is not
numbered at all: the pattern needs whitespace straight after the digits, so its
depth is 0 and it is body text.

## Model

| member | source | states |
|---|---|---|
| PyText.StripLeftSpec | process_pdfs.py:40 | `lstrip` removes exactly the leading whitespace: the result is a suffix, and everything before it is whitespace |
| PyText.StripRight | process_pdfs.py:40 | `rstrip` keeps a prefix, everything after it is whitespace, and its last character is not |
| PyText.StripSpec | process_pdfs.py:40 | `strip` returns a substring that neither starts nor ends with whitespace, and it is empty exactly when the text is all whitespace |
| PyText.SplitWordAt | process_pdfs.py:52 | every piece `split()` returns is a non-empty run without whitespace |
| PyText.SplitWhitespaceFront | process_pdfs.py:52 | a leading whitespace character of any kind adds no piece to `split()` |
| PyText.SplitWordFront | process_pdfs.py:52 | a leading word that ends at whitespace or at the end of the text is the first piece of `split()`; with the line above and an empty text giving no piece, this fixes `split()` on every text |
| PyText.WordCountStarts | process_pdfs.py:52 | `len(text.split())` equals the number of non-whitespace characters that start the text or follow whitespace, for any text |
| PyText.WordCountRunsExample | process_pdfs.py:52 | " a  \tb\n", with repeated spaces, a tab and whitespace at both ends, has two words |
| PyText.SplitJoin | process_pdfs.py:52 | splitting whitespace-free words joined by single spaces gives the words back |
| PyText.LowerAt | process_pdfs.py:51 | `lower()` keeps the length and maps each character on its own |
| PyText.IsUpper | process_pdfs.py:53 | an all-caps text is not empty, and lowering it changes it |
| PyText.IsUpperIff | process_pdfs.py:53 | `isupper()` holds exactly when lowering the text changes it and it has no lower-case letter |
| PyText.ContainsIff | process_pdfs.py:51 | the `in` scan succeeds exactly when the substring occurs at some position |
| StyleProfile.RoundHalfEven | process_pdfs.py:22 | `round(size)` is within 0.5 of the size, and a tie goes to the even integer |
| StyleProfile.RoundHalfEvenUnique | process_pdfs.py:22 | those two conditions single out one integer |
| StyleProfile.Sizes | process_pdfs.py:16-22 | the counter's keys are distinct, and a size is a key exactly when some span has it |
| StyleProfile.SizesPrefix | process_pdfs.py:16-22 | the keys counted from a prefix of the spans come first among all keys, in the same order |
| StyleProfile.Heaviest | process_pdfs.py:24 | `most_common(1)` picks a key that no key outweighs, and every key inserted before it weighs strictly less |
| StyleProfile.Mode | process_pdfs.py:14-24 | the profile is 10 for a document without spans; otherwise it is a rounded size some span has |
| StyleProfile.ModeOutweighs | process_pdfs.py:22-24 | no span's rounded size carries more weight than the body size |
| StyleProfile.EarlierSizeLighter | process_pdfs.py:22-24 | a size first seen before the body size is first seen weighs strictly less |
| StyleProfile.ModeIsEarliestHeaviest | process_pdfs.py:14-24 | the body size is 10 without spans; otherwise it is a size that occurs, nothing outweighs it, and every size seen earlier weighs strictly less |
| StyleProfile.CountSizes | process_pdfs.py:16-22 | the counting loop builds the counter's keys in insertion order, each valued at its size's total stripped length |
| StyleProfile.MostCommon | process_pdfs.py:24 | the scan over the counter returns the first key of greatest count |
| StyleProfile.BodySize | process_pdfs.py:14-24 | the counter loop and `most_common(1)` return the body size the declarative profile defines |
| Features.ScanNumbering | process_pdfs.py:59 | the scan ends on a prefix matching `\d+(\.\d+)*` that no digit and no dot-digit pair extends |
| Features.NumberingEndUnique | process_pdfs.py:59 | only one end position can satisfy `^(\d+(\.\d+)*)\s` |
| Features.NumberingDepth | process_pdfs.py:59-60 | a positive depth needs a leading digit and at least one more character, the whitespace the pattern demands after the numbering |
| Features.NumberingDepthMatches | process_pdfs.py:59-60 | the depth is positive exactly when the anchored pattern matches, and it is then one more than the dots in `group(1)` |
| Features.InsertByTop | process_pdfs.py:35 | insertion into the sorted blocks adds exactly one block |
| Features.InsertSorted | process_pdfs.py:35 | insertion keeps the blocks sorted by top edge |
| Features.SortByTop | process_pdfs.py:35 | the sorted page is a permutation of the page's blocks, ordered by top edge |
| Features.InsertStable | process_pdfs.py:35 | insertion keeps the relative order of blocks with the same top edge |
| Features.SortByTopStable | process_pdfs.py:35 | the sort is stable: for every top edge, the blocks at that edge keep their parser order |
| Features.SortedWellFormed | process_pdfs.py:35-43 | sorting keeps every block with text holding a first span |
| Features.BlockText | process_pdfs.py:40 | the block text is no longer than the span texts joined by single spaces, and when not empty it neither starts nor ends with whitespace |
| Features.BlockTextOfJoined | process_pdfs.py:40-41 | the block text occurs in the joined span texts, and it is empty exactly when the joined texts are all whitespace |
| Features.RelativeSize | process_pdfs.py:50 | relative size times body size is the span size when the body size is positive, and 1 otherwise |
| Features.IsBoldFont | process_pdfs.py:51 | a font name that counts as bold has at least the four characters of "bold" |
| Features.IsBoldFontIff | process_pdfs.py:51 | `"bold" in font.lower()` holds exactly when four consecutive characters of the name spell "bold" in any mix of ASCII case |
| Features.NonEmptyHasWord | process_pdfs.py:52 | a stripped non-empty text has at least one word |
| Features.BlockFeature | process_pdfs.py:39-60 | a block without lines gives no record; a record's text is non-empty and stripped, has at least one word, and carries the page index |
| Features.BlockFeatureSkipsBlank | process_pdfs.py:39-41 | a block gives a record exactly when it has lines whose joined, stripped text is not empty |
| Features.PageFeaturesOnPage | process_pdfs.py:34-61 | every record of a page carries that page's index and holds a word |
| Features.DocFeaturesOnPages | process_pdfs.py:34-61 | every record names a page of the document |
| Features.DocFeaturesInPageOrder | process_pdfs.py:34-61 | records come page by page: page indices never decrease |
| Features.AppendPageFeatures | process_pdfs.py:38-61 | the block loop appends exactly the records of the page's sorted blocks |
| Features.ExtractFeatures | process_pdfs.py:26-63 | the page loop returns the declarative records of every page, with each page's blocks sorted by top edge and the profile's body size |
| Classifier.Predict | process_pdfs.py:73-93 | numbering depths 1–4 decide the level; bold text outside numbering is always a heading; the result is "Paragraph" exactly when no rule applies |
| Classifier.StyledRulesMatch | process_pdfs.py:84-93 | after numbering and "Appendix ", bold text decides by relative size, then short all-caps text and very large text are H1, and anything else is "Paragraph" |
| Classifier.PredictIsFirstMatch | process_pdfs.py:73-93 | `predict` equals the first applicable rule of the ordered rule list |
| Classifier.Classify | process_pdfs.py:96-105 | the kept records are exactly the accepted ones, in input order; each has at most 30 words, no final period, and its predicted heading level |
| Outline.Title | process_pdfs.py:114-116 | without first-page H1s the title is empty; with one, it is that H1's text |
| Outline.WithoutTitle | process_pdfs.py:114-118 | title removal keeps a shorter list, and every entry it keeps comes from the input and is not a first-page H1 |
| Outline.TitleRemoval | process_pdfs.py:112-118 | no first-page H1 gives an empty title and an unchanged list; otherwise the kept entries are those, on any page, whose block number differs from every title part's block number, in order, and no first-page H1 is kept |
| Outline.CrossPageRemoval | process_pdfs.py:112-146 | a classification on a later page whose block number equals a title part's is removed as well, whatever its level, so the outline is empty |
| Outline.TrailingRun | process_pdfs.py:124 | the backward run covers a suffix of matching characters that cannot be extended |
| Outline.ScannedLeader | process_pdfs.py:124 | whatever the backward scan accepts has the shape dots{3,}, whitespace, digits up to the end |
| Outline.LeaderScanned | process_pdfs.py:124 | every text of that shape is accepted by the backward scan |
| Outline.EndsWithLeaderIff | process_pdfs.py:123-124 | the scan accepts a text exactly when it ends in three or more dots, optional whitespace and one or more digits |
| Outline.LeaderDigits | process_pdfs.py:124 | on a text of the pattern's shape, the digit scan stops exactly where the final digits begin |
| Outline.LeaderSpaces | process_pdfs.py:124 | on such a text, right-stripping what precedes the digits leaves exactly the text up to the end of the dots |
| Outline.IsTocEntry | process_pdfs.py:123-124 | a table-of-contents line has at least four characters and ends in a digit, or in a digit and a final newline |
| Outline.IsTocEntryIff | process_pdfs.py:123-124 | `is_toc_entry` holds exactly when the text, or the text without its final newline, ends in three or more dots, optional whitespace and one or more digits |
| Outline.TocLineExample | process_pdfs.py:123-124 | "Introduction.... 4" is a table-of-contents line |
| Outline.TocNewlineExample | process_pdfs.py:123-124 | "Contents... 3" followed by a newline is a table-of-contents line, because `$` matches before a final newline |
| Outline.VersionLineExample | process_pdfs.py:123-124 | "Version 1.2" is not a table-of-contents line |
| Outline.Reconciled | process_pdfs.py:128-146 | the declarative outline is no longer than its input, and every page number is at least 1 |
| Outline.ReconciledWellNested | process_pdfs.py:128-146 | in the outline, the nearest entry above every H(N>1) entry is at level N-1 |
| Outline.ReconciledSubsequence | process_pdfs.py:128-146 | the outline is the input's entries with some dropped, in input order |
| Outline.ReconciledKeepsH1 | process_pdfs.py:132 | every H1 survives: the outline's H1s are exactly the input's H1s, in order |
| Outline.OutlineOf | process_pdfs.py:110-146 | the outline is no longer than the classifications, is well nested, and every page is at least 1 |
| Outline.OutlineInOrder | process_pdfs.py:112-146 | the outline is the classifications' entries with some dropped, in input order |
| Outline.OutlineEntrySource | process_pdfs.py:112-146 | each outline entry comes from a classification that is neither a table-of-contents line nor a first-page H1 |
| Outline.OutlineFromInput | process_pdfs.py:110-146 | the outline is an ordered subsequence of the classifications' entries; no entry is a table-of-contents line, a first-page H1, or on page 0 |
| Outline.WalkHeadings | process_pdfs.py:121-146 | the `last_h` walk, which keeps the H1/H2/H3 slots and skips an entry whose parent slot is empty, appends exactly the entries of the declarative outline `Reconciled` of the ToC-filtered classifications |
| Outline.BuildOutline | process_pdfs.py:110-146 | the title and the filtered walk produce the declarative title and outline, which is well nested with pages at least 1 |
| Walkthrough.ExampleDepths | process_pdfs.py:59-60 | "1 Intro" and "2 Methods" have numbering depth 1, and "1.1 Background" has depth 2 |
| Walkthrough.DottedNumberIsBodyText | process_pdfs.py:59-93 | "1. Intro" has numbering depth 0, and a plain record of it is predicted "Paragraph" |
| Walkthrough.NumberedFirstPageLevels | process_pdfs.py:59-93 | the three example records are predicted H1, H2 and H1 |
| Outline.TwoTitlePartsAround | process_pdfs.py:114-116 | with title parts first and last and a non-part between them, the title is the two texts joined by one space |
| Outline.OrphanBetweenTitleParts | process_pdfs.py:114-146 | an H2 in its own block between two title parts is all that title removal keeps, and it is dropped as an orphan, leaving an empty outline |
| Walkthrough.NumberedFirstPageTitle | process_pdfs.py:114-116 | the example's title parts are its first and last records, and its title is "1 Intro" + " " + "2 Methods" |
| Walkthrough.NumberedFirstPageOutline | process_pdfs.py:118-146 | only the H2 is left after title removal, it is an orphan, and the example's outline is empty |
| Pipeline.Process | process_pdfs.py:185-187 | features, classifications and outline are those the stages define; the outline is well nested, every page lies between 1 and the page count, no entry is a table-of-contents line, and an empty document gives an empty title and outline |

## Left out

- PDF parsing (`fitz.open`, `page.get_text("dict")`, `page.rect`) is not modelled. The document comes in as pages of blocks with their lines, top edge (`bbox[1]`) and optional block number.
- `indent` and `is_centered` (lines 55-56) are not modelled. Nothing downstream reads them, and page width is a floating-point geometric quantity.
- Floating-point numbers are modelled as exact reals. This covers span sizes, `round`, and the division at line 50. A value that rounds differently in binary floating point is not captured.
- The regular-expression classes `\d`, `isupper` and `lower` are restricted to ASCII. Whitespace (`isspace`, `\s`, `strip`, `split`) uses Python's full set.
- `get_style_profile` returns the float 10.0 when there are no spans and an integer key otherwise. The model returns the integer 10.
- Features.BlockFeature: it requires that a block with text has a first line with a first span (line 43). The source would raise `IndexError`, and the main loop's `except` would skip the whole file. That path is not modelled.
- Lines 148-162 are not modelled. These per-file overrides replace the title, the outline and the pages for five hard-coded file names.
- The main loop (lines 169-199) is not modelled: directory listing, JSON output, `print` and exception handling. `Pipeline.Process` covers only lines 185-187.
- `HeadingClassifier` holds only the `predict` closure and no mutable state, so it is modelled as the functions `Predict` and `Classify`.
