/** What the PDF parser hands to the pipeline: pages of blocks of lines of
    spans, in parser order. Only the fields the pipeline reads are kept. */
module Document {
  import opened Wrappers

  /** One span: its text, its font size and its font name. */
  datatype Span = Span(text: string, size: real, font: string)

  datatype Line = Line(spans: seq<Span>)

  /** A block. `lines` is `None` for a block without a "lines" entry (an
      image block); `top` is the upper edge of its bounding box (`bbox[1]`);
      `number` is the parser's optional block number. */
  datatype Block = Block(lines: Option<seq<Line>>, top: real, number: Option<int>)

  datatype Page = Page(blocks: seq<Block>)
}
