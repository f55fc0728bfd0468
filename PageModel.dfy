/**
 * The page as translator/pdf_layout.py and compare_pdfs.py read it from PyMuPDF's
 * `get_text("dict")`: blocks of lines of spans, each span with its text, bounding box, font
 * name, size and colour; and the calls the rewrite makes on a target page, kept as a log.
 */
module PageModel {

  datatype Rect = Rect(x0: real, y0: real, x1: real, y1: real) {
    /** `fitz.Rect.width`: never negative. */
    function Width(): real { if x1 > x0 then x1 - x0 else 0.0 }
    function Height(): real { if y1 > y0 then y1 - y0 else 0.0 }
  }

  /** Colour components as PyMuPDF's drawing calls take them, each nominally in [0, 1]. */
  datatype Rgb = Rgb(r: real, g: real, b: real)

  /** A span colour: a packed 0xRRGGBB integer (what extraction gives) or a ready triple. */
  datatype Color = Packed(value: int) | Components(rgb: Rgb)

  datatype Span = Span(text: string, bbox: Rect, font: string, size: real, color: Color)

  datatype Line = Line(spans: seq<Span>)

  /** `kind` is the block's "type": 0 for text, 1 for images. */
  datatype Block = Block(kind: int, lines: seq<Line>)

  const TextBlock: int := 0

  /** A source page: its rectangle, its block tree and the number of images `get_images` lists. */
  datatype Page = Page(rect: Rect, blocks: seq<Block>, images: nat)

  /** One planned substitution: the span's box and style, its old text and the text to draw. */
  datatype Replacement = Replacement(bbox: Rect, oldText: string, newText: string, font: string, size: real, color: Color)

  /**
   * A call made on the target page: a redaction annotation over a box, the single
   * `apply_redactions`, or an `insert_textbox` with its size, font and colour.
   */
  datatype Op =
    | Erase(box: Rect)
    | ApplyErase
    | Insert(box: Rect, text: string, size: real, font: string, color: Rgb)

  /** A page of the translated document: the content copied from the source, and the calls made on it since. */
  datatype PageState = PageState(content: Page, ops: seq<Op>)

  /** The lines of a block the rewrite visits: all of a text block's, none of an image's. */
  function BlockLines(block: Block): seq<Line> {
    if block.kind == TextBlock then block.lines else []
  }

  /** The lines of the text blocks, in page order. */
  function TextLines(blocks: seq<Block>): seq<Line> {
    if blocks == [] then [] else BlockLines(blocks[0]) + TextLines(blocks[1..])
  }

  /** A replacement carries its span's box, old text, font, size and colour. */
  predicate Keeps(r: Replacement, s: Span) {
    r.bbox == s.bbox && r.oldText == s.text && r.font == s.font && r.size == s.size && r.color == s.color
  }

  function ReplacementFor(s: Span, newText: string): (r: Replacement)
    ensures Keeps(r, s) && r.newText == newText
  {
    Replacement(s.bbox, s.text, newText, s.font, s.size, s.color)
  }

  // ---------------------------------------------------------------------------
  // Lemmas

  lemma TextLinesStep(blocks: seq<Block>, b: nat)
    requires b < |blocks|
    ensures TextLines(blocks[b..]) == BlockLines(blocks[b]) + TextLines(blocks[b + 1..])
  {
    assert blocks[b..][1..] == blocks[b + 1..];
  }

  /** Every line the rewrite visits belongs to a text block of the page. */
  lemma {:induction false} TextLinesComeFromTextBlocks(blocks: seq<Block>, j: nat)
    requires j < |TextLines(blocks)|
    ensures exists b :: 0 <= b < |blocks| && blocks[b].kind == TextBlock && TextLines(blocks)[j] in blocks[b].lines
    decreases |blocks|
  {
    var first := BlockLines(blocks[0]);
    if j < |first| {
      assert TextLines(blocks)[j] == first[j];
    } else {
      TextLinesComeFromTextBlocks(blocks[1..], j - |first|);
      var b :| 0 <= b < |blocks[1..]| && blocks[1..][b].kind == TextBlock && TextLines(blocks[1..])[j - |first|] in blocks[1..][b].lines;
      assert blocks[b + 1] == blocks[1..][b];
    }
  }
}
