/**
 * `analyze_page` of compare_pdfs.py: the layout statistics of one page. A first walk over the
 * text blocks counts blocks, lines and spans, keeps the positive font sizes and the non-blank
 * font names; a second walk gathers the span boxes, whose extreme edges give the margins.
 */
module PageAnalysis {
  import opened Text
  import opened PageModel

  /** The four margins and the page size, in points. */
  datatype Margins = Margins(left: real, right: real, top: real, bottom: real, width: real, height: real)

  /** The record `analyze_page` returns (the font list is kept as the set it is sorted from). */
  datatype PageStats = PageStats(
    blocks: nat, lines: nat, spans: nat,
    avgSize: real, minSize: real, maxSize: real,
    fonts: set<string>, images: nat, margins: Margins)

  /** What the first walk has gathered so far: the three counters, `font_sizes` and `fonts`. */
  datatype Tally = Tally(blocks: nat, lines: nat, spans: nat, sizes: seq<real>, fonts: set<string>)

  const EmptyTally := Tally(0, 0, 0, [], {})

  // ---------------------------------------------------------------------------
  // Reference definitions: the text spans of a page and what is read off them

  /** The spans of the given lines, in order. */
  function SpansOfLines(lines: seq<Line>): seq<Span> {
    if lines == [] then [] else lines[0].spans + SpansOfLines(lines[1..])
  }

  /** Every span of every text block, in page order. */
  function PageSpans(blocks: seq<Block>): seq<Span> {
    SpansOfLines(TextLines(blocks))
  }

  function TextBlockCount(blocks: seq<Block>): (n: nat)
    ensures n <= |blocks|
  {
    if blocks == [] then 0
    else (if blocks[0].kind == TextBlock then 1 else 0) + TextBlockCount(blocks[1..])
  }

  /** The span sizes above zero, in order. */
  function PositiveSizes(spans: seq<Span>): (r: seq<real>)
    ensures |r| <= |spans|
    ensures forall x :: x in r ==> x > 0.0
  {
    if spans == [] then []
    else (if spans[0].size > 0.0 then [spans[0].size] else []) + PositiveSizes(spans[1..])
  }

  /** The stripped font names that are not empty. */
  function FontSet(spans: seq<Span>): set<string> {
    if spans == [] then {}
    else (if Strip(spans[0].font) != "" then {Strip(spans[0].font)} else {}) + FontSet(spans[1..])
  }

  function BoxesOf(spans: seq<Span>): (r: seq<Rect>)
    ensures |r| == |spans|
  {
    if spans == [] then [] else [spans[0].bbox] + BoxesOf(spans[1..])
  }

  function Sum(xs: seq<real>): real {
    if xs == [] then 0.0 else xs[0] + Sum(xs[1..])
  }

  function SeqMin(xs: seq<real>): (m: real)
    requires xs != []
    ensures m in xs && forall x :: x in xs ==> m <= x
  {
    if |xs| == 1 then xs[0]
    else
      var rest := SeqMin(xs[1..]);
      assert forall x :: x in xs ==> x == xs[0] || x in xs[1..];
      if xs[0] <= rest then xs[0] else rest
  }

  function SeqMax(xs: seq<real>): (m: real)
    requires xs != []
    ensures m in xs && forall x :: x in xs ==> x <= m
  {
    if |xs| == 1 then xs[0]
    else
      var rest := SeqMax(xs[1..]);
      assert forall x :: x in xs ==> x == xs[0] || x in xs[1..];
      if xs[0] >= rest then xs[0] else rest
  }

  /** `avg`, `mn` and `mx`: 0 for a page with no positive size. */
  function SizeSummary(sizes: seq<real>): (real, real, real) {
    if sizes == [] then (0.0, 0.0, 0.0)
    else (Sum(sizes) / |sizes| as real, SeqMin(sizes), SeqMax(sizes))
  }

  function Lefts(boxes: seq<Rect>): seq<real> { seq(|boxes|, i requires 0 <= i < |boxes| => boxes[i].x0) }
  function Rights(boxes: seq<Rect>): seq<real> { seq(|boxes|, i requires 0 <= i < |boxes| => boxes[i].x1) }
  function Tops(boxes: seq<Rect>): seq<real> { seq(|boxes|, i requires 0 <= i < |boxes| => boxes[i].y0) }
  function Bottoms(boxes: seq<Rect>): seq<real> { seq(|boxes|, i requires 0 <= i < |boxes| => boxes[i].y1) }

  /** The distance from each page edge to the nearest span edge; 0 on a page without spans. */
  function MarginsOf(page: Rect, boxes: seq<Rect>): Margins {
    if boxes == [] then Margins(0.0, 0.0, 0.0, 0.0, page.Width(), page.Height())
    else Margins(SeqMin(Lefts(boxes)) - page.x0, page.x1 - SeqMax(Rights(boxes)),
                 SeqMin(Tops(boxes)) - page.y0, page.y1 - SeqMax(Bottoms(boxes)),
                 page.Width(), page.Height())
  }

  /** The statistics of a page, read off its text spans. */
  function Stats(page: Page): PageStats {
    var spans := PageSpans(page.blocks);
    var sizes := PositiveSizes(spans);
    var (avg, mn, mx) := SizeSummary(sizes);
    PageStats(TextBlockCount(page.blocks), |TextLines(page.blocks)|, |spans|, avg, mn, mx,
              FontSet(spans), page.images, MarginsOf(page.rect, BoxesOf(spans)))
  }

  // ---------------------------------------------------------------------------
  // The two walks, step by step

  /** One span of the first walk: count it, keep its size if positive and its font if not blank. */
  function AddSpan(t: Tally, s: Span): Tally {
    var f := Strip(s.font);
    t.(spans := t.spans + 1,
       sizes := if s.size > 0.0 then t.sizes + [s.size] else t.sizes,
       fonts := if f != "" then t.fonts + {f} else t.fonts)
  }

  function FoldSpans(t: Tally, spans: seq<Span>): Tally
    decreases |spans|
  {
    if spans == [] then t else FoldSpans(AddSpan(t, spans[0]), spans[1..])
  }

  function FoldLines(t: Tally, lines: seq<Line>): Tally
    decreases |lines|
  {
    if lines == [] then t else FoldLines(FoldSpans(t.(lines := t.lines + 1), lines[0].spans), lines[1..])
  }

  function FoldBlocks(t: Tally, blocks: seq<Block>): Tally
    decreases |blocks|
  {
    if blocks == [] then t
    else
      var b := blocks[0];
      FoldBlocks(if b.kind != TextBlock then t else FoldLines(t.(blocks := t.blocks + 1), b.lines), blocks[1..])
  }

  function BoxSpans(acc: seq<Rect>, spans: seq<Span>): seq<Rect>
    decreases |spans|
  {
    if spans == [] then acc else BoxSpans(acc + [spans[0].bbox], spans[1..])
  }

  function BoxLines(acc: seq<Rect>, lines: seq<Line>): seq<Rect>
    decreases |lines|
  {
    if lines == [] then acc else BoxLines(BoxSpans(acc, lines[0].spans), lines[1..])
  }

  function BoxBlocks(acc: seq<Rect>, blocks: seq<Block>): seq<Rect>
    decreases |blocks|
  {
    if blocks == [] then acc
    else BoxBlocks(if blocks[0].kind != TextBlock then acc else BoxLines(acc, blocks[0].lines), blocks[1..])
  }

  // ---------------------------------------------------------------------------
  // The walks as loops

  method CountSpans(t: Tally, spans: seq<Span>) returns (r: Tally)
    ensures r == FoldSpans(t, spans)
  {
    var count, sizes, fonts := t.spans, t.sizes, t.fonts;
    for i := 0 to |spans|
      invariant FoldSpans(Tally(t.blocks, t.lines, count, sizes, fonts), spans[i..]) == FoldSpans(t, spans)
    {
      assert spans[i..][1..] == spans[i + 1..];
      var sp := spans[i];
      count := count + 1;
      if sp.size > 0.0 {
        sizes := sizes + [sp.size];
      }
      var f := Strip(sp.font);
      if f != "" {
        fonts := fonts + {f};
      }
    }
    r := Tally(t.blocks, t.lines, count, sizes, fonts);
  }

  method CountLines(t: Tally, lines: seq<Line>) returns (r: Tally)
    ensures r == FoldLines(t, lines)
  {
    r := t;
    for i := 0 to |lines|
      invariant FoldLines(r, lines[i..]) == FoldLines(t, lines)
    {
      assert lines[i..][1..] == lines[i + 1..];
      r := r.(lines := r.lines + 1);
      r := CountSpans(r, lines[i].spans);
    }
  }

  /** The first walk over the blocks, from nothing counted. */
  method CountBlocks(blocks: seq<Block>) returns (r: Tally)
    ensures r == FoldBlocks(EmptyTally, blocks)
  {
    r := EmptyTally;
    for i := 0 to |blocks|
      invariant FoldBlocks(r, blocks[i..]) == FoldBlocks(EmptyTally, blocks)
    {
      assert blocks[i..][1..] == blocks[i + 1..];
      if blocks[i].kind != TextBlock {
        continue;
      }
      r := r.(blocks := r.blocks + 1);
      r := CountLines(r, blocks[i].lines);
    }
  }

  method GatherSpanBoxes(acc: seq<Rect>, spans: seq<Span>) returns (r: seq<Rect>)
    ensures r == BoxSpans(acc, spans)
  {
    r := acc;
    for i := 0 to |spans|
      invariant BoxSpans(r, spans[i..]) == BoxSpans(acc, spans)
    {
      assert spans[i..][1..] == spans[i + 1..];
      r := r + [spans[i].bbox];
    }
  }

  method GatherLineBoxes(acc: seq<Rect>, lines: seq<Line>) returns (r: seq<Rect>)
    ensures r == BoxLines(acc, lines)
  {
    r := acc;
    for i := 0 to |lines|
      invariant BoxLines(r, lines[i..]) == BoxLines(acc, lines)
    {
      assert lines[i..][1..] == lines[i + 1..];
      r := GatherSpanBoxes(r, lines[i].spans);
    }
  }

  /** The second walk: the boxes of all text spans, standing for the four coordinate lists. */
  method GatherBoxes(blocks: seq<Block>) returns (r: seq<Rect>)
    ensures r == BoxBlocks([], blocks)
  {
    r := [];
    for i := 0 to |blocks|
      invariant BoxBlocks(r, blocks[i..]) == BoxBlocks([], blocks)
    {
      assert blocks[i..][1..] == blocks[i + 1..];
      if blocks[i].kind != TextBlock {
        continue;
      }
      r := GatherLineBoxes(r, blocks[i].lines);
    }
  }

  /** `analyze_page`: both walks, then the size summary and the margins. */
  method AnalyzePage(page: Page) returns (stats: PageStats)
    ensures stats == Stats(page)
  {
    ghost var spans := PageSpans(page.blocks);
    var t := CountBlocks(page.blocks);
    WalkCountsTextSpans(EmptyTally, page.blocks);
    assert t.sizes == PositiveSizes(spans) && t.fonts == FontSet(spans);
    var sizes := t.sizes;
    var avg := if |sizes| > 0 then Sum(sizes) / |sizes| as real else 0.0;
    var mn := if |sizes| > 0 then SeqMin(sizes) else 0.0;
    var mx := if |sizes| > 0 then SeqMax(sizes) else 0.0;
    assert (avg, mn, mx) == SizeSummary(PositiveSizes(spans));
    var boxes := GatherBoxes(page.blocks);
    WalkGathersTextBoxes([], page.blocks);
    assert boxes == BoxesOf(spans);
    var margins := MarginsFrom(page.rect, boxes);
    stats := PageStats(t.blocks, t.lines, t.spans, avg, mn, mx, t.fonts, page.images, margins);
  }

  /** The margin arithmetic at the end of `analyze_page`. */
  method MarginsFrom(rect: Rect, boxes: seq<Rect>) returns (margins: Margins)
    ensures margins == MarginsOf(rect, boxes)
  {
    margins := Margins(0.0, 0.0, 0.0, 0.0, rect.Width(), rect.Height());
    if |boxes| > 0 {
      margins := Margins(SeqMin(Lefts(boxes)) - rect.x0, rect.x1 - SeqMax(Rights(boxes)),
                         SeqMin(Tops(boxes)) - rect.y0, rect.y1 - SeqMax(Bottoms(boxes)),
                         rect.Width(), rect.Height());
    }
  }

  // ---------------------------------------------------------------------------
  // Lemmas

  lemma {:induction false} SpansOfLinesConcat(a: seq<Line>, b: seq<Line>)
    ensures SpansOfLines(a + b) == SpansOfLines(a) + SpansOfLines(b)
    decreases |a|
  {
    if a != [] {
      assert (a + b)[1..] == a[1..] + b;
      SpansOfLinesConcat(a[1..], b);
    } else {
      assert a + b == b;
    }
  }

  lemma {:induction false} PositiveSizesConcat(a: seq<Span>, b: seq<Span>)
    ensures PositiveSizes(a + b) == PositiveSizes(a) + PositiveSizes(b)
    decreases |a|
  {
    if a != [] {
      assert (a + b)[1..] == a[1..] + b;
      PositiveSizesConcat(a[1..], b);
    } else {
      assert a + b == b;
    }
  }

  lemma {:induction false} FontSetConcat(a: seq<Span>, b: seq<Span>)
    ensures FontSet(a + b) == FontSet(a) + FontSet(b)
    decreases |a|
  {
    if a != [] {
      assert (a + b)[1..] == a[1..] + b;
      FontSetConcat(a[1..], b);
    } else {
      assert a + b == b;
    }
  }

  /** `r` is `t` with `blocks` more blocks, `lines` more lines and the given spans counted. */
  predicate Adds(t: Tally, r: Tally, blocks: nat, lines: nat, spans: seq<Span>) {
    && r.blocks == t.blocks + blocks && r.lines == t.lines + lines && r.spans == t.spans + |spans|
    && r.sizes == t.sizes + PositiveSizes(spans) && r.fonts == t.fonts + FontSet(spans)
  }

  lemma AddsNothing(t: Tally)
    ensures Adds(t, t, 0, 0, [])
  {
    assert t.sizes + [] == t.sizes;
  }

  lemma AddsTrans(t: Tally, u: Tally, r: Tally, b1: nat, l1: nat, s1: seq<Span>, b2: nat, l2: nat, s2: seq<Span>)
    requires Adds(t, u, b1, l1, s1) && Adds(u, r, b2, l2, s2)
    ensures Adds(t, r, b1 + b2, l1 + l2, s1 + s2)
  {
    PositiveSizesConcat(s1, s2);
    FontSetConcat(s1, s2);
    ConcatAssoc(t.sizes, PositiveSizes(s1), PositiveSizes(s2));
  }

  /** One span step adds that span. */
  lemma AddsSpan(t: Tally, s: Span)
    ensures Adds(t, AddSpan(t, s), 0, 0, [s])
  {
    assert [s][1..] == [];
  }

  /** The span step of the first walk adds the spans' count, positive sizes and font names. */
  lemma {:induction false} WalkCountsSpans(t: Tally, spans: seq<Span>)
    ensures Adds(t, FoldSpans(t, spans), 0, 0, spans)
    decreases |spans|
  {
    if spans == [] {
      AddsNothing(t);
    } else {
      var t' := AddSpan(t, spans[0]);
      AddsSpan(t, spans[0]);
      WalkCountsSpans(t', spans[1..]);
      AddsTrans(t, t', FoldSpans(t', spans[1..]), 0, 0, [spans[0]], 0, 0, spans[1..]);
      assert [spans[0]] + spans[1..] == spans;
    }
  }

  lemma {:induction false} WalkCountsLines(t: Tally, lines: seq<Line>)
    ensures Adds(t, FoldLines(t, lines), 0, |lines|, SpansOfLines(lines))
    decreases |lines|
  {
    if lines == [] {
      AddsNothing(t);
    } else {
      var u := t.(lines := t.lines + 1);
      assert Adds(t, u, 0, 1, []) by { AddsNothing(t); }
      WalkCountsSpans(u, lines[0].spans);
      var u' := FoldSpans(u, lines[0].spans);
      AddsTrans(t, u, u', 0, 1, [], 0, 0, lines[0].spans);
      assert [] + lines[0].spans == lines[0].spans;
      WalkCountsLines(u', lines[1..]);
      AddsTrans(t, u', FoldLines(u', lines[1..]), 0, 1, lines[0].spans, 0, |lines| - 1, SpansOfLines(lines[1..]));
    }
  }

  /** The whole first walk counts the text blocks, their lines and spans, sizes and fonts. */
  lemma {:induction false} WalkCountsTextSpans(t: Tally, blocks: seq<Block>)
    ensures Adds(t, FoldBlocks(t, blocks), TextBlockCount(blocks), |TextLines(blocks)|, PageSpans(blocks))
    decreases |blocks|
  {
    if blocks == [] {
      AddsNothing(t);
    } else {
      var b := blocks[0];
      var lines := BlockLines(b);
      var rest := TextLines(blocks[1..]);
      assert TextLines(blocks) == lines + rest;
      SpansOfLinesConcat(lines, rest);
      if b.kind != TextBlock {
        assert SpansOfLines(lines) == [];
        WalkCountsTextSpans(t, blocks[1..]);
        assert PageSpans(blocks) == PageSpans(blocks[1..]);
      } else {
        var u := t.(blocks := t.blocks + 1);
        assert Adds(t, u, 1, 0, []) by { AddsNothing(t); }
        WalkCountsLines(u, b.lines);
        var u' := FoldLines(u, b.lines);
        AddsTrans(t, u, u', 1, 0, [], 0, |lines|, SpansOfLines(lines));
        assert [] + SpansOfLines(lines) == SpansOfLines(lines);
        WalkCountsTextSpans(u', blocks[1..]);
        AddsTrans(t, u', FoldBlocks(u', blocks[1..]), 1, |lines|, SpansOfLines(lines),
                  TextBlockCount(blocks[1..]), |rest|, PageSpans(blocks[1..]));
      }
    }
  }

  lemma {:induction false} BoxesOfConcat(a: seq<Span>, b: seq<Span>)
    ensures BoxesOf(a + b) == BoxesOf(a) + BoxesOf(b)
    decreases |a|
  {
    if a == [] {
      assert a + b == b;
    } else {
      assert (a + b)[1..] == a[1..] + b;
      BoxesOfConcat(a[1..], b);
    }
  }

  lemma {:induction false} WalkGathersSpanBoxes(acc: seq<Rect>, spans: seq<Span>)
    ensures BoxSpans(acc, spans) == acc + BoxesOf(spans)
    decreases |spans|
  {
    if spans == [] {
      assert BoxesOf(spans) == [];
      assert acc + [] == acc;
    } else {
      var rest := spans[1..];
      var acc' := acc + [spans[0].bbox];
      assert BoxSpans(acc, spans) == BoxSpans(acc', rest);
      WalkGathersSpanBoxes(acc', rest);
      assert acc' + BoxesOf(rest) == acc + ([spans[0].bbox] + BoxesOf(rest));
    }
  }

  lemma {:induction false} WalkGathersLineBoxes(acc: seq<Rect>, lines: seq<Line>)
    ensures BoxLines(acc, lines) == acc + BoxesOf(SpansOfLines(lines))
    decreases |lines|
  {
    if lines == [] {
      assert acc + [] == acc;
    } else {
      var first, rest := lines[0].spans, SpansOfLines(lines[1..]);
      var acc' := BoxSpans(acc, first);
      assert BoxLines(acc, lines) == BoxLines(acc', lines[1..]);
      WalkGathersSpanBoxes(acc, first);
      WalkGathersLineBoxes(acc', lines[1..]);
      assert SpansOfLines(lines) == first + rest;
      BoxesOfConcat(first, rest);
      assert acc + BoxesOf(first) + BoxesOf(rest) == acc + (BoxesOf(first) + BoxesOf(rest));
    }
  }

  /** The second walk gathers exactly the boxes of the page's text spans, in order. */
  lemma {:induction false} WalkGathersTextBoxes(acc: seq<Rect>, blocks: seq<Block>)
    ensures BoxBlocks(acc, blocks) == acc + BoxesOf(PageSpans(blocks))
    decreases |blocks|
  {
    if blocks == [] {
      assert acc + BoxesOf([]) == acc;
    } else {
      var lines := BlockLines(blocks[0]);
      var rest := TextLines(blocks[1..]);
      assert TextLines(blocks) == lines + rest;
      SpansOfLinesConcat(lines, rest);
      BoxesOfConcat(SpansOfLines(lines), SpansOfLines(rest));
      if blocks[0].kind != TextBlock {
        assert SpansOfLines(lines) == [];
        WalkGathersTextBoxes(acc, blocks[1..]);
      } else {
        WalkGathersLineBoxes(acc, lines);
        WalkGathersTextBoxes(BoxLines(acc, lines), blocks[1..]);
      }
    }
  }

  lemma {:induction false} BoxesOfIndex(spans: seq<Span>, i: nat)
    requires i < |spans|
    ensures BoxesOf(spans)[i] == spans[i].bbox
    decreases i
  {
    if i > 0 {
      BoxesOfIndex(spans[1..], i - 1);
    }
  }

  /** A font name is reported exactly when some span's stripped font is that non-empty name. */
  lemma {:induction false} FontSetMembers(spans: seq<Span>, f: string)
    ensures f in FontSet(spans) <==> f != "" && exists i :: 0 <= i < |spans| && Strip(spans[i].font) == f
    decreases |spans|
  {
    if spans != [] {
      FontSetMembers(spans[1..], f);
      if f in FontSet(spans[1..]) {
        var i :| 0 <= i < |spans[1..]| && Strip(spans[1..][i].font) == f;
        assert spans[i + 1] == spans[1..][i];
      }
      if f != "" && (exists i :: 0 <= i < |spans| && Strip(spans[i].font) == f) && Strip(spans[0].font) != f {
        var i :| 0 <= i < |spans| && Strip(spans[i].font) == f;
        assert spans[1..][i - 1] == spans[i];
      }
    }
  }

  /** Every positive size of a span, and nothing else, enters the size statistics. */
  lemma {:induction false} PositiveSizesMembers(spans: seq<Span>, x: real)
    ensures x in PositiveSizes(spans) <==> x > 0.0 && exists i :: 0 <= i < |spans| && spans[i].size == x
    decreases |spans|
  {
    if spans != [] {
      PositiveSizesMembers(spans[1..], x);
      if x in PositiveSizes(spans[1..]) {
        var i :| 0 <= i < |spans[1..]| && spans[1..][i].size == x;
        assert spans[i + 1] == spans[1..][i];
      }
      if x > 0.0 && (exists i :: 0 <= i < |spans| && spans[i].size == x) && spans[0].size != x {
        var i :| 0 <= i < |spans| && spans[i].size == x;
        assert spans[1..][i - 1] == spans[i];
      }
    }
  }

  lemma {:induction false} SumBounds(xs: seq<real>, lo: real, hi: real)
    requires forall x :: x in xs ==> lo <= x <= hi
    ensures |xs| as real * lo <= Sum(xs) <= |xs| as real * hi
    decreases |xs|
  {
    if xs != [] {
      var rest := xs[1..];
      assert forall x :: x in rest ==> x in xs;
      SumBounds(rest, lo, hi);
      assert xs[0] in xs;
      var n := |rest| as real;
      assert |xs| as real == n + 1.0;
      assert Sum(xs) == xs[0] + Sum(rest);
      OneMoreTerm(n, lo, xs[0], Sum(rest));
      OneMoreTerm(n, -hi, -xs[0], -Sum(rest));
    }
  }

  /** A bound on a sum of n terms, plus one more term within the same bound, bounds n + 1 terms. */
  lemma OneMoreTerm(n: real, bound: real, x: real, rest: real)
    requires n * bound <= rest && bound <= x
    ensures (n + 1.0) * bound <= x + rest
  {
    assert (n + 1.0) * bound == n * bound + bound;
  }

  lemma AverageBetween(s: real, n: real, lo: real, hi: real)
    requires n > 0.0 && n * lo <= s <= n * hi
    ensures lo <= s / n <= hi
  {
    var q := s / n;
    assert q * n == s;
  }

  /** The size summary: the average lies between the smallest and largest size; all 0 without sizes. */
  lemma SummaryOrdered(sizes: seq<real>)
    requires forall x :: x in sizes ==> x > 0.0
    ensures var (avg, mn, mx) := SizeSummary(sizes);
            if sizes == [] then avg == mn == mx == 0.0
            else 0.0 < mn <= avg <= mx
  {
    if sizes != [] {
      var mn, mx := SeqMin(sizes), SeqMax(sizes);
      SumBounds(sizes, mn, mx);
      AverageBetween(Sum(sizes), |sizes| as real, mn, mx);
    }
  }

  /** Over a page: the average lies between the smallest and largest size, all positive; all 0 without sizes. */
  lemma SizesOrdered(page: Page)
    ensures var st := Stats(page);
            if PositiveSizes(PageSpans(page.blocks)) == [] then st.avgSize == st.minSize == st.maxSize == 0.0
            else 0.0 < st.minSize <= st.avgSize <= st.maxSize
  {
    SummaryOrdered(PositiveSizes(PageSpans(page.blocks)));
  }

  /** A page without text spans reports zero margins on all four sides. */
  lemma NoSpansNoMargins(page: Page)
    requires PageSpans(page.blocks) == []
    ensures var m := Stats(page).margins;
            m.left == 0.0 && m.right == 0.0 && m.top == 0.0 && m.bottom == 0.0
  {
  }

  /** When every text span lies inside the page rectangle, no margin is negative. */
  lemma MarginsNonNegative(page: Page)
    requires forall s :: s in PageSpans(page.blocks) ==>
               page.rect.x0 <= s.bbox.x0 && s.bbox.x1 <= page.rect.x1 && page.rect.y0 <= s.bbox.y0 && s.bbox.y1 <= page.rect.y1
    ensures var m := Stats(page).margins;
            m.left >= 0.0 && m.right >= 0.0 && m.top >= 0.0 && m.bottom >= 0.0
  {
    var spans := PageSpans(page.blocks);
    var boxes := BoxesOf(spans);
    if boxes != [] {
      forall i | 0 <= i < |boxes|
        ensures page.rect.x0 <= boxes[i].x0 && boxes[i].x1 <= page.rect.x1
             && page.rect.y0 <= boxes[i].y0 && boxes[i].y1 <= page.rect.y1
      {
        BoxesOfIndex(spans, i);
        assert spans[i] in spans;
      }
      var l := SeqMin(Lefts(boxes));
      var r := SeqMax(Rights(boxes));
      var t := SeqMin(Tops(boxes));
      var b := SeqMax(Bottoms(boxes));
      var il :| 0 <= il < |boxes| && Lefts(boxes)[il] == l;
      var ir :| 0 <= ir < |boxes| && Rights(boxes)[ir] == r;
      var it :| 0 <= it < |boxes| && Tops(boxes)[it] == t;
      var ib :| 0 <= ib < |boxes| && Bottoms(boxes)[ib] == b;
    }
  }

  /** Image blocks are skipped: appending one leaves every statistic as it was. */
  lemma ImageBlocksIgnored(page: Page, block: Block)
    requires block.kind != TextBlock
    ensures Stats(page.(blocks := page.blocks + [block])) == Stats(page)
  {
    TextLinesAppendImage(page.blocks, block);
    TextBlockCountAppendImage(page.blocks, block);
  }

  lemma {:induction false} TextLinesAppendImage(blocks: seq<Block>, block: Block)
    requires block.kind != TextBlock
    ensures TextLines(blocks + [block]) == TextLines(blocks)
    decreases |blocks|
  {
    if blocks == [] {
      assert [] + [block] == [block];
      assert [block][1..] == [];
    } else {
      assert (blocks + [block])[1..] == blocks[1..] + [block];
      TextLinesAppendImage(blocks[1..], block);
    }
  }

  lemma {:induction false} TextBlockCountAppendImage(blocks: seq<Block>, block: Block)
    requires block.kind != TextBlock
    ensures TextBlockCount(blocks + [block]) == TextBlockCount(blocks)
    decreases |blocks|
  {
    if blocks == [] {
      assert [] + [block] == [block];
      assert [block][1..] == [];
    } else {
      assert (blocks + [block])[1..] == blocks[1..] + [block];
      TextBlockCountAppendImage(blocks[1..], block);
    }
  }
}
