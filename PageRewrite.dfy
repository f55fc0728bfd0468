/**
 * The drawing phase of `replace_text_in_page` and the page loop of `translate_pdf_document`
 * (translator/pdf_layout.py). The translated document is a class whose pages record the calls
 * made on them: every replacement box gets a redaction, the redactions are applied once, and
 * then each non-blank replacement is drawn with `insert_textbox` under the retry policy.
 */
module PageRewrite {
  import opened Wrappers
  import opened Text
  import opened PageModel
  import opened FontMapping
  import opened TranslationCache
  import opened LinePlanning
  import opened FitPolicy

  // ---------------------------------------------------------------------------
  // Colour

  /** `((c >> 16) & 0xFF, (c >> 8) & 0xFF, c & 0xFF)`; with a positive divisor Dafny's `/` and `%` floor like Python's shifts and masks. */
  function Channels(c: int): (int, int, int) {
    ((c / 0x10000) % 0x100, (c / 0x100) % 0x100, c % 0x100)
  }

  /** The drawing colour: a packed integer scaled to [0, 1] per channel, a ready triple passed through. */
  function ColorOf(color: Color): (rgb: Rgb)
    ensures color.Packed? ==> 0.0 <= rgb.r <= 1.0 && 0.0 <= rgb.g <= 1.0 && 0.0 <= rgb.b <= 1.0
    ensures color.Components? ==> rgb == color.rgb
  {
    match color
    case Packed(v) =>
      var (r, g, b) := Channels(v);
      Rgb(r as real / 255.0, g as real / 255.0, b as real / 255.0)
    case Components(rgb) => rgb
  }

  // ---------------------------------------------------------------------------
  // Drawing one replacement

  /** What the drawing of one replacement works out before its first call. */
  datatype Sizing = Sizing(rgb: Rgb, font: string, fitted: real, minAllowed: real, fonts: seq<string>)

  /** `avg_width`: the box width per character of the old text, or of the new one when the old is empty. */
  function AvgWidth(spanWidth: real, oldText: string, newText: string): real {
    if oldText != "" then spanWidth / (|oldText| as real)
    else spanWidth / (if |newText| > 1 then |newText| as real else 1.0)
  }

  function SizingOf(rep: Replacement, measure: Measure): Sizing {
    var sourceFont := if rep.font == "" then "helv" else rep.font;
    var mapped := MapFontName(sourceFont);
    var spanWidth := RMax(1.0, rep.bbox.Width());
    var fitted := FitFontSize(rep.newText, mapped, rep.size * Padding, spanWidth, AvgWidth(spanWidth, rep.oldText, rep.newText), measure);
    Sizing(ColorOf(rep.color), mapped, fitted, MinAllowed(rep.size, fitted), FontCandidates(mapped))
  }

  /** The `insert_textbox` calls the attempts stand for. */
  function Inserts(box: Rect, text: string, rgb: Rgb, attempts: seq<Attempt>): seq<Op> {
    seq(|attempts|, j requires 0 <= j < |attempts| => Insert(box, text, attempts[j].size, attempts[j].font, rgb))
  }

  /**
   * The calls that draw one replacement: none when its new text is blank; otherwise the
   * retry schedule, then, if nothing fitted, one forced call at `min_allowed` in `helv`.
   */
  function DrawOps(rep: Replacement, measure: Measure, textbox: Textbox): seq<Op> {
    if Strip(rep.newText) == "" then []
    else SizedOps(rep.bbox, rep.newText, SizingOf(rep, measure), textbox)
  }

  /** The retry schedule for a text in a box once its sizing is known, then the forced call if nothing fitted. */
  function SizedOps(box: Rect, text: string, z: Sizing, textbox: Textbox): seq<Op> {
    var t := TryFonts(box, text, z.fonts, z.fitted, z.minAllowed, textbox);
    Inserts(box, text, z.rgb, t.attempts) + (if t.inserted then [] else [Insert(box, text, z.minAllowed, "helv", z.rgb)])
  }

  /** How a replacement is drawn, with the oracles fixed. */
  type Drawer = Replacement -> seq<Op>

  function Drawing(measure: Measure, textbox: Textbox): Drawer {
    rep => DrawOps(rep, measure, textbox)
  }

  // ---------------------------------------------------------------------------
  // The calls on one page

  function Erases(reps: seq<Replacement>): seq<Op> {
    seq(|reps|, j requires 0 <= j < |reps| => Erase(reps[j].bbox))
  }

  function Draws(reps: seq<Replacement>, draw: Drawer): seq<Op> {
    if reps == [] then [] else draw(reps[0]) + Draws(reps[1..], draw)
  }

  /** Redact every box, apply the redactions once, then draw. */
  function PageOps(reps: seq<Replacement>, draw: Drawer): seq<Op> {
    Erases(reps) + [ApplyErase] + Draws(reps, draw)
  }

  /** `pages` with `ops` appended to the log of page `k`. */
  function Appended(pages: seq<PageState>, k: nat, ops: seq<Op>): seq<PageState>
    requires k < |pages|
  {
    pages[k := pages[k].(ops := pages[k].ops + ops)]
  }

  /** `insert_pdf` of a source: each page copied, nothing done to it yet. */
  function Copies(sources: seq<Page>): seq<PageState> {
    seq(|sources|, i requires 0 <= i < |sources| => PageState(sources[i], []))
  }

  /** The page `new_page(width=595, height=842)` adds. */
  const BlankPage: PageState := PageState(Page(Rect(0.0, 0.0, 595.0, 842.0), [], 0), [])

  // ---------------------------------------------------------------------------
  // The page loop

  /** The collecting phase of one page, with the translator and the cancel callback fixed. */
  type PageCollector = (Page, map<string, string>, nat) -> Collected

  /** The collecting phase of a page, `CollectPage`, with the per-line step and the callback fixed. */
  function Collector(plan: LinePlanner, cancel: nat -> bool): PageCollector {
    (page: Page, entries: map<string, string>, polls: nat) => CollectBlocks(page.blocks, entries, plan, cancel, polls)
  }

  /** The rewritten pages so far, the cache table, the polls made and whether a poll canceled. */
  datatype Run = Run(pages: seq<PageState>, entries: map<string, string>, polled: nat, canceled: bool)

  /**
   * The page loop from the first of `sources` on: a cancel poll before each page, then the
   * page's collecting phase (which polls before each line), then its calls.
   */
  function RewriteFrom(sources: seq<Page>, entries: map<string, string>, collect: PageCollector, draw: Drawer, cancel: nat -> bool, polls: nat): Run
    decreases |sources|
  {
    if sources == [] then Run([], entries, polls, false)
    else if cancel(polls) then Run([], entries, polls + 1, true)
    else
      var c := collect(sources[0], entries, polls + 1);
      if c.canceled then Run([], c.entries, c.polled, true)
      else
        var rest := RewriteFrom(sources[1..], c.entries, collect, draw, cancel, c.polled);
        rest.(pages := [PageState(sources[0], PageOps(c.reps, draw))] + rest.pages)
  }

  /** The progress callback's calls after `n` finished pages of `total`. */
  function Reports(n: nat, total: nat): seq<(nat, nat)> {
    seq(n, i requires 0 <= i < n => (i + 1, total))
  }

  /** The translated document: its pages, each with the log of calls made on it. */
  class Document {
    var pages: seq<PageState>

    /** `fitz.open()` followed by `insert_pdf(source_pdf)`. */
    constructor (sources: seq<Page>)
      ensures pages == Copies(sources)
    {
      pages := Copies(sources);
    }

    /** `add_redact_annot(box, text="", fill=None)` on page `k`. */
    method AddRedactAnnot(k: nat, box: Rect)
      requires k < |pages|
      modifies this
      ensures pages == Appended(old(pages), k, [Erase(box)])
    {
      pages := Appended(pages, k, [Erase(box)]);
    }

    /** `apply_redactions()` on page `k`. */
    method ApplyRedactions(k: nat)
      requires k < |pages|
      modifies this
      ensures pages == Appended(old(pages), k, [ApplyErase])
    {
      pages := Appended(pages, k, [ApplyErase]);
    }

    /** `insert_textbox` on page `k`: the call is logged and its outcome is the oracle's. */
    method InsertTextbox(k: nat, box: Rect, text: string, size: real, font: string, rgb: Rgb, textbox: Textbox) returns (leftover: Option<real>)
      requires k < |pages|
      modifies this
      ensures leftover == textbox(box, text, size, font)
      ensures pages == Appended(old(pages), k, [Insert(box, text, size, font, rgb)])
    {
      pages := Appended(pages, k, [Insert(box, text, size, font, rgb)]);
      leftover := textbox(box, text, size, font);
    }

    /** `new_page(width, height)`. */
    method NewPage(width: real, height: real)
      modifies this
      ensures pages == old(pages) + [PageState(Page(Rect(0.0, 0.0, width, height), [], 0), [])]
    {
      pages := pages + [PageState(Page(Rect(0.0, 0.0, width, height), [], 0), [])];
    }

    /**
     * The inner retry loop of the drawing phase for one font: up to six `insert_textbox`
     * calls, starting at `fitted` and decaying by 0.9 towards `minAllowed`.
     */
    method TryFontLoop(k: nat, box: Rect, text: string, font: string, fitted: real, minAllowed: real, rgb: Rgb, textbox: Textbox)
      returns (inserted: bool)
      requires k < |pages|
      modifies this
      ensures var t := TryFont(box, text, font, fitted, fitted, minAllowed, TriesPerFont, textbox);
              && inserted == t.inserted
              && pages == Appended(old(pages), k, Inserts(box, text, rgb, t.attempts))
    {
      ghost var p0 := pages;
      ghost var goal := TryFont(box, text, font, fitted, fitted, minAllowed, TriesPerFont, textbox);
      ghost var done: seq<Attempt> := [];
      inserted := false;
      var sizeTry := fitted;
      var n := 0;
      assert p0[k].ops + Inserts(box, text, rgb, []) == p0[k].ops;
      while n < TriesPerFont
        invariant 0 <= n <= TriesPerFont && k < |pages| && !inserted
        invariant pages == Appended(p0, k, Inserts(box, text, rgb, done))
        invariant Then(done, TryFont(box, text, font, sizeTry, fitted, minAllowed, TriesPerFont - n, textbox)) == goal
      {
        ghost var before := pages;
        var leftover := InsertTextbox(k, box, text, sizeTry, font, rgb, textbox);
        ghost var a := Attempt(sizeTry, font);
        LogOne(p0, before, k, box, text, rgb, done, a);
        TryFontStep(box, text, font, sizeTry, fitted, minAllowed, TriesPerFont - n, textbox);
        ghost var done0 := done;
        done := done + [a];
        if leftover.None? {
          break;
        }
        if leftover.value >= 0.0 {
          inserted := true;
          break;
        }
        sizeTry := RMax(minAllowed, sizeTry * Decay);
        if sizeTry <= minAllowed && sizeTry < fitted {
          break;
        }
        ThenAssoc(done0, [a], TryFont(box, text, font, sizeTry, fitted, minAllowed, TriesPerFont - n - 1, textbox));
        n := n + 1;
      }
      assert done + [] == done;
      assert goal == Tried(done, inserted);
    }

    /** The outer retry loop of the drawing phase: each candidate font in turn until one call fits. */
    method TryFontsLoop(k: nat, box: Rect, text: string, fonts: seq<string>, fitted: real, minAllowed: real, rgb: Rgb, textbox: Textbox)
      returns (inserted: bool)
      requires k < |pages|
      modifies this
      ensures var t := TryFonts(box, text, fonts, fitted, minAllowed, textbox);
              && inserted == t.inserted
              && pages == Appended(old(pages), k, Inserts(box, text, rgb, t.attempts))
    {
      ghost var p0 := pages;
      ghost var goal := TryFonts(box, text, fonts, fitted, minAllowed, textbox);
      ghost var done: seq<Attempt> := [];
      inserted := false;
      var f := 0;
      assert fonts[0..] == fonts;
      assert p0[k].ops + Inserts(box, text, rgb, []) == p0[k].ops;
      while f < |fonts| && !inserted
        invariant 0 <= f <= |fonts| && k < |pages|
        invariant pages == Appended(p0, k, Inserts(box, text, rgb, done))
        invariant !inserted ==> Then(done, TryFonts(box, text, fonts[f..], fitted, minAllowed, textbox)) == goal
        invariant inserted ==> Tried(done, true) == goal
        decreases |fonts| - f
      {
        ghost var first := TryFont(box, text, fonts[f], fitted, fitted, minAllowed, TriesPerFont, textbox);
        inserted := TryFontLoop(k, box, text, fonts[f], fitted, minAllowed, rgb, textbox);
        AppendedTwice(p0, k, Inserts(box, text, rgb, done), Inserts(box, text, rgb, first.attempts));
        InsertsConcat(box, text, rgb, done, first.attempts);
        TryFontsStep(box, text, fonts, f, fitted, minAllowed, textbox);
        if !inserted {
          ThenAssoc(done, first.attempts, TryFonts(box, text, fonts[f + 1..], fitted, minAllowed, textbox));
        }
        done := done + first.attempts;
        f := f + 1;
      }
      if !inserted {
        assert fonts[|fonts|..] == [];
        assert done + [] == done;
      }
    }

    /** The drawing of one replacement on page `k`: sizing, the retry loops, then the forced call. */
    method DrawReplacement(k: nat, rep: Replacement, measure: Measure, textbox: Textbox)
      requires k < |pages|
      modifies this
      ensures pages == Appended(old(pages), k, DrawOps(rep, measure, textbox))
    {
      if Strip(rep.newText) == "" {
        assert pages[k].ops + [] == pages[k].ops;
        return;
      }
      var z := SizeReplacement(rep, measure);
      DrawSized(k, rep.bbox, rep.newText, z, textbox);
    }

    /** The sizing steps before the retry loops: colour, mapped font, fitted size, floor and candidate fonts. */
    static method SizeReplacement(rep: Replacement, measure: Measure) returns (z: Sizing)
      ensures z == SizingOf(rep, measure)
    {
      var rgb := ColorOf(rep.color);
      var sourceFont := if rep.font == "" then "helv" else rep.font;
      var mapped := MapFontName(sourceFont);
      var box, text := rep.bbox, rep.newText;
      var spanWidth := RMax(1.0, box.Width());
      var avgWidth := AvgWidth(spanWidth, rep.oldText, text);
      var targetSize := rep.size * Padding;
      var fitted := FitFontSize(text, mapped, targetSize, spanWidth, avgWidth, measure);
      var minAllowed := MinAllowed(rep.size, fitted);
      var fonts := FontCandidates(mapped);
      z := Sizing(rgb, mapped, fitted, minAllowed, fonts);
    }

    /** The retry loops and the forced call for one replacement whose sizing is known. */
    method DrawSized(k: nat, box: Rect, text: string, z: Sizing, textbox: Textbox)
      requires k < |pages|
      modifies this
      ensures pages == Appended(old(pages), k, SizedOps(box, text, z, textbox))
    {
      ghost var p0 := pages;
      ghost var goal := TryFonts(box, text, z.fonts, z.fitted, z.minAllowed, textbox);
      var inserted := TryFontsLoop(k, box, text, z.fonts, z.fitted, z.minAllowed, z.rgb, textbox);
      if !inserted {
        var _ := InsertTextbox(k, box, text, z.minAllowed, "helv", z.rgb, textbox);
        AppendedTwice(p0, k, Inserts(box, text, z.rgb, goal.attempts), [Insert(box, text, z.minAllowed, "helv", z.rgb)]);
      } else {
        assert Inserts(box, text, z.rgb, goal.attempts) + [] == Inserts(box, text, z.rgb, goal.attempts);
      }
    }

    /** The redaction loop: one `add_redact_annot` per replacement box, in order. */
    method RedactAll(k: nat, reps: seq<Replacement>)
      requires k < |pages|
      modifies this
      ensures pages == Appended(old(pages), k, Erases(reps))
    {
      ghost var p0 := pages;
      assert Erases(reps[..0]) == [] && p0[k].ops + [] == p0[k].ops;
      for i := 0 to |reps|
        invariant k < |pages|
        invariant pages == Appended(p0, k, Erases(reps[..i]))
      {
        AddRedactAnnot(k, reps[i].bbox);
        AppendedTwice(p0, k, Erases(reps[..i]), [Erase(reps[i].bbox)]);
        assert Erases(reps[..i + 1]) == Erases(reps[..i]) + [Erase(reps[i].bbox)];
      }
      assert reps[..|reps|] == reps;
    }

    /** The insertion loop: each replacement drawn in order. */
    method DrawAll(k: nat, reps: seq<Replacement>, measure: Measure, textbox: Textbox)
      requires k < |pages|
      modifies this
      ensures pages == Appended(old(pages), k, Draws(reps, Drawing(measure, textbox)))
    {
      ghost var p0 := pages;
      ghost var draw := Drawing(measure, textbox);
      ghost var drawn: seq<Op> := [];
      assert p0[k].ops + [] == p0[k].ops;
      for i := 0 to |reps|
        invariant k < |pages|
        invariant pages == Appended(p0, k, drawn)
        invariant drawn + Draws(reps[i..], draw) == Draws(reps, draw)
      {
        var ops := DrawOps(reps[i], measure, textbox);
        DrawsStep(reps, i, draw);
        assert draw(reps[i]) == ops;
        DrawReplacement(k, reps[i], measure, textbox);
        AppendedTwice(p0, k, drawn, ops);
        ConcatAssoc(drawn, ops, Draws(reps[i + 1..], draw));
        drawn := drawn + ops;
      }
      assert drawn == Draws(reps, draw) by {
        assert reps[|reps|..] == [];
        assert drawn + [] == drawn;
      }
    }

    /** The two phases after collecting: redact every box, apply the redactions once, draw. */
    method ApplyReplacements(k: nat, reps: seq<Replacement>, measure: Measure, textbox: Textbox)
      requires k < |pages|
      modifies this
      ensures pages == Appended(old(pages), k, PageOps(reps, Drawing(measure, textbox)))
    {
      ghost var p0 := pages;
      RedactAll(k, reps);
      ApplyRedactions(k);
      AppendedTwice(p0, k, Erases(reps), [ApplyErase]);
      DrawAll(k, reps, measure, textbox);
      AppendedTwice(p0, k, Erases(reps) + [ApplyErase], Draws(reps, Drawing(measure, textbox)));
    }

    /**
     * `replace_text_in_page` for page `k` of this document: collect every replacement first
     * (a cancel leaves the page untouched), then redact, apply and draw.
     */
    method RewritePage(k: nat, source: Page, cache: Cache, translator: Translator, measure: Measure, textbox: Textbox, cancel: nat -> bool, polls: nat)
      returns (polled: nat, canceled: bool)
      requires k < |pages| && cache.Valid()
      modifies this, cache
      ensures cache.Valid()
      ensures var c := CollectPage(source, old(cache.entries), translator, cancel, polls);
              && polled == c.polled && canceled == c.canceled && cache.entries == c.entries
              && pages == Appended(old(pages), k, if c.canceled then [] else PageOps(c.reps, Drawing(measure, textbox)))
    {
      var reps;
      reps, polled, canceled := CollectReplacements(source, cache, translator, cancel, polls);
      if canceled {
        assert pages[k].ops + [] == pages[k].ops;
        return;
      }
      ApplyReplacements(k, reps, measure, textbox);
    }
  }

  /**
   * `translate_pdf_document`: copy the source, then for each page poll the cancel callback,
   * rewrite the page and report progress; a source without pages gets one blank A4 page.
   * A cancel raises in the source: here `canceled` comes back true and the document is dropped.
   */
  method TranslateDocument(sources: seq<Page>, cache: Cache, translator: Translator, measure: Measure, textbox: Textbox, cancel: nat -> bool)
    returns (doc: Document, total: nat, progress: seq<(nat, nat)>, canceled: bool)
    requires cache.Valid()
    modifies cache
    ensures fresh(doc) && cache.Valid()
    ensures total == |sources|
    ensures var run := RewriteFrom(sources, old(cache.entries), Collector(Planner(translator), cancel), Drawing(measure, textbox), cancel, 0);
            && canceled == run.canceled && cache.entries == run.entries
            && progress == Reports(|run.pages|, total)
            && (!canceled ==> doc.pages == if total == 0 then [BlankPage] else run.pages)
  {
    total := |sources|;
    doc := new Document(sources);
    progress := [];
    canceled := false;
    ghost var collect := Collector(Planner(translator), cancel);
    ghost var draw := Drawing(measure, textbox);
    ghost var goal := RewriteFrom(sources, cache.entries, collect, draw, cancel, 0);
    ghost var finished: seq<PageState> := [];
    var polled: nat := 0;
    for k := 0 to total
      invariant !canceled && cache.Valid()
      invariant |finished| == k && progress == Reports(k, total)
      invariant doc.pages == finished + Copies(sources[k..])
      invariant Prefixed(finished, RewriteFrom(sources[k..], cache.entries, collect, draw, cancel, polled)) == goal
    {
      assert sources[k..][1..] == sources[k + 1..];
      assert doc.pages[k] == PageState(sources[k], []);
      if cancel(polled) {
        canceled := true;
        return;
      }
      ghost var c := CollectPage(sources[k], cache.entries, translator, cancel, polled + 1);
      polled, canceled := doc.RewritePage(k, sources[k], cache, translator, measure, textbox, cancel, polled + 1);
      if canceled {
        return;
      }
      ghost var page := PageState(sources[k], PageOps(c.reps, draw));
      PagesStep(finished, sources, k, PageOps(c.reps, draw));
      ReportsStep(k, total);
      PrefixedAssoc(finished, page, RewriteFrom(sources[k + 1..], cache.entries, collect, draw, cancel, polled));
      finished := finished + [page];
      progress := progress + [(k + 1, total)];
    }
    assert sources[total..] == [];
    assert doc.pages == finished;
    if total == 0 {
      doc.NewPage(595.0, 842.0);
    }
  }

  /** `run` with `pages` put in front of its pages. */
  function Prefixed(pages: seq<PageState>, run: Run): Run {
    run.(pages := pages + run.pages)
  }

  // ---------------------------------------------------------------------------
  // Lemmas

  lemma AppendedTwice(pages: seq<PageState>, k: nat, a: seq<Op>, b: seq<Op>)
    requires k < |pages|
    ensures Appended(Appended(pages, k, a), k, b) == Appended(pages, k, a + b)
  {
    assert pages[k].ops + a + b == pages[k].ops + (a + b);
  }

  lemma LogOne(p0: seq<PageState>, before: seq<PageState>, k: nat, box: Rect, text: string, rgb: Rgb, done: seq<Attempt>, a: Attempt)
    requires k < |p0| && before == Appended(p0, k, Inserts(box, text, rgb, done))
    ensures Appended(before, k, [Insert(box, text, a.size, a.font, rgb)]) == Appended(p0, k, Inserts(box, text, rgb, done + [a]))
  {
    AppendedTwice(p0, k, Inserts(box, text, rgb, done), [Insert(box, text, a.size, a.font, rgb)]);
    assert Inserts(box, text, rgb, done + [a]) == Inserts(box, text, rgb, done) + [Insert(box, text, a.size, a.font, rgb)];
  }

  lemma PrefixedAssoc(finished: seq<PageState>, page: PageState, run: Run)
    ensures Prefixed(finished, run.(pages := [page] + run.pages)) == Prefixed(finished + [page], run)
  {
    assert finished + ([page] + run.pages) == (finished + [page]) + run.pages;
  }

  /** Rewriting page `k` of the copied document turns its copy into the rewritten page. */
  lemma PagesStep(finished: seq<PageState>, sources: seq<Page>, k: nat, ops: seq<Op>)
    requires k < |sources| && |finished| == k
    ensures Appended(finished + Copies(sources[k..]), k, ops) == (finished + [PageState(sources[k], ops)]) + Copies(sources[k + 1..])
  {
    var copies := Copies(sources[k..]);
    assert copies == [PageState(sources[k], [])] + Copies(sources[k + 1..]);
    assert [] + ops == ops;
  }

  lemma ReportsStep(k: nat, total: nat)
    ensures Reports(k, total) + [(k + 1, total)] == Reports(k + 1, total)
  {
  }

  lemma InsertsConcat(box: Rect, text: string, rgb: Rgb, a: seq<Attempt>, b: seq<Attempt>)
    ensures Inserts(box, text, rgb, a + b) == Inserts(box, text, rgb, a) + Inserts(box, text, rgb, b)
  {
  }

  /** Each decoded channel is a byte, and together they give back the low 24 bits of the packed colour. */
  lemma ChannelsAreBytes(c: int)
    ensures var (r, g, b) := Channels(c);
            && 0 <= r < 256 && 0 <= g < 256 && 0 <= b < 256
            && r * 0x10000 + g * 0x100 + b == c % 0x1000000
  {
    var (r, g, b) := Channels(c);
    var hi := c / 0x10000;
    var mid := c / 0x100;
    assert c == mid * 0x100 + b;
    assert mid == hi * 0x100 + g;
    assert c == hi * 0x10000 + g * 0x100 + b;
    assert hi == (hi / 0x100) * 0x100 + r;
    assert c == (hi / 0x100) * 0x1000000 + (r * 0x10000 + g * 0x100 + b);
  }

  /** Packing three bytes and decoding gives them back. */
  lemma ChannelsRoundTrip(r: int, g: int, b: int)
    requires 0 <= r < 256 && 0 <= g < 256 && 0 <= b < 256
    ensures Channels(r * 0x10000 + g * 0x100 + b) == (r, g, b)
  {
    var c := r * 0x10000 + g * 0x100 + b;
    assert c / 0x100 == r * 0x100 + g;
    assert c / 0x10000 == r;
  }

  /**
   * The calls drawing one replacement. A blank new text gives none. Otherwise there are
   * between one and thirteen, all `insert_textbox` calls on the replacement's box with its text
   * and colour; the first is at the fitted size in the first candidate font; each is at the
   * fitted size or at least `min_allowed`, in a candidate font or `helv`; and the last either
   * fitted or is the forced call at `min_allowed` in `helv`.
   */
  lemma DrawOpsShape(rep: Replacement, measure: Measure, textbox: Textbox)
    ensures var ops := DrawOps(rep, measure, textbox);
            var z := SizingOf(rep, measure);
            && (IsBlank(rep.newText) ==> ops == [])
            && (!IsBlank(rep.newText) ==>
                  && 1 <= |ops| <= 2 * TriesPerFont + 1
                  && ops[0] == Insert(rep.bbox, rep.newText, z.fitted, z.fonts[0], z.rgb)
                  && (forall j :: 0 <= j < |ops| ==>
                        && ops[j].Insert? && ops[j].box == rep.bbox && ops[j].text == rep.newText && ops[j].color == z.rgb
                        && (ops[j].font in z.fonts || ops[j].font == "helv")
                        && (ops[j].size == z.fitted || ops[j].size >= z.minAllowed))
                  && (Fits(rep.bbox, rep.newText, Attempt(ops[|ops| - 1].size, ops[|ops| - 1].font), textbox)
                      || ops[|ops| - 1] == Insert(rep.bbox, rep.newText, z.minAllowed, "helv", z.rgb)))
  {
    StripEmptyIffBlank(rep.newText);
    if !IsBlank(rep.newText) {
      SizedOpsShape(rep.bbox, rep.newText, SizingOf(rep, measure), textbox);
    }
  }

  /** The shape of the calls once the sizing is fixed, for one or two candidate fonts. */
  lemma SizedOpsShape(box: Rect, text: string, z: Sizing, textbox: Textbox)
    requires 1 <= |z.fonts| <= 2
    ensures var ops := SizedOps(box, text, z, textbox);
            && 1 <= |ops| <= 2 * TriesPerFont + 1
            && ops[0] == Insert(box, text, z.fitted, z.fonts[0], z.rgb)
            && (forall j :: 0 <= j < |ops| ==>
                  && ops[j].Insert? && ops[j].box == box && ops[j].text == text && ops[j].color == z.rgb
                  && (ops[j].font in z.fonts || ops[j].font == "helv")
                  && (ops[j].size == z.fitted || ops[j].size >= z.minAllowed))
            && (Fits(box, text, Attempt(ops[|ops| - 1].size, ops[|ops| - 1].font), textbox)
                || ops[|ops| - 1] == Insert(box, text, z.minAllowed, "helv", z.rgb))
  {
    var t := TryFonts(box, text, z.fonts, z.fitted, z.minAllowed, textbox);
    TryFontsBounds(box, text, z.fonts, z.fitted, z.minAllowed, textbox);
    TryFontsOutcome(box, text, z.fonts, z.fitted, z.minAllowed, textbox);
    TryFontShape(box, text, z.fonts[0], z.fitted, z.fitted, z.minAllowed, TriesPerFont, textbox);
    assert z.fonts[0..] == z.fonts;
    TryFontsStep(box, text, z.fonts, 0, z.fitted, z.minAllowed, textbox);
    var ins := Inserts(box, text, z.rgb, t.attempts);
    var ops := SizedOps(box, text, z, textbox);
    assert ops == ins + (if t.inserted then [] else [Insert(box, text, z.minAllowed, "helv", z.rgb)]);
    forall j | 0 <= j < |ops|
      ensures && ops[j].Insert? && ops[j].box == box && ops[j].text == text && ops[j].color == z.rgb
              && (ops[j].font in z.fonts || ops[j].font == "helv")
              && (ops[j].size == z.fitted || ops[j].size >= z.minAllowed)
    {
      if j < |ins| {
        assert ops[j] == Insert(box, text, t.attempts[j].size, t.attempts[j].font, z.rgb);
      } else {
        assert ops[j] == Insert(box, text, z.minAllowed, "helv", z.rgb);
      }
    }
    if t.inserted {
      assert ops == ins;
      assert t.attempts[|t.attempts| - 1] == Attempt(ops[|ops| - 1].size, ops[|ops| - 1].font);
    }
  }

  /**
   * The calls on a rewritten page: one redaction per replacement, in order, then the single
   * `apply_redactions`, then only `insert_textbox` calls.
   */
  lemma {:induction false} PageOpsOrder(reps: seq<Replacement>, measure: Measure, textbox: Textbox)
    ensures var ops := PageOps(reps, Drawing(measure, textbox));
            && |ops| > |reps| && ops[|reps|] == ApplyErase
            && (forall i :: 0 <= i < |reps| ==> ops[i] == Erase(reps[i].bbox))
            && (forall i :: |reps| < i < |ops| ==> ops[i].Insert?)
  {
    DrawsAreInserts(reps, measure, textbox);
    PageOpsShape(reps, Drawing(measure, textbox));
  }

  /** The layout of a page's calls for any drawer that only inserts. */
  lemma PageOpsShape(reps: seq<Replacement>, draw: Drawer)
    requires forall o :: o in Draws(reps, draw) ==> o.Insert?
    ensures var ops := PageOps(reps, draw);
            && |ops| > |reps| && ops[|reps|] == ApplyErase
            && (forall i :: 0 <= i < |reps| ==> ops[i] == Erase(reps[i].bbox))
            && (forall i :: |reps| < i < |ops| ==> ops[i].Insert?)
  {
    var draws := Draws(reps, draw);
    var erases := Erases(reps);
    var ops := PageOps(reps, draw);
    ConcatAssoc(erases, [ApplyErase], draws);
    forall i | 0 <= i < |reps| ensures ops[i] == Erase(reps[i].bbox) {
      assert ops[i] == erases[i];
    }
    forall i | |reps| < i < |ops| ensures ops[i].Insert? {
      assert ops[i] == draws[i - |reps| - 1];
      assert draws[i - |reps| - 1] in draws;
    }
  }

  lemma DrawsStep(reps: seq<Replacement>, i: nat, draw: Drawer)
    requires i < |reps|
    ensures Draws(reps[i..], draw) == draw(reps[i]) + Draws(reps[i + 1..], draw)
  {
    assert reps[i..][1..] == reps[i + 1..];
  }

  lemma {:induction false} DrawsAreInserts(reps: seq<Replacement>, measure: Measure, textbox: Textbox)
    ensures forall o :: o in Draws(reps, Drawing(measure, textbox)) ==> o.Insert?
    decreases |reps|
  {
    if reps != [] {
      DrawOpsShape(reps[0], measure, textbox);
      DrawsAreInserts(reps[1..], measure, textbox);
    }
  }

  /**
   * The page loop keeps the source's pages in order: the finished pages are copies of the first
   * source pages with calls added, and without a cancel every page is finished.
   */
  lemma {:induction false} RewriteKeepsPages(sources: seq<Page>, entries: map<string, string>, collect: PageCollector, draw: Drawer, cancel: nat -> bool, polls: nat)
    ensures var run := RewriteFrom(sources, entries, collect, draw, cancel, polls);
            && |run.pages| <= |sources|
            && (!run.canceled ==> |run.pages| == |sources|)
            && (forall i :: 0 <= i < |run.pages| ==> run.pages[i].content == sources[i])
    decreases |sources|
  {
    if sources != [] && !cancel(polls) {
      var c := collect(sources[0], entries, polls + 1);
      if !c.canceled {
        RewriteKeepsPages(sources[1..], c.entries, collect, draw, cancel, c.polled);
        var rest := RewriteFrom(sources[1..], c.entries, collect, draw, cancel, c.polled);
        var all := [PageState(sources[0], PageOps(c.reps, draw))] + rest.pages;
        assert forall i :: 1 <= i < |all| ==> all[i] == rest.pages[i - 1];
      }
    }
  }

  /**
   * Cancellation in the page loop: the run is canceled exactly when one of its polls (one per
   * page, one per text line) answered true, and then it was the last poll made.
   */
  lemma {:induction false} CancelIsLastPoll(sources: seq<Page>, entries: map<string, string>, plan: LinePlanner, draw: Drawer, cancel: nat -> bool, polls: nat)
    ensures var run := RewriteFrom(sources, entries, Collector(plan, cancel), draw, cancel, polls);
            && polls <= run.polled
            && (run.canceled ==> polls < run.polled && cancel(run.polled - 1))
            && (forall p :: polls <= p < run.polled - 1 ==> !cancel(p))
            && (!run.canceled ==> forall p :: polls <= p < run.polled ==> !cancel(p))
    decreases |sources|
  {
    if sources != [] && !cancel(polls) {
      var page := sources[0];
      var c := CollectBlocks(page.blocks, entries, plan, cancel, polls + 1);
      BlocksPollsInOrder(page.blocks, entries, plan, cancel, polls + 1);
      if !c.canceled {
        CancelIsLastPoll(sources[1..], c.entries, plan, draw, cancel, c.polled);
      }
    }
  }

  /** A callback that never answers true lets every page through. */
  lemma NeverCanceled(sources: seq<Page>, entries: map<string, string>, plan: LinePlanner, draw: Drawer, cancel: nat -> bool, polls: nat)
    requires forall p :: !cancel(p)
    ensures var run := RewriteFrom(sources, entries, Collector(plan, cancel), draw, cancel, polls);
            !run.canceled && |run.pages| == |sources|
  {
    CancelIsLastPoll(sources, entries, plan, draw, cancel, polls);
    RewriteKeepsPages(sources, entries, Collector(plan, cancel), draw, cancel, polls);
  }
}
