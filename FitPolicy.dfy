/**
 * The sizing rules of the drawing phase of `replace_text_in_page` (translator/pdf_layout.py):
 * `_fit_font_size_for_width`, the `min_allowed` floor, the font candidates and the retry
 * schedule of `insert_textbox` calls. Text measurement and `insert_textbox` are PyMuPDF calls;
 * here they are oracles passed in as functions. Sizes are reals.
 */
module FitPolicy {
  import opened Wrappers
  import opened PageModel

  /** `fitz.get_text_length(text, fontname, fontsize)`: `None` when it raises. */
  type Measure = (string, string, real) -> Option<real>

  /**
   * `page.insert_textbox(rect, text, fontsize, fontname, …)`: `Some(leftover)` when it returns
   * (a negative leftover means the text did not fit), `None` when it raises.
   */
  type Textbox = (Rect, string, real, string) -> Option<real>

  function RMax(a: real, b: real): real { if a >= b then a else b }

  function RMin(a: real, b: real): real { if a <= b then a else b }

  /** The factor the target size is multiplied by before fitting. */
  const Padding: real := 0.85

  /** Each retry multiplies the size by this. */
  const Decay: real := 0.9

  /** The fit never shrinks below this fraction of its starting size. */
  const MinScale: real := 0.6

  /** Attempts per candidate font. */
  const TriesPerFont: nat := 6

  /**
   * The width `_fit_font_size_for_width` compares against the box: the measured width when
   * measuring returns a positive number, otherwise the glyph-average estimate.
   */
  function EstimatedWidth(text: string, font: string, size: real, fallbackAvg: real, measure: Measure): (w: real)
    ensures w > 0.0
    ensures (measure(text, font, size).Some? && measure(text, font, size).value > 0.0) ==> w == measure(text, font, size).value
    ensures (measure(text, font, size).None? || measure(text, font, size).value <= 0.0) ==>
              w >= 0.5 * (if |text| > 1 then |text| as real else 1.0)
  {
    var estimate := RMax(0.5, fallbackAvg) * (if |text| > 1 then |text| as real else 1.0);
    match measure(text, font, size)
    case None => estimate
    case Some(m) => if m > 0.0 then m else estimate
  }

  /** The size `_fit_font_size_for_width` starts from: at least 1. */
  function StartSize(size: real): real { RMax(1.0, size) }

  /**
   * `_fit_font_size_for_width`: the starting size when the text fits the width, otherwise a
   * size scaled down by (width - 0.5) / w, but never below 60% of the start.
   */
  function FitFontSize(text: string, font: string, size: real, width: real, fallbackAvg: real, measure: Measure): (r: real)
    ensures var s := StartSize(size);
            var w := EstimatedWidth(text, font, s, fallbackAvg, measure);
            && (w <= width ==> r == s)
            && (w > width ==> MinScale * s <= r < s)
  {
    var s := StartSize(size);
    var w := EstimatedWidth(text, font, s, fallbackAvg, measure);
    if w <= width then s
    else
      var ratio := (width - 0.5) / w;
      QuotientBelowOne(width - 0.5, w);
      Scaled(s, RMax(MinScale, RMin(1.0, ratio)))
  }

  /** A positive size scaled by a factor in [MinScale, 1). */
  function Scaled(s: real, factor: real): (r: real)
    requires s > 0.0 && MinScale <= factor < 1.0
    ensures MinScale * s <= r < s
  {
    ScaledBetween(s, factor);
    s * factor
  }

  /** `min_allowed = max(5.0, max(0.5 * orig_size, fitted_size * 0.9))`. */
  function MinAllowed(origSize: real, fitted: real): (r: real)
    ensures r >= 5.0 && r >= 0.5 * origSize && r >= Decay * fitted
    ensures r == 5.0 || r == 0.5 * origSize || r == Decay * fitted
  {
    RMax(5.0, RMax(0.5 * origSize, fitted * Decay))
  }

  /** The mapped font, then `helv`, skipping empty names and repeats. */
  function FontCandidates(mapped: string): (r: seq<string>)
    ensures 1 <= |r| <= 2
    ensures r[|r| - 1] == "helv"
    ensures mapped != "" ==> r[0] == mapped
    ensures forall f :: f in r <==> (f == "helv" || (f == mapped && mapped != ""))
    ensures forall i, j :: 0 <= i < j < |r| ==> r[i] != r[j]
  {
    if mapped == "" || mapped == "helv" then ["helv"] else [mapped, "helv"]
  }

  /** One `insert_textbox` call of the retry loop: its size and font. */
  datatype Attempt = Attempt(size: real, font: string)

  /** The calls made and whether one of them fitted. */
  datatype Tried = Tried(attempts: seq<Attempt>, inserted: bool)

  /**
   * The inner retry loop for one font, from size `size` with `tries` attempts left: a raise
   * ends it, a non-negative leftover ends it with success, otherwise the size decays towards
   * `minAllowed`, and the loop gives up once the size has reached the floor below `fitted`.
   */
  function TryFont(box: Rect, text: string, font: string, size: real, fitted: real, minAllowed: real, tries: nat, textbox: Textbox): Tried
    decreases tries
  {
    if tries == 0 then Tried([], false)
    else
      var here := [Attempt(size, font)];
      match textbox(box, text, size, font)
      case None => Tried(here, false)
      case Some(leftover) =>
        if leftover >= 0.0 then Tried(here, true)
        else
          var next := RMax(minAllowed, size * Decay);
          if next <= minAllowed && next < fitted then Tried(here, false)
          else
            Then(here, TryFont(box, text, font, next, fitted, minAllowed, tries - 1, textbox))
  }

  /** The outer loop over the candidate fonts: each starts again from `fitted`; success stops it. */
  function TryFonts(box: Rect, text: string, fonts: seq<string>, fitted: real, minAllowed: real, textbox: Textbox): Tried
    decreases |fonts|
  {
    if fonts == [] then Tried([], false)
    else
      var first := TryFont(box, text, fonts[0], fitted, fitted, minAllowed, TriesPerFont, textbox);
      if first.inserted then first
      else
        Then(first.attempts, TryFonts(box, text, fonts[1..], fitted, minAllowed, textbox))
  }

  /** `t` with the calls `done` put before its own. */
  function Then(done: seq<Attempt>, t: Tried): Tried {
    Tried(done + t.attempts, t.inserted)
  }

  /** Whether `insert_textbox` accepted an attempt without overflow. */
  predicate Fits(box: Rect, text: string, a: Attempt, textbox: Textbox) {
    textbox(box, text, a.size, a.font).Some? && textbox(box, text, a.size, a.font).value >= 0.0
  }

  // ---------------------------------------------------------------------------
  // Lemmas

  /** Scaling a positive size by a factor in [MinScale, 1) keeps it in [MinScale * s, s). */
  lemma ScaledBetween(s: real, factor: real)
    requires s > 0.0 && MinScale <= factor < 1.0
    ensures MinScale * s <= s * factor < s
  {
    assert s * (1.0 - factor) > 0.0;
    assert s * (factor - MinScale) >= 0.0;
  }

  lemma QuotientBelowOne(a: real, w: real)
    requires w > 0.0 && a < w
    ensures a / w < 1.0
  {
    assert a / w * w == a;
  }

  /**
   * When the estimate does not fit and the 60% floor is not reached, the fitted size is the
   * starting size scaled so that, at a width proportional to the size, the text ends half a
   * point inside the box.
   */
  lemma FitScalesToWidth(text: string, font: string, size: real, width: real, fallbackAvg: real, measure: Measure)
    requires var w := EstimatedWidth(text, font, StartSize(size), fallbackAvg, measure);
             w > width && (width - 0.5) / w >= MinScale
    ensures var s := StartSize(size);
            var w := EstimatedWidth(text, font, s, fallbackAvg, measure);
            FitFontSize(text, font, size, width, fallbackAvg, measure) * w == s * (width - 0.5)
  {
    var s := StartSize(size);
    var w := EstimatedWidth(text, font, s, fallbackAvg, measure);
    var ratio := (width - 0.5) / w;
    assert ratio * w == width - 0.5;
    QuotientBelowOne(width - 0.5, w);
    assert FitFontSize(text, font, size, width, fallbackAvg, measure) == s * ratio;
  }

  /**
   * When the estimate does not fit and the scale factor falls below 60%, the clamp takes over:
   * the fitted size is exactly 60% of the starting size.
   */
  lemma FitClampsAtFloor(text: string, font: string, size: real, width: real, fallbackAvg: real, measure: Measure)
    requires var w := EstimatedWidth(text, font, StartSize(size), fallbackAvg, measure);
             w > width && (width - 0.5) / w < MinScale
    ensures FitFontSize(text, font, size, width, fallbackAvg, measure) == MinScale * StartSize(size)
  {
    var s := StartSize(size);
    var w := EstimatedWidth(text, font, s, fallbackAvg, measure);
    QuotientBelowOne(width - 0.5, w);
    assert RMax(MinScale, RMin(1.0, (width - 0.5) / w)) == MinScale;
  }

  /**
   * The retry loop for one font: at most `tries` calls, all in that font, the first at the
   * starting size and every later one at or above `minAllowed`; success means the last call fitted
   * and none before it did.
   */
  lemma {:induction false} TryFontShape(box: Rect, text: string, font: string, size: real, fitted: real, minAllowed: real, tries: nat, textbox: Textbox)
    ensures var t := TryFont(box, text, font, size, fitted, minAllowed, tries, textbox);
            && |t.attempts| <= tries
            && (tries > 0 ==> |t.attempts| >= 1 && t.attempts[0] == Attempt(size, font))
            && (forall j :: 0 <= j < |t.attempts| ==> t.attempts[j].font == font)
            && (forall j :: 0 < j < |t.attempts| ==> t.attempts[j].size >= minAllowed)
            && (t.inserted <==> |t.attempts| > 0 && Fits(box, text, t.attempts[|t.attempts| - 1], textbox))
            && (forall j :: 0 <= j < |t.attempts| - 1 ==> !Fits(box, text, t.attempts[j], textbox))
    decreases tries
  {
    if tries > 0 {
      match textbox(box, text, size, font)
      case None =>
      case Some(leftover) =>
        if leftover < 0.0 {
          var next := RMax(minAllowed, size * Decay);
          if !(next <= minAllowed && next < fitted) {
            var rest := TryFont(box, text, font, next, fitted, minAllowed, tries - 1, textbox);
            TryFontShape(box, text, font, next, fitted, minAllowed, tries - 1, textbox);
            var all := [Attempt(size, font)] + rest.attempts;
            assert forall j :: 0 < j < |all| ==> all[j] == rest.attempts[j - 1];
          }
        }
    }
  }

  /**
   * Because `minAllowed` is at least 90% of `fitted`, the schedule only ever uses two sizes:
   * `fitted` first and `minAllowed` after it; and when `minAllowed` is below `fitted`, the loop
   * stops after the first call.
   */
  lemma {:induction false} RetrySizes(box: Rect, text: string, font: string, size: real, fitted: real, minAllowed: real, tries: nat, textbox: Textbox)
    requires minAllowed >= Decay * fitted && minAllowed > 0.0
    requires size == fitted || size == minAllowed
    ensures var t := TryFont(box, text, font, size, fitted, minAllowed, tries, textbox);
            && (forall j :: 0 < j < |t.attempts| ==> t.attempts[j].size == minAllowed)
            && (minAllowed < fitted && size == fitted ==> |t.attempts| <= 1)
    decreases tries
  {
    if tries > 0 {
      match textbox(box, text, size, font)
      case None =>
      case Some(leftover) =>
        if leftover < 0.0 {
          var next := RMax(minAllowed, size * Decay);
          assert next == minAllowed;
          if !(next <= minAllowed && next < fitted) {
            var rest := TryFont(box, text, font, next, fitted, minAllowed, tries - 1, textbox);
            RetrySizes(box, text, font, next, fitted, minAllowed, tries - 1, textbox);
            TryFontShape(box, text, font, next, fitted, minAllowed, tries - 1, textbox);
            var all := [Attempt(size, font)] + rest.attempts;
            assert forall j :: 0 < j < |all| ==> all[j] == rest.attempts[j - 1];
          }
        }
    }
  }

  /** The loop over the fonts: at most six calls per font, each in a candidate font, each at `fitted` or at or above the floor. */
  lemma {:induction false} TryFontsBounds(box: Rect, text: string, fonts: seq<string>, fitted: real, minAllowed: real, textbox: Textbox)
    ensures var t := TryFonts(box, text, fonts, fitted, minAllowed, textbox);
            && |t.attempts| <= TriesPerFont * |fonts|
            && (forall j :: 0 <= j < |t.attempts| ==> t.attempts[j].font in fonts)
            && (forall j :: 0 <= j < |t.attempts| ==> t.attempts[j].size == fitted || t.attempts[j].size >= minAllowed)
    decreases |fonts|
  {
    if fonts != [] {
      var first := TryFont(box, text, fonts[0], fitted, fitted, minAllowed, TriesPerFont, textbox);
      TryFontShape(box, text, fonts[0], fitted, fitted, minAllowed, TriesPerFont, textbox);
      if !first.inserted {
        var rest := TryFonts(box, text, fonts[1..], fitted, minAllowed, textbox);
        TryFontsBounds(box, text, fonts[1..], fitted, minAllowed, textbox);
        BoundsConcat(first.attempts, rest.attempts, fonts, fitted, minAllowed);
      }
    }
  }

  /** The fonts are tried until one call fits: success exactly when the last call fitted, and no earlier call did. */
  lemma {:induction false} TryFontsOutcome(box: Rect, text: string, fonts: seq<string>, fitted: real, minAllowed: real, textbox: Textbox)
    ensures var t := TryFonts(box, text, fonts, fitted, minAllowed, textbox);
            && (t.inserted <==> |t.attempts| > 0 && Fits(box, text, t.attempts[|t.attempts| - 1], textbox))
            && (forall j :: 0 <= j < |t.attempts| - 1 ==> !Fits(box, text, t.attempts[j], textbox))
    decreases |fonts|
  {
    if fonts != [] {
      var first := TryFont(box, text, fonts[0], fitted, fitted, minAllowed, TriesPerFont, textbox);
      TryFontShape(box, text, fonts[0], fitted, fitted, minAllowed, TriesPerFont, textbox);
      if !first.inserted {
        var rest := TryFonts(box, text, fonts[1..], fitted, minAllowed, textbox);
        TryFontsOutcome(box, text, fonts[1..], fitted, minAllowed, textbox);
        OutcomeConcat(box, text, first.attempts, rest.attempts, textbox);
      }
    }
  }

  lemma BoundsConcat(a: seq<Attempt>, b: seq<Attempt>, fonts: seq<string>, fitted: real, minAllowed: real)
    requires |fonts| > 0 && |a| <= TriesPerFont && |b| <= TriesPerFont * (|fonts| - 1)
    requires forall j :: 0 <= j < |a| ==> a[j].font == fonts[0] && (a[j].size == fitted || a[j].size >= minAllowed)
    requires forall j :: 0 <= j < |b| ==> b[j].font in fonts[1..] && (b[j].size == fitted || b[j].size >= minAllowed)
    ensures var all := a + b;
            && |all| <= TriesPerFont * |fonts|
            && (forall j :: 0 <= j < |all| ==> all[j].font in fonts)
            && (forall j :: 0 <= j < |all| ==> all[j].size == fitted || all[j].size >= minAllowed)
  {
    var all := a + b;
    forall j | 0 <= j < |all| ensures all[j].font in fonts && (all[j].size == fitted || all[j].size >= minAllowed) {
      if j < |a| {
        assert all[j] == a[j];
      } else {
        assert all[j] == b[j - |a|];
        assert b[j - |a|].font in fonts[1..];
      }
    }
  }

  lemma OutcomeConcat(box: Rect, text: string, a: seq<Attempt>, b: seq<Attempt>, textbox: Textbox)
    requires forall j :: 0 <= j < |a| ==> !Fits(box, text, a[j], textbox)
    requires forall j :: 0 <= j < |b| - 1 ==> !Fits(box, text, b[j], textbox)
    ensures var all := a + b;
            && (forall j :: 0 <= j < |all| - 1 ==> !Fits(box, text, all[j], textbox))
            && (|all| > 0 && Fits(box, text, all[|all| - 1], textbox) <==> |b| > 0 && Fits(box, text, b[|b| - 1], textbox))
  {
    var all := a + b;
    if |b| == 0 {
      assert all == a;
    } else {
      assert all[|all| - 1] == b[|b| - 1];
    }
  }

  lemma ThenAssoc(a: seq<Attempt>, b: seq<Attempt>, t: Tried)
    ensures Then(a, Then(b, t)) == Then(a + b, t)
  {
    assert a + (b + t.attempts) == (a + b) + t.attempts;
  }

  /** One attempt of the retry loop for a font, unfolded. */
  lemma TryFontStep(box: Rect, text: string, font: string, size: real, fitted: real, minAllowed: real, tries: nat, textbox: Textbox)
    requires tries > 0
    ensures var t := TryFont(box, text, font, size, fitted, minAllowed, tries, textbox);
            var a := Attempt(size, font);
            var r := textbox(box, text, size, font);
            var next := RMax(minAllowed, size * Decay);
            && (r.None? ==> t == Tried([a], false))
            && (r.Some? && r.value >= 0.0 ==> t == Tried([a], true))
            && (r.Some? && r.value < 0.0 && next <= minAllowed && next < fitted ==> t == Tried([a], false))
            && (r.Some? && r.value < 0.0 && !(next <= minAllowed && next < fitted) ==>
                  t == Then([a], TryFont(box, text, font, next, fitted, minAllowed, tries - 1, textbox)))
  {
  }

  /** The font loop from candidate `f` on, unfolded once. */
  lemma TryFontsStep(box: Rect, text: string, fonts: seq<string>, f: nat, fitted: real, minAllowed: real, textbox: Textbox)
    requires f < |fonts|
    ensures var first := TryFont(box, text, fonts[f], fitted, fitted, minAllowed, TriesPerFont, textbox);
            TryFonts(box, text, fonts[f..], fitted, minAllowed, textbox)
            == if first.inserted then first else Then(first.attempts, TryFonts(box, text, fonts[f + 1..], fitted, minAllowed, textbox))
  {
    assert fonts[f..][1..] == fonts[f + 1..];
  }
}
