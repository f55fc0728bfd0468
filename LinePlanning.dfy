/**
 * The first phase of `replace_text_in_page` (translator/pdf_layout.py): walk the text blocks
 * line by line, polling the cancel callback before each line, translate each non-blank line
 * through the cache, and collect the replacements, before anything on the target page changes.
 */
module LinePlanning {
  import opened Wrappers
  import opened Text
  import opened PageModel
  import opened TranslationCache
  import opened WordDistribution

  /** The line's text as the loop accumulates it: the span texts concatenated. */
  function LineText(spans: seq<Span>): string {
    if spans == [] then "" else LineText(spans[..|spans| - 1]) + spans[|spans| - 1].text
  }

  /** What a line with a non-blank text contributes, once `translated` is known. */
  function LineReplacements(spans: seq<Span>, translated: string): seq<Replacement> {
    if |spans| == 0 then []
    else if |spans| == 1 then [ReplacementFor(spans[0], translated)]
    else if TextLength(spans) == 0 then []
    else Deal(spans, Split(translated), TextLength(spans))
  }

  /** One line: its replacements and the cache table afterwards. */
  function PlanLine(line: Line, entries: map<string, string>, translator: Translator): (seq<Replacement>, map<string, string>) {
    var text := Strip(LineText(line.spans));
    if text == "" then ([], entries)
    else
      var looked := Lookup(entries, text, translator(text));
      (LineReplacements(line.spans, looked.0), looked.1)
  }

  /** The per-line step of the collecting phase: a line and a cache table to its replacements and the new table. */
  type LinePlanner = (Line, map<string, string>) -> (seq<Replacement>, map<string, string>)

  /** The source's per-line step, with the translator fixed. */
  function Planner(translator: Translator): LinePlanner {
    (line, entries) => PlanLine(line, entries, translator)
  }

  /**
   * Where the collecting phase stands: the replacements so far, the cache table, the number
   * of cancel polls made, and whether the last poll said to cancel.
   */
  datatype Collected = Collected(reps: seq<Replacement>, entries: map<string, string>, polled: nat, canceled: bool)

  /**
   * The collecting phase over `lines` from table `entries`, when poll number `polls` is the
   * next one: each line is preceded by a poll, and the first poll that answers true stops it.
   */
  function CollectFrom(lines: seq<Line>, entries: map<string, string>, plan: LinePlanner, cancel: nat -> bool, polls: nat): Collected
    decreases |lines|
  {
    if lines == [] then Collected([], entries, polls, false)
    else if cancel(polls) then Collected([], entries, polls + 1, true)
    else
      var first := plan(lines[0], entries);
      var rest := CollectFrom(lines[1..], first.1, plan, cancel, polls + 1);
      rest.(reps := first.0 + rest.reps)
  }

  /** The collecting phase over a run of blocks: the lines of each text block in turn, image blocks skipped. */
  function CollectBlocks(blocks: seq<Block>, entries: map<string, string>, plan: LinePlanner, cancel: nat -> bool, polls: nat): Collected
    decreases |blocks|
  {
    if blocks == [] then Collected([], entries, polls, false)
    else if blocks[0].kind != TextBlock then CollectBlocks(blocks[1..], entries, plan, cancel, polls)
    else
      var first := CollectFrom(blocks[0].lines, entries, plan, cancel, polls);
      if first.canceled then first
      else Prepend(first.reps, CollectBlocks(blocks[1..], first.entries, plan, cancel, first.polled))
  }

  /** The collecting phase of a whole page. */
  function CollectPage(page: Page, entries: map<string, string>, translator: Translator, cancel: nat -> bool, polls: nat): Collected {
    CollectBlocks(page.blocks, entries, Planner(translator), cancel, polls)
  }

  /** `c` with `reps` put in front of its replacements. */
  function Prepend(reps: seq<Replacement>, c: Collected): Collected {
    c.(reps := reps + c.reps)
  }

  /**
   * The collecting loop over the blocks; image blocks are skipped. On a cancel it stops at
   * once (the source raises `TranslationCanceled`).
   */
  method CollectReplacements(page: Page, cache: Cache, translator: Translator, cancel: nat -> bool, polls: nat)
    returns (reps: seq<Replacement>, polled: nat, canceled: bool)
    requires cache.Valid()
    modifies cache
    ensures cache.Valid()
    ensures Collected(reps, cache.entries, polled, canceled) == CollectPage(page, old(cache.entries), translator, cancel, polls)
  {
    reps := [];
    polled := polls;
    canceled := false;
    ghost var plan := Planner(translator);
    ghost var goal := CollectPage(page, cache.entries, translator, cancel, polls);
    for b := 0 to |page.blocks|
      invariant !canceled
      invariant Prepend(reps, CollectBlocks(page.blocks[b..], cache.entries, plan, cancel, polled)) == goal
      invariant cache.Valid()
    {
      assert page.blocks[b..][1..] == page.blocks[b + 1..];
      var block := page.blocks[b];
      if block.kind == TextBlock {
        var more;
        more, polled, canceled := CollectLines(block.lines, cache, translator, cancel, polled);
        if canceled {
          reps := reps + more;
          return;
        }
        PrependPrepend(reps, more, CollectBlocks(page.blocks[b + 1..], cache.entries, plan, cancel, polled));
        reps := reps + more;
      }
    }
    assert page.blocks[|page.blocks|..] == [];
  }

  /** The loop over the lines of one text block. */
  method CollectLines(lines: seq<Line>, cache: Cache, translator: Translator, cancel: nat -> bool, polls: nat)
    returns (reps: seq<Replacement>, polled: nat, canceled: bool)
    requires cache.Valid()
    modifies cache
    ensures cache.Valid()
    ensures Collected(reps, cache.entries, polled, canceled) == CollectFrom(lines, old(cache.entries), Planner(translator), cancel, polls)
  {
    reps := [];
    polled := polls;
    canceled := false;
    ghost var plan := Planner(translator);
    ghost var goal := CollectFrom(lines, cache.entries, plan, cancel, polls);
    for l := 0 to |lines|
      invariant !canceled
      invariant Prepend(reps, CollectFrom(lines[l..], cache.entries, plan, cancel, polled)) == goal
      invariant cache.Valid()
    {
      assert lines[l..][1..] == lines[l + 1..];
      if cancel(polled) {
        canceled := true;
        polled := polled + 1;
        assert reps + [] == reps;
        return;
      }
      ghost var entries := cache.entries;
      CollectStep(lines[l..], entries, plan, cancel, polled);
      polled := polled + 1;
      var more := ProcessLine(lines[l], cache, translator);
      assert plan(lines[l], entries) == (more, cache.entries);
      PrependPrepend(reps, more, CollectFrom(lines[l + 1..], cache.entries, plan, cancel, polled));
      reps := reps + more;
    }
  }

  /** The body of the line loop after the cancel poll: join, strip, translate, plan. */
  method ProcessLine(line: Line, cache: Cache, translator: Translator) returns (more: seq<Replacement>)
    requires cache.Valid()
    modifies cache
    ensures cache.Valid()
    ensures (more, cache.entries) == PlanLine(line, old(cache.entries), translator)
  {
    var lineText := "";
    for s := 0 to |line.spans|
      invariant lineText == LineText(line.spans[..s])
    {
      assert line.spans[..s + 1][..s] == line.spans[..s];
      lineText := lineText + line.spans[s].text;
    }
    assert line.spans[..|line.spans|] == line.spans;
    lineText := Strip(lineText);
    more := [];
    if lineText != "" {
      var translated := cache.Translate(lineText, translator);
      var spans := line.spans;
      if |spans| == 1 {
        more := [ReplacementFor(spans[0], translated)];
      } else if |spans| > 1 {
        var total := TextLength(spans);
        if total > 0 {
          var translatedWords := Split(translated);
          more := DistributeWords(spans, translatedWords, total);
        }
      }
    }
  }

  // ---------------------------------------------------------------------------
  // Lemmas about the collecting phase, whatever the per-line step

  /** One line of the collecting phase when its poll does not cancel. */
  lemma CollectStep(lines: seq<Line>, entries: map<string, string>, plan: LinePlanner, cancel: nat -> bool, polls: nat)
    requires lines != [] && !cancel(polls)
    ensures var first := plan(lines[0], entries);
            CollectFrom(lines, entries, plan, cancel, polls) == Prepend(first.0, CollectFrom(lines[1..], first.1, plan, cancel, polls + 1))
  {
  }

  lemma PrependPrepend(a: seq<Replacement>, b: seq<Replacement>, c: Collected)
    ensures Prepend(a, Prepend(b, c)) == Prepend(a + b, c)
  {
    ConcatAssoc(a, b, c.reps);
  }

  /** Collecting two runs of lines one after the other is collecting their concatenation. */
  lemma {:induction false} CollectConcat(xs: seq<Line>, ys: seq<Line>, entries: map<string, string>, plan: LinePlanner, cancel: nat -> bool, polls: nat)
    ensures var first := CollectFrom(xs, entries, plan, cancel, polls);
            CollectFrom(xs + ys, entries, plan, cancel, polls)
            == if first.canceled then first
               else Prepend(first.reps, CollectFrom(ys, first.entries, plan, cancel, first.polled))
    decreases |xs|
  {
    if xs == [] {
      assert xs + ys == ys;
    } else if cancel(polls) {
      assert (xs + ys)[0] == xs[0];
    } else {
      var first := plan(xs[0], entries);
      var tail := CollectFrom(xs[1..], first.1, plan, cancel, polls + 1);
      CollectConcat(xs[1..], ys, first.1, plan, cancel, polls + 1);
      assert CollectFrom(xs + ys, entries, plan, cancel, polls)
          == Prepend(first.0, CollectFrom(xs[1..] + ys, first.1, plan, cancel, polls + 1)) by {
        assert (xs + ys)[0] == xs[0];
        assert (xs + ys)[1..] == xs[1..] + ys;
      }
      if !tail.canceled {
        var after := CollectFrom(ys, tail.entries, plan, cancel, tail.polled);
        assert first.0 + (tail.reps + after.reps) == (first.0 + tail.reps) + after.reps;
      }
    }
  }

  /** Walking the blocks is walking the flat run of their text lines. */
  lemma {:induction false} BlocksAreTheirTextLines(blocks: seq<Block>, entries: map<string, string>, plan: LinePlanner, cancel: nat -> bool, polls: nat)
    ensures CollectBlocks(blocks, entries, plan, cancel, polls) == CollectFrom(TextLines(blocks), entries, plan, cancel, polls)
    decreases |blocks|
  {
    if blocks != [] {
      TextLinesStep(blocks, 0);
      assert blocks[0..] == blocks;
      var first := CollectFrom(BlockLines(blocks[0]), entries, plan, cancel, polls);
      CollectConcat(BlockLines(blocks[0]), TextLines(blocks[1..]), entries, plan, cancel, polls);
      if blocks[0].kind != TextBlock {
        BlocksAreTheirTextLines(blocks[1..], entries, plan, cancel, polls);
        assert TextLines(blocks) == TextLines(blocks[1..]);
      } else if !first.canceled {
        BlocksAreTheirTextLines(blocks[1..], first.entries, plan, cancel, first.polled);
      }
    }
  }

  /** The phase is canceled exactly when one of the polls it would make, one per line, says so. */
  lemma {:induction false} CanceledIffSomePoll(lines: seq<Line>, entries: map<string, string>, plan: LinePlanner, cancel: nat -> bool, polls: nat)
    ensures CollectFrom(lines, entries, plan, cancel, polls).canceled
            <==> exists p :: polls <= p < polls + |lines| && cancel(p)
    decreases |lines|
  {
    if lines != [] && !cancel(polls) {
      var first := plan(lines[0], entries);
      CanceledIffSomePoll(lines[1..], first.1, plan, cancel, polls + 1);
      if exists p :: polls <= p < polls + |lines| && cancel(p) {
        var p :| polls <= p < polls + |lines| && cancel(p);
        assert p != polls;
      }
    }
  }

  /**
   * Polls are made in order, one per line, up to and including the first that answers true;
   * without a cancel every line is polled once.
   */
  lemma {:induction false} PollsInOrder(lines: seq<Line>, entries: map<string, string>, plan: LinePlanner, cancel: nat -> bool, polls: nat)
    ensures var c := CollectFrom(lines, entries, plan, cancel, polls);
            && (!c.canceled ==> c.polled == polls + |lines|)
            && (c.canceled ==> polls < c.polled <= polls + |lines| && cancel(c.polled - 1))
            && (forall p :: polls <= p < c.polled - 1 ==> !cancel(p))
            && (!c.canceled ==> forall p :: polls <= p < c.polled ==> !cancel(p))
    decreases |lines|
  {
    if lines != [] && !cancel(polls) {
      var first := plan(lines[0], entries);
      PollsInOrder(lines[1..], first.1, plan, cancel, polls + 1);
    }
  }

  /** When no poll in range answers true, the run is the one a callback that never cancels gives. */
  lemma {:induction false} UncanceledRunIsFullRun(lines: seq<Line>, entries: map<string, string>, plan: LinePlanner, cancel: nat -> bool, polls: nat)
    requires forall p :: polls <= p < polls + |lines| ==> !cancel(p)
    ensures CollectFrom(lines, entries, plan, cancel, polls) == CollectFrom(lines, entries, plan, _ => false, polls)
    decreases |lines|
  {
    if lines != [] {
      var first := plan(lines[0], entries);
      UncanceledRunIsFullRun(lines[1..], first.1, plan, cancel, polls + 1);
    }
  }

  /** The polls of a page's collecting phase, in order, as for the flat run of its text lines. */
  lemma BlocksPollsInOrder(blocks: seq<Block>, entries: map<string, string>, plan: LinePlanner, cancel: nat -> bool, polls: nat)
    ensures var c := CollectBlocks(blocks, entries, plan, cancel, polls);
            && polls <= c.polled
            && (c.canceled ==> polls < c.polled && cancel(c.polled - 1))
            && (forall p :: polls <= p < c.polled - 1 ==> !cancel(p))
            && (!c.canceled ==> forall p :: polls <= p < c.polled ==> !cancel(p))
  {
    BlocksAreTheirTextLines(blocks, entries, plan, cancel, polls);
    PollsInOrder(TextLines(blocks), entries, plan, cancel, polls);
  }

  // ---------------------------------------------------------------------------
  // Lemmas about the source's own per-line step

  /** The cache table stays within its cap, and no entry in it changes. */
  lemma {:induction false} CollectKeepsCache(lines: seq<Line>, entries: map<string, string>, translator: Translator, cancel: nat -> bool, polls: nat)
    ensures var e' := CollectFrom(lines, entries, Planner(translator), cancel, polls).entries;
            && (|entries| <= MaxEntries ==> |e'| <= MaxEntries)
            && (forall k :: k in entries ==> k in e' && e'[k] == entries[k])
    decreases |lines|
  {
    if lines != [] && !cancel(polls) {
      var first := PlanLine(lines[0], entries, translator);
      var text := Strip(LineText(lines[0].spans));
      LookupKeepsEntries(entries, text, translator(text));
      CollectKeepsCache(lines[1..], first.1, translator, cancel, polls + 1);
    }
  }

  lemma {:induction false} LineTextLength(spans: seq<Span>)
    ensures |LineText(spans)| == TextLength(spans)
    decreases |spans|
  {
    if spans != [] {
      LineTextLength(spans[..|spans| - 1]);
    }
  }

  /** A line whose joined text is blank yields nothing and leaves the cache alone. */
  lemma BlankLineYieldsNothing(line: Line, entries: map<string, string>, translator: Translator)
    requires IsBlank(LineText(line.spans))
    ensures PlanLine(line, entries, translator) == ([], entries)
  {
    StripEmptyIffBlank(LineText(line.spans));
  }

  /**
   * A line with a non-blank text has spans and some original text, so the `not spans` and
   * `total_original_length == 0` guards of the source never fire after the blank check.
   */
  lemma NonBlankLineHasText(spans: seq<Span>)
    requires !IsBlank(LineText(spans))
    ensures |spans| > 0 && TextLength(spans) > 0
  {
    LineTextLength(spans);
  }

  /** A non-blank single-span line yields exactly one replacement carrying the whole translation. */
  lemma SingleSpanLine(line: Line, entries: map<string, string>, translator: Translator)
    requires |line.spans| == 1 && !IsBlank(LineText(line.spans))
    ensures var text := Strip(LineText(line.spans));
            var reps := PlanLine(line, entries, translator).0;
            && |reps| == 1
            && Keeps(reps[0], line.spans[0])
            && reps[0].newText == Lookup(entries, text, translator(text)).0
  {
    StripEmptyIffBlank(LineText(line.spans));
  }

  /**
   * A non-blank multi-span line: its replacements follow its spans in order, one at most per
   * span, each keeping its span's style and holding a word, and together they hold exactly the
   * words of the translation.
   */
  lemma MultiSpanLine(line: Line, entries: map<string, string>, translator: Translator)
    requires |line.spans| > 1 && !IsBlank(LineText(line.spans))
    ensures var text := Strip(LineText(line.spans));
            var translated := Lookup(entries, text, translator(text)).0;
            var reps := PlanLine(line, entries, translator).0;
            && WordsOf(reps) == Split(translated)
            && |reps| <= |line.spans|
            && forall j :: 0 <= j < |reps| ==> Keeps(reps[j], line.spans[j]) && Split(reps[j].newText) != []
  {
    var spans := line.spans;
    StripEmptyIffBlank(LineText(spans));
    NonBlankLineHasText(spans);
    var text := Strip(LineText(spans));
    var translated := Lookup(entries, text, translator(text)).0;
    SplitGivesWords(translated);
    DealCoversWords(spans, Split(translated), TextLength(spans));
    DealFollowsSpans(spans, Split(translated), TextLength(spans));
  }

  lemma LineReplacementsFromSpans(line: Line, entries: map<string, string>, translator: Translator)
    ensures forall r :: r in PlanLine(line, entries, translator).0 ==> exists s :: s in line.spans && Keeps(r, s)
  {
    var text := Strip(LineText(line.spans));
    if text != "" && |line.spans| > 1 && TextLength(line.spans) > 0 {
      var translated := Lookup(entries, text, translator(text)).0;
      var reps := PlanLine(line, entries, translator).0;
      SplitGivesWords(translated);
      DealFollowsSpans(line.spans, Split(translated), TextLength(line.spans));
      forall r | r in reps ensures exists s :: s in line.spans && Keeps(r, s) {
        var j :| 0 <= j < |reps| && reps[j] == r;
        assert line.spans[j] in line.spans;
      }
    }
  }

  /** Every collected replacement carries the box and style of some span of the lines walked. */
  lemma {:induction false} ReplacementsComeFromSpans(lines: seq<Line>, entries: map<string, string>, translator: Translator, cancel: nat -> bool, polls: nat)
    ensures forall r :: r in CollectFrom(lines, entries, Planner(translator), cancel, polls).reps ==>
              exists j, s :: 0 <= j < |lines| && s in lines[j].spans && Keeps(r, s)
    decreases |lines|
  {
    if lines != [] && !cancel(polls) {
      var first := PlanLine(lines[0], entries, translator);
      var rest := CollectFrom(lines[1..], first.1, Planner(translator), cancel, polls + 1);
      ReplacementsComeFromSpans(lines[1..], first.1, translator, cancel, polls + 1);
      LineReplacementsFromSpans(lines[0], entries, translator);
      forall r | r in first.0 + rest.reps ensures exists j, s :: 0 <= j < |lines| && s in lines[j].spans && Keeps(r, s) {
        if r in first.0 {
          var s :| s in lines[0].spans && Keeps(r, s);
        } else {
          var j, s :| 0 <= j < |lines[1..]| && s in lines[1..][j].spans && Keeps(r, s);
          assert lines[j + 1] == lines[1..][j];
        }
      }
    }
  }

  /** No replacement on a page comes from an image block: each traces back to a text block's span. */
  lemma PageReplacementsFromTextBlocks(page: Page, entries: map<string, string>, translator: Translator, cancel: nat -> bool, polls: nat)
    ensures forall r :: r in CollectPage(page, entries, translator, cancel, polls).reps ==>
              exists b, l, s :: 0 <= b < |page.blocks| && page.blocks[b].kind == TextBlock
                                && l in page.blocks[b].lines && s in l.spans && Keeps(r, s)
  {
    var lines := TextLines(page.blocks);
    BlocksAreTheirTextLines(page.blocks, entries, Planner(translator), cancel, polls);
    ReplacementsComeFromSpans(lines, entries, translator, cancel, polls);
    forall r | r in CollectPage(page, entries, translator, cancel, polls).reps
      ensures exists b, l, s :: 0 <= b < |page.blocks| && page.blocks[b].kind == TextBlock
                                && l in page.blocks[b].lines && s in l.spans && Keeps(r, s)
    {
      var j, s :| 0 <= j < |lines| && s in lines[j].spans && Keeps(r, s);
      TextLinesComeFromTextBlocks(page.blocks, j);
    }
  }
}
