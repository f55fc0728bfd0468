/**
 * The multi-span branch of `replace_text_in_page` (translator/pdf_layout.py): the translated
 * line is split into words, and the words are dealt to the line's spans in order. A span that
 * is not the last gets max(1, floor(W * len_i / total)) words (W words in all, len_i the
 * length of its original text, total the line's), the last span gets whatever remains, and
 * dealing stops once the words run out. Each span's share is joined with single spaces and
 * becomes one replacement in that span's box and style.
 */
module WordDistribution {
  import opened Text
  import opened PageModel

  /** `sum(len(t) for t in original_texts)`. */
  function TextLength(spans: seq<Span>): nat {
    if spans == [] then 0 else TextLength(spans[..|spans| - 1]) + |spans[|spans| - 1].text|
  }

  function Min(a: int, b: int): int { if a <= b then a else b }

  function Max(a: int, b: int): int { if a >= b then a else b }

  /** What each span is due: max(1, floor(W * len_i / total)); only the spans before the last use it. */
  function Quotas(spans: seq<Span>, wordCount: nat, total: nat): (q: seq<nat>)
    requires total > 0
    ensures |q| == |spans| && AtLeastOne(q)
  {
    seq(|spans|, i requires 0 <= i < |spans| => QuotaOf(wordCount, |spans[i].text|, total))
  }

  /** max(1, int(W * len_i / total)), W and len_i non-negative so that flooring is truncation. */
  function QuotaOf(wordCount: nat, len: nat, total: nat): (k: nat)
    requires total > 0
    ensures k >= 1
  {
    Max(1, wordCount * len / total)
  }

  predicate AtLeastOne(quotas: seq<nat>) {
    forall i :: 0 <= i < |quotas| ==> quotas[i] >= 1
  }

  /** How many words span `i` is due when `idx` of `wordCount` words are already dealt. */
  function Share(quotas: seq<nat>, wordCount: nat, i: nat, idx: nat): nat
    requires i < |quotas|
  {
    if i == |quotas| - 1 then (if idx <= wordCount then wordCount - idx else 0)
    else quotas[i]
  }

  /** The runs of words dealt from span `i` on, with `idx` words already dealt (slices clamp as in Python). */
  function Chunks(words: seq<string>, quotas: seq<nat>, i: nat, idx: nat): seq<seq<string>>
    requires i <= |quotas|
    decreases |quotas| - i
  {
    if i == |quotas| || idx >= |words| then []
    else
      var k := Share(quotas, |words|, i, idx);
      [words[idx..Min(idx + k, |words|)]] + Chunks(words, quotas, i + 1, idx + k)
  }

  /** One replacement per run, the j-th in span j's box and style, its words joined with spaces. */
  function Dealt(spans: seq<Span>, chunks: seq<seq<string>>): (reps: seq<Replacement>)
    requires |chunks| <= |spans|
    ensures |reps| == |chunks|
  {
    seq(|chunks|, j requires 0 <= j < |chunks| => ReplacementFor(spans[j], Join(chunks[j])))
  }

  /** The replacements for a line whose original text has length `total`. */
  function Deal(spans: seq<Span>, words: seq<string>, total: nat): seq<Replacement>
    requires total > 0
  {
    var chunks := Chunks(words, Quotas(spans, |words|, total), 0, 0);
    ChunksBound(words, Quotas(spans, |words|, total), 0, 0);
    Dealt(spans, chunks)
  }

  /** The words the replacements carry, each text split again and the lists concatenated. */
  function WordsOf(reps: seq<Replacement>): seq<string> {
    if reps == [] then [] else Split(reps[0].newText) + WordsOf(reps[1..])
  }

  function Flatten(chunks: seq<seq<string>>): seq<string> {
    if chunks == [] then [] else chunks[0] + Flatten(chunks[1..])
  }

  /**
   * The dealing loop over the spans of one line. `words` is the split translation and `total`
   * the line's original text length.
   */
  method DistributeWords(spans: seq<Span>, words: seq<string>, total: nat) returns (reps: seq<Replacement>)
    requires total > 0
    ensures reps == Deal(spans, words, total)
  {
    ghost var quotas := Quotas(spans, |words|, total);
    ghost var goal := Chunks(words, quotas, 0, 0);
    ghost var chunks: seq<seq<string>> := [];
    reps := [];
    var idx: nat := 0;
    for i := 0 to |spans|
      invariant |chunks| == i
      invariant chunks + Chunks(words, quotas, i, idx) == goal
      invariant reps == Dealt(spans, chunks)
    {
      if idx >= |words| {
        break;
      }
      var wordsForSpan: nat := QuotaOf(|words|, |spans[i].text|, total);
      assert wordsForSpan == quotas[i];
      if i == |spans| - 1 {
        wordsForSpan := |words| - idx;
      }
      var spanWords := words[idx..Min(idx + wordsForSpan, |words|)];
      ChunksAdvance(words, quotas, i, idx, chunks, wordsForSpan, goal);
      DealtAppend(spans, chunks, spanWords);
      reps := reps + [ReplacementFor(spans[i], Join(spanWords))];
      chunks := chunks + [spanWords];
      idx := idx + wordsForSpan;
    }
    ChunksDone(words, quotas, |spans|, idx);
    assert chunks + [] == chunks;
  }

  // ---------------------------------------------------------------------------
  // Lemmas

  lemma SliceGlue<T>(s: seq<T>, lo: nat, mid: nat)
    requires lo <= mid <= |s|
    ensures s[lo..mid] + s[mid..] == s[lo..]
  {
  }

  /** The loop's invariant survives one span. */
  lemma ChunksAdvance(words: seq<string>, quotas: seq<nat>, i: nat, idx: nat, chunks: seq<seq<string>>, k: nat,
                      goal: seq<seq<string>>)
    requires i < |quotas| && idx < |words| && k == Share(quotas, |words|, i, idx)
    requires chunks + Chunks(words, quotas, i, idx) == goal
    ensures chunks + [words[idx..Min(idx + k, |words|)]] + Chunks(words, quotas, i + 1, idx + k) == goal
  {
    ConcatAssoc(chunks, [words[idx..Min(idx + k, |words|)]], Chunks(words, quotas, i + 1, idx + k));
  }

  /** Past the last span, or once the words run out, nothing more is dealt. */
  lemma ChunksDone(words: seq<string>, quotas: seq<nat>, i: nat, idx: nat)
    requires i <= |quotas| && (i == |quotas| || idx >= |words|)
    ensures Chunks(words, quotas, i, idx) == []
  {
  }

  lemma DealtIndex(spans: seq<Span>, chunks: seq<seq<string>>, j: nat)
    requires |chunks| <= |spans| && j < |chunks|
    ensures Dealt(spans, chunks)[j] == ReplacementFor(spans[j], Join(chunks[j]))
  {
  }

  lemma DealtAppend(spans: seq<Span>, chunks: seq<seq<string>>, c: seq<string>)
    requires |chunks| < |spans|
    ensures Dealt(spans, chunks + [c]) == Dealt(spans, chunks) + [ReplacementFor(spans[|chunks|], Join(c))]
  {
    var a, b := Dealt(spans, chunks + [c]), Dealt(spans, chunks) + [ReplacementFor(spans[|chunks|], Join(c))];
    forall j | 0 <= j < |a| ensures a[j] == b[j] {
      DealtIndex(spans, chunks + [c], j);
      if j < |chunks| {
        assert (chunks + [c])[j] == chunks[j];
        DealtIndex(spans, chunks, j);
      }
    }
  }

  /** At most one run per remaining span, none of them empty. */
  lemma {:induction false} ChunksBound(words: seq<string>, quotas: seq<nat>, i: nat, idx: nat)
    requires i <= |quotas|
    ensures |Chunks(words, quotas, i, idx)| <= |quotas| - i
    decreases |quotas| - i
  {
    if i < |quotas| && idx < |words| {
      ChunksBound(words, quotas, i + 1, idx + Share(quotas, |words|, i, idx));
    }
  }

  /**
   * Nothing dropped, nothing duplicated: the runs, concatenated in order, are exactly the words
   * still to be dealt, and each run holds at least one word.
   */
  lemma {:induction false} ChunksCoverWords(words: seq<string>, quotas: seq<nat>, i: nat, idx: nat)
    requires AtLeastOne(quotas) && i < |quotas|
    ensures Flatten(Chunks(words, quotas, i, idx)) == words[Min(idx, |words|)..]
    ensures forall c :: c in Chunks(words, quotas, i, idx) ==> c != []
    decreases |quotas| - i
  {
    if idx < |words| {
      var k := Share(quotas, |words|, i, idx);
      var hi := Min(idx + k, |words|);
      var rest := Chunks(words, quotas, i + 1, idx + k);
      if i + 1 < |quotas| {
        ChunksCoverWords(words, quotas, i + 1, idx + k);
      } else {
        assert rest == [];
        assert words[hi..] == [];
      }
      assert Chunks(words, quotas, i, idx) == [words[idx..hi]] + rest;
      assert Flatten([words[idx..hi]] + rest) == words[idx..hi] + Flatten(rest) by {
        assert ([words[idx..hi]] + rest)[1..] == rest;
      }
      SliceGlue(words, idx, hi);
    } else {
      assert words[|words|..] == [];
    }
  }

  /** A run of consecutive words survives joining and splitting again. */
  lemma ChunkRoundTrip(words: seq<string>, lo: nat, hi: nat)
    requires lo <= hi <= |words| && AllWords(words)
    ensures AllWords(words[lo..hi]) && Split(Join(words[lo..hi])) == words[lo..hi]
  {
    var chunk := words[lo..hi];
    forall j | 0 <= j < |chunk| ensures IsWord(chunk[j]) { assert chunk[j] == words[lo + j]; }
    SplitJoin(chunk);
  }

  /** Every run is a slice of the words. */
  lemma {:induction false} ChunksAreSlices(words: seq<string>, quotas: seq<nat>, i: nat, idx: nat)
    requires i <= |quotas|
    ensures forall c :: c in Chunks(words, quotas, i, idx) ==> exists lo, hi :: 0 <= lo <= hi <= |words| && c == words[lo..hi]
    decreases |quotas| - i
  {
    if i < |quotas| && idx < |words| {
      ChunksAreSlices(words, quotas, i + 1, idx + Share(quotas, |words|, i, idx));
    }
  }

  /** Splitting the replacement texts again gives back the runs, in order. */
  lemma {:induction false} WordsOfDealt(spans: seq<Span>, chunks: seq<seq<string>>)
    requires |chunks| <= |spans| && forall c :: c in chunks ==> Split(Join(c)) == c
    ensures WordsOf(Dealt(spans, chunks)) == Flatten(chunks)
    decreases |chunks|
  {
    if chunks != [] {
      var reps := Dealt(spans, chunks);
      var tail := Dealt(spans[1..], chunks[1..]);
      assert reps[1..] == tail by {
        forall j | 0 <= j < |tail| ensures reps[1..][j] == tail[j] {
          assert chunks[1..][j] == chunks[j + 1];
          DealtIndex(spans, chunks, j + 1);
          DealtIndex(spans[1..], chunks[1..], j);
        }
      }
      DealtIndex(spans, chunks, 0);
      assert chunks[0] in chunks;
      WordsOfDealt(spans[1..], chunks[1..]);
    }
  }

  /** Splitting the replacement texts again and concatenating them gives back every word. */
  lemma DealCoversWords(spans: seq<Span>, words: seq<string>, total: nat)
    requires total > 0 && |spans| > 0 && AllWords(words)
    ensures WordsOf(Deal(spans, words, total)) == words
  {
    var quotas := Quotas(spans, |words|, total);
    var chunks := Chunks(words, quotas, 0, 0);
    ChunksBound(words, quotas, 0, 0);
    ChunksCoverWords(words, quotas, 0, 0);
    ChunksAreSlices(words, quotas, 0, 0);
    forall c | c in chunks ensures Split(Join(c)) == c {
      var lo, hi :| 0 <= lo <= hi <= |words| && c == words[lo..hi];
      ChunkRoundTrip(words, lo, hi);
    }
    WordsOfDealt(spans, chunks);
  }

  /**
   * The j-th replacement belongs to span j: at most one per span, in span order, each with its
   * span's box, font, size and colour and with at least one word of text.
   */
  lemma DealFollowsSpans(spans: seq<Span>, words: seq<string>, total: nat)
    requires total > 0 && AllWords(words)
    ensures var reps := Deal(spans, words, total);
            && |reps| <= |spans|
            && forall j :: 0 <= j < |reps| ==> Keeps(reps[j], spans[j]) && Split(reps[j].newText) != []
  {
    var quotas := Quotas(spans, |words|, total);
    var chunks := Chunks(words, quotas, 0, 0);
    var reps := Deal(spans, words, total);
    ChunksBound(words, quotas, 0, 0);
    ChunksAreSlices(words, quotas, 0, 0);
    if |spans| > 0 {
      ChunksCoverWords(words, quotas, 0, 0);
    }
    forall j | 0 <= j < |reps| ensures Keeps(reps[j], spans[j]) && Split(reps[j].newText) != [] {
      var c := chunks[j];
      assert c in chunks;
      DealtIndex(spans, chunks, j);
      var lo, hi :| 0 <= lo <= hi <= |words| && c == words[lo..hi];
      ChunkRoundTrip(words, lo, hi);
    }
  }

  /** When there is at least one word, the first span always receives some. */
  lemma FirstSpanServed(spans: seq<Span>, words: seq<string>, total: nat)
    requires total > 0 && |spans| > 0 && |words| > 0
    ensures Deal(spans, words, total) != []
  {
    assert Chunks(words, Quotas(spans, |words|, total), 0, 0) != [];
  }
}
