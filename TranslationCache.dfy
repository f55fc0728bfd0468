/**
 * The translation cache of translator/pdf_layout.py: a process-wide table from source text to
 * translated text, filled on successful translations while it holds fewer than 10000 entries
 * and never evicted. The translator is an oracle: for a text it either gives a translation
 * (`Some`) or raises (`None`), in which case the text itself is handed back.
 */
module TranslationCache {
  import opened Wrappers

  /** The soft cap on the number of cached entries. */
  const MaxEntries: nat := 10000

  /** A translator as the cache sees it: `None` stands for an exception. */
  type Translator = string -> Option<string>

  /**
   * One call of the cached translation on table `entries`, when the translator would answer
   * `outcome` for `text`: the text handed back and the table afterwards.
   */
  function Lookup(entries: map<string, string>, text: string, outcome: Option<string>): (res: (string, map<string, string>))
    ensures text in entries ==> res == (entries[text], entries)
    ensures text !in entries && outcome.None? ==> res == (text, entries)
    ensures text !in entries && outcome.Some? ==> res.0 == outcome.value
  {
    if text in entries then (entries[text], entries)
    else match outcome
      case None => (text, entries)
      case Some(t) => (t, if |entries| < MaxEntries then entries[text := t] else entries)
  }

  /**
   * The table only grows, by `text` alone, never beyond the cap, and no existing entry is
   * ever overwritten.
   */
  lemma LookupKeepsEntries(entries: map<string, string>, text: string, outcome: Option<string>)
    ensures var e' := Lookup(entries, text, outcome).1;
            && (forall k :: k in entries ==> k in e' && e'[k] == entries[k])
            && e'.Keys <= entries.Keys + {text}
            && (|entries| <= MaxEntries ==> |e'| <= MaxEntries)
  {
    if text !in entries && outcome.Some? && |entries| < MaxEntries {
      assert entries[text := outcome.value].Keys == entries.Keys + {text};
    }
  }

  /**
   * Once a text has been translated successfully below the cap, asking again gives the same
   * answer from the table, whatever the translator would now say, and leaves the table as it is.
   */
  lemma RepeatedLookupIsStable(entries: map<string, string>, text: string, first: Option<string>, second: Option<string>)
    requires first.Some? && |entries| < MaxEntries
    ensures var (r1, e1) := Lookup(entries, text, first);
            Lookup(e1, text, second) == (r1, e1)
  {
  }

  /** At the cap the table no longer grows, and a text it lacks is translated afresh each time. */
  lemma FullTableDoesNotGrow(entries: map<string, string>, text: string, outcome: Option<string>)
    requires |entries| >= MaxEntries && text !in entries
    ensures Lookup(entries, text, outcome).1 == entries
  {
  }

  /** The cache object: the module-level dictionary, plus a ghost record of the translator's calls. */
  class Cache {
    var entries: map<string, string>
    ghost var calls: seq<string>

    ghost predicate Valid()
      reads this
    {
      |entries| <= MaxEntries
    }

    constructor ()
      ensures Valid() && entries == map[] && calls == []
    {
      entries := map[];
      calls := [];
    }

    /**
     * The cached translation of `text`: a hit returns the stored value without calling the
     * translator; otherwise the translator is called once, and a failure returns `text`.
     */
    method Translate(text: string, translator: Translator) returns (r: string)
      requires Valid()
      modifies this
      ensures Valid()
      ensures (r, entries) == Lookup(old(entries), text, translator(text))
      ensures calls == if text in old(entries) then old(calls) else old(calls) + [text]
    {
      LookupKeepsEntries(entries, text, translator(text));
      if text in entries {
        return entries[text];
      }
      calls := calls + [text];
      var outcome := translator(text);
      match outcome {
        case None =>
          r := text;
        case Some(translated) =>
          if |entries| < MaxEntries {
            entries := entries[text := translated];
          }
          r := translated;
      }
    }
  }
}
