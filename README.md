# traductor_pdf in Dafny

This project models the layout-preserving PDF translator of `traductor_pdf`. The translator
reads each page's text as blocks, lines and spans. It translates a page line by line through a
bounded cache. When a line has several spans, it spreads the translated words back over them in
proportion to their lengths. It then redacts every original span box and redraws each
replacement with `insert_textbox`. The drawing maps the source font to a base-14 font, shrinks
the size to the box width and retries at decaying sizes before a forced last call. The model
also covers:

- the small helpers of the command-line front end: listing the installed English-to-X
  translation options, picking one by code, and drawing the progress bar;
- the page analysis and page comparison of the layout checker;
- the upload form's PDF validation.

Modules, in dependency order:

| module | file | models |
|---|---|---|
| `Wrappers` | Wrappers.dfy | `Option` and `Result` |
| `Text` | Text.dfy | the Python string operations used: `lower`, `strip`, `split`, `" ".join`, `in`, `endswith` |
| `PageModel` | PageModel.dfy | the `get_text("dict")` tree (blocks, lines, spans), replacements, and the log of calls made on a page |
| `FontMapping` | FontMapping.dfy | `_map_font_name` |
| `TranslationCache` | TranslationCache.dfy | `_translate_with_cache` as a `Cache` object over a map with a 10000-entry limit |
| `WordDistribution` | WordDistribution.dfy | the proportional word split of a multi-span line |
| `LinePlanning` | LinePlanning.dfy | the collecting phase of `replace_text_in_page` |
| `FitPolicy` | FitPolicy.dfy | `_fit_font_size_for_width`, `min_allowed`, the font candidates and the retry schedule |
| `PageRewrite` | PageRewrite.dfy | the redaction and drawing phases, and `translate_pdf_document` as a `Document` class |
| `TraducirPdf` | TraducirPdf.dfy | `get_translation_options`, `select_translation_option`, `print_progress` |
| `PageAnalysis` | PageAnalysis.dfy | `analyze_page` |
| `PageComparison` | PageComparison.dfy | `compare_pages` |
| `UploadForm` | UploadForm.dfy | `PDFUploadForm.clean_pdf_file` |

The outside world is passed in as functions:

- the translator is `string -> Option<string>`, where `None` means the call raised;
- the cancel callback is `nat -> bool`, indexed by the number of polls made so far;
- PyMuPDF's text measurement is `(text, font, size) -> Option<real>`, where `None` means it raised;
- `insert_textbox` is `(box, text, size, font) -> Option<real>`, giving the leftover or `None` when it raised.

Every call made on a target page is recorded in that page's log: a redaction per box, one
`apply_redactions`, and each `insert_textbox` call. The imperative parts are modelled as
methods and loops: the cache, the line loop, the per-font and per-size retry loops, the
redaction and drawing loops, the page loop, the option loop, and the loops of `analyze_page`
and `compare_pages`. Each of them is proved equal to a functional definition. The properties
are proved as lemmas about those definitions.

A few facts about the code that the model keeps as they are:

- Each extractor line is translated as one unit (translator/pdf_layout.py:94-110).
- The cache key is the stripped line text, and every successful translation is stored while the
  table is below its limit, an empty one included (translator/pdf_layout.py:18-26).
- A span's word quota truncates with `int(...)` (translator/pdf_layout.py:147).
- The forced last call uses `helv` at `min_allowed` in the span's own colour
  (translator/pdf_layout.py:254-265).

## Model

| member | source | states |
|---|---|---|
| FontMapping.MapFontName | translator/pdf_layout.py:46-68 | The result is one of the six base fonts, and `helv` for an empty name. It is a Courier font exactly when the normalised name mentions courier, mono or console. It is a bold variant exactly when the name mentions bold. It is an italic variant exactly when the name mentions italic and is not monospace. |
| FontMapping.MapDependsOnNormalForm | translator/pdf_layout.py:52 | Two names with the same normal form (lower-cased, without `-`, ` ` and `_`) map to the same font. |
| FontMapping.CaseInsensitive | translator/pdf_layout.py:52 | Names that differ only in letter case map to the same font. |
| FontMapping.SeparatorInsensitive | translator/pdf_layout.py:52 | Inserting a hyphen, space or underscore anywhere in a name does not change its font. |
| FontMapping.MonospaceTakesPrecedence | translator/pdf_layout.py:55-58 | A monospace name maps to `cour-b` exactly when it mentions bold, and to `cour` otherwise, even when it mentions italic. |
| TranslationCache.Lookup | translator/pdf_layout.py:13-28 | A cached text returns its cached translation and leaves the table unchanged. On a miss a failed translation returns the text itself and leaves the table unchanged. On a miss a successful translation returns the translator's result. |
| TranslationCache.LookupKeepsEntries | translator/pdf_layout.py:18-25 | A lookup never changes or drops an existing entry. It adds at most the looked-up key. It never takes a table within the 10000-entry limit past it. |
| TranslationCache.RepeatedLookupIsStable | translator/pdf_layout.py:18-25 | After a successful translation is stored below the limit, looking the same text up again returns the same result without changing the table, whatever the translator would now answer. |
| TranslationCache.FullTableDoesNotGrow | translator/pdf_layout.py:24 | A table holding 10000 entries or more is never extended. |
| TranslationCache.Cache.constructor | translator/pdf_layout.py:6 | The cache starts empty, with no translator calls made. |
| TranslationCache.Cache.Translate | translator/pdf_layout.py:13-28 | The result and the new table are those of `Lookup` on the old table. The translator is called exactly when the text was not cached. The table stays within the limit. |
| WordDistribution.DistributeWords | translator/pdf_layout.py:132-167 | The span loop of a multi-span line yields exactly the proportional deal `Deal`: each span's quota is `max(1, int(words * len / total))`, the last span takes the rest, and the loop stops when the words run out. |
| WordDistribution.ChunksCoverWords | translator/pdf_layout.py:141-167 | Concatenated, the word chunks handed out from a position are exactly the remaining words, and no chunk is empty. |
| WordDistribution.DealCoversWords | translator/pdf_layout.py:138-167 | Re-splitting the new texts of a multi-span line gives back exactly the translated words, in order: no word is dropped, duplicated or moved. |
| WordDistribution.DealFollowsSpans | translator/pdf_layout.py:141-165 | There are at most as many replacements as spans. Replacement `j` keeps span `j`'s box, old text, font, size and colour, and its new text holds at least one word. |
| WordDistribution.FirstSpanServed | translator/pdf_layout.py:141-154 | When there is at least one word, the first span gets a replacement. |
| LinePlanning.ProcessLine | translator/pdf_layout.py:99-167 | Processing one line changes the cache and returns replacements exactly as `PlanLine` does, and the cache stays valid. |
| LinePlanning.CollectLines | translator/pdf_layout.py:94-167 | The line loop, with its cancel poll before each line, returns the replacements, final cache table, poll count and cancel outcome of `CollectFrom`. |
| LinePlanning.CollectReplacements | translator/pdf_layout.py:89-167 | The block loop skips non-text blocks and yields the collection `CollectPage` defines for the page. |
| LinePlanning.CollectConcat | translator/pdf_layout.py:94-167 | Collecting over two runs of lines is collecting over the first run and, unless it canceled, continuing over the second from where it stopped. |
| LinePlanning.BlocksAreTheirTextLines | translator/pdf_layout.py:89-94 | Walking the blocks collects the same as walking the lines of the text blocks only. |
| LinePlanning.CanceledIffSomePoll | translator/pdf_layout.py:96-97 | The line loop is canceled exactly when one of its per-line polls answers true. |
| LinePlanning.PollsInOrder | translator/pdf_layout.py:94-97 | There is one poll per line until a cancel. Without a cancel every line is polled. With a cancel the last poll made is the one that answered true. Every earlier poll answered false. |
| LinePlanning.UncanceledRunIsFullRun | translator/pdf_layout.py:96-97 | When no poll answers true, the run equals a run with no cancel callback. |
| LinePlanning.BlocksPollsInOrder | translator/pdf_layout.py:89-97 | The same poll discipline holds over a page's blocks. |
| LinePlanning.CollectKeepsCache | translator/pdf_layout.py:13-28 | Across a page, the cache keeps every existing entry and stays within its limit. |
| LinePlanning.LineTextLength | translator/pdf_layout.py:100-103 | The line text is as long as the spans' texts together. |
| LinePlanning.BlankLineYieldsNothing | translator/pdf_layout.py:105-107 | A line whose text is blank gives no replacement and does not touch the cache. |
| LinePlanning.NonBlankLineHasText | translator/pdf_layout.py:115-116 | A non-blank line has spans of positive total length, so the two guards after it never fire. |
| LinePlanning.SingleSpanLine | translator/pdf_layout.py:119-129 | A one-span line gives exactly one replacement. It keeps the span's box, text, font, size and colour, and its new text is the cached translation of the stripped line. |
| LinePlanning.MultiSpanLine | translator/pdf_layout.py:130-167 | For a multi-span line, re-splitting the new texts gives exactly the words of the translation. There are at most as many replacements as spans. Each replacement keeps its span's attributes and holds at least one word. |
| LinePlanning.LineReplacementsFromSpans | translator/pdf_layout.py:119-165 | Every replacement of a line keeps the attributes of one of the line's spans. |
| LinePlanning.ReplacementsComeFromSpans | translator/pdf_layout.py:94-167 | Every replacement collected over lines comes from a span of one of those lines. |
| LinePlanning.PageReplacementsFromTextBlocks | translator/pdf_layout.py:89-167 | Every replacement collected on a page comes from a span of a line of a text block. |
| PageModel.ReplacementFor | translator/pdf_layout.py:122-129 | A replacement built from a span keeps the span's box, old text, font, size and colour, and carries the given new text. |
| PageModel.TextLinesComeFromTextBlocks | translator/pdf_layout.py:89-94 | Every line the text-line walk yields belongs to a text block. |
| FitPolicy.EstimatedWidth | translator/pdf_layout.py:74-82 | The width is positive. It is the measured width when measuring succeeds with a positive result. Otherwise it is at least 0.5 per character, with at least one character. |
| FitPolicy.FitFontSize | translator/pdf_layout.py:70-87 | The size is the start size `max(1, size)` when the text fits the width. Otherwise it is strictly below the start size and at least 60% of it. |
| FitPolicy.FitScalesToWidth | translator/pdf_layout.py:83-87 | When the text is too wide and the scale factor is not clamped, the fitted size times the estimated width is exactly the start size times `width - 0.5`. |
| FitPolicy.FitClampsAtFloor | translator/pdf_layout.py:83-87 | When the text is too wide and `(width - 0.5) / w` is below 0.6, the clamp applies and the fitted size is exactly 60% of the start size. |
| FitPolicy.MinAllowed | translator/pdf_layout.py:214 | The floor is at least 5, at least half the original size and at least 0.9 times the fitted size, and it equals one of the three. |
| FitPolicy.FontCandidates | translator/pdf_layout.py:216-221 | One or two distinct fonts. The mapped font comes first and `helv` last, and nothing else is included. |
| FitPolicy.TryFontShape | translator/pdf_layout.py:224-249 | For one font: at most six calls, the first at the starting size, all in that font, and every retry at least `min_allowed`. The font succeeded exactly when its last call fitted. Every earlier call did not fit. |
| FitPolicy.RetrySizes | translator/pdf_layout.py:214-249 | Because the floor is at least 0.9 times the fitted size, every retry is at exactly `min_allowed`. When the floor is below the fitted size a font gets only one call. |
| FitPolicy.TryFontsBounds | translator/pdf_layout.py:223-252 | Over the candidates: at most six calls per font, each in a candidate font and at the fitted size or at least `min_allowed`. |
| FitPolicy.TryFontsOutcome | translator/pdf_layout.py:223-252 | Over the candidates: insertion succeeded exactly when the last call fitted, and every earlier call did not fit. |
| PageRewrite.ColorOf | translator/pdf_layout.py:186-194 | A packed integer colour gives three channels in [0, 1]. A colour that is already a triple is passed through. |
| PageRewrite.ChannelsAreBytes | translator/pdf_layout.py:189-191 | Each decoded channel is a byte. Recombined they give the low 24 bits of the packed colour. |
| PageRewrite.ChannelsRoundTrip | translator/pdf_layout.py:189-191 | Packing three bytes and decoding them gives the three bytes back. |
| PageRewrite.Document.constructor | translator/pdf_layout.py:284-285 | The new document holds a copy of every source page, with no calls made yet. |
| PageRewrite.Document.AddRedactAnnot | translator/pdf_layout.py:173 | Appends one redaction of the box to page `k` and changes nothing else. |
| PageRewrite.Document.ApplyRedactions | translator/pdf_layout.py:179 | Appends one `apply_redactions` to page `k` and changes nothing else. |
| PageRewrite.Document.InsertTextbox | translator/pdf_layout.py:229-236 | Appends the call to page `k` and returns the oracle's outcome. |
| PageRewrite.Document.NewPage | translator/pdf_layout.py:304 | Appends one empty page of the given size. |
| PageRewrite.Document.TryFontLoop | translator/pdf_layout.py:224-249 | The size loop for one font makes exactly the calls of the one-font schedule `TryFont` and reports its success. |
| PageRewrite.Document.TryFontsLoop | translator/pdf_layout.py:223-252 | The font loop makes exactly the calls of the schedule `TryFonts` over the candidates and reports its success. |
| PageRewrite.Document.SizeReplacement | translator/pdf_layout.py:186-221 | Computes the colour, mapped font, fitted size, floor and candidates that `SizingOf` defines. |
| PageRewrite.Document.DrawSized | translator/pdf_layout.py:223-267 | Makes the retry calls and, only when none fitted, one forced call at `min_allowed` in `helv`. |
| PageRewrite.Document.DrawReplacement | translator/pdf_layout.py:182-267 | Drawing one replacement appends exactly `DrawOps`: nothing for a blank new text, otherwise the sized calls. |
| PageRewrite.Document.RedactAll | translator/pdf_layout.py:170-176 | Appends one redaction per replacement box, in order. |
| PageRewrite.Document.DrawAll | translator/pdf_layout.py:182-267 | Appends the drawing calls of every replacement, in order. |
| PageRewrite.Document.ApplyReplacements | translator/pdf_layout.py:169-267 | Appends the redactions, one `apply_redactions`, then the drawing calls. |
| PageRewrite.Document.RewritePage | translator/pdf_layout.py:31-267 | Collects first. On a cancel the page gets no call. Otherwise it gets `PageOps` of the collected replacements. The cache ends as the collection leaves it. |
| PageRewrite.TranslateDocument | translator/pdf_layout.py:270-306 | The page loop follows `RewriteFrom`: it polls before each page, reports progress `(i + 1, total)` once per finished page, returns the page count and the final cache, and adds one blank 595 by 842 page to an empty source. |
| PageRewrite.DrawOpsShape | translator/pdf_layout.py:182-267 | A blank new text gives no call. Otherwise there are 1 to 13 `insert_textbox` calls, all on the replacement's box with its text and colour. The first is at the fitted size in the first candidate font. Each is in a candidate font or `helv`, at the fitted size or at least `min_allowed`. The last either fitted or is the forced call at `min_allowed` in `helv`. |
| PageRewrite.SizedOpsShape | translator/pdf_layout.py:223-267 | The same shape for any sizing with one or two candidate fonts. |
| PageRewrite.PageOpsOrder | translator/pdf_layout.py:169-267 | On a rewritten page, the first calls are one redaction per replacement box in order. Then comes a single `apply_redactions`. Every call after it is an `insert_textbox`, so no redaction can erase drawn text. |
| PageRewrite.PageOpsShape | translator/pdf_layout.py:169-182 | The same layout for any drawing step that only inserts. |
| PageRewrite.DrawsAreInserts | translator/pdf_layout.py:182-267 | Drawing never redacts: every call the insertion loop makes is an `insert_textbox`. |
| PageRewrite.RewriteKeepsPages | translator/pdf_layout.py:284-297 | The finished pages are copies of the first source pages, in order, with calls added. Without a cancel every page is finished. |
| PageRewrite.CancelIsLastPoll | translator/pdf_layout.py:288-290 | The run is canceled exactly when a poll answered true, and then that was the last poll made. Every earlier poll, per page and per line, answered false. |
| PageRewrite.NeverCanceled | translator/pdf_layout.py:287-300 | A callback that never answers true lets every page through uncanceled. |
| TraducirPdf.FindLanguage | traducir_pdf.py:33 | Finds the first installed language with the code, and `None` exactly when there is none. |
| TraducirPdf.GetTranslationOptions | traducir_pdf.py:28-56 | Without English installed there are no options. Otherwise the loop yields `OptionsFrom` over the packages. |
| TraducirPdf.OptionsAvoidSeen | traducir_pdf.py:44-49 | No option repeats a code already seen. |
| TraducirPdf.OptionsSound | traducir_pdf.py:40-54 | Every option's code comes from an English-source package. Its language is the first installed language with that code. |
| TraducirPdf.OptionsDistinct | traducir_pdf.py:44-49 | No two options share a code. |
| TraducirPdf.OptionsComplete | traducir_pdf.py:40-54 | Every English-source package whose target is installed is represented by an option. |
| TraducirPdf.OptionsInPackageOrder | traducir_pdf.py:40-54 | Options follow package order: an earlier option's code comes from a package before any package giving a later option's code. |
| TraducirPdf.SelectTranslationOption | traducir_pdf.py:72-79 | Returns the first option whose code equals the target code ignoring case, and `None` exactly when no option matches. |
| TraducirPdf.SafeCounts | traducir_pdf.py:85-86 | The safe total is at least 1 and equals the total when that is positive. The safe current is clamped to `[0, safe total]` and equals `current` when that is already in range. |
| TraducirPdf.Filled | traducir_pdf.py:87-88 | The filled length never exceeds the bar length. |
| TraducirPdf.ProgressBar | traducir_pdf.py:89 | The bar has the requested length, `#` on the first `Filled` cells and `-` on the rest. |
| TraducirPdf.FilledMonotone | traducir_pdf.py:85-88 | More progress never gives a shorter bar. |
| TraducirPdf.BarEnds | traducir_pdf.py:85-88 | The bar is full when `current` has reached a total and is at least 1. It is empty when `current <= 0`. |
| PageAnalysis.AnalyzePage | compare_pdfs.py:26-94 | The statistics the page loops compute are `Stats` of the page. |
| PageAnalysis.CountBlocks | compare_pdfs.py:33-46 | The counting loop computes the fold `FoldBlocks`. |
| PageAnalysis.CountLines | compare_pdfs.py:37-46 | The counting loop over a block's lines computes the fold `FoldLines`. |
| PageAnalysis.CountSpans | compare_pdfs.py:39-46 | The counting loop over a line's spans computes the fold `FoldSpans`. |
| PageAnalysis.GatherBoxes | compare_pdfs.py:57-69 | The coordinate loop computes `BoxBlocks`. |
| PageAnalysis.GatherLineBoxes | compare_pdfs.py:60-69 | The coordinate loop over a block's lines computes `BoxLines`. |
| PageAnalysis.GatherSpanBoxes | compare_pdfs.py:61-69 | The coordinate loop over a line's spans computes `BoxSpans`. |
| PageAnalysis.MarginsFrom | compare_pdfs.py:71-75 | The margins are those `MarginsOf` defines: outermost span edges minus page edges, and 0 without spans. |
| PageAnalysis.WalkCountsTextSpans | compare_pdfs.py:33-46 | The count walk adds the number of text blocks, their lines and their spans. It adds the positive sizes of those spans in order and the set of their stripped non-empty fonts. |
| PageAnalysis.WalkGathersTextBoxes | compare_pdfs.py:57-69 | The coordinate walk gathers exactly the boxes of the text spans, in order. |
| PageAnalysis.BoxesOfIndex | compare_pdfs.py:62-69 | The `i`-th gathered box is the `i`-th span's box. |
| PageAnalysis.FontSetMembers | compare_pdfs.py:44-46 | A font is in the set exactly when it is non-empty and is the stripped font of some span. |
| PageAnalysis.PositiveSizesMembers | compare_pdfs.py:41-43 | A size is recorded exactly when it is positive and is some span's size. |
| PageAnalysis.SeqMin | compare_pdfs.py:49 | The minimum is an element and no element is smaller. |
| PageAnalysis.SeqMax | compare_pdfs.py:50 | The maximum is an element and no element is larger. |
| PageAnalysis.SumBounds | compare_pdfs.py:48 | A sum of `n` terms in `[lo, hi]` lies in `[n * lo, n * hi]`. |
| PageAnalysis.SummaryOrdered | compare_pdfs.py:48-50 | For positive sizes, `0 < min <= avg <= max`, and all three are 0 when there are no sizes. |
| PageAnalysis.SizesOrdered | compare_pdfs.py:41-50 | The same holds for the statistics of any page. |
| PageAnalysis.NoSpansNoMargins | compare_pdfs.py:72-75 | A page without text spans reports zero margins. |
| PageAnalysis.MarginsNonNegative | compare_pdfs.py:71-75 | When all spans lie inside the page rectangle, no margin is negative. |
| PageAnalysis.ImageBlocksIgnored | compare_pdfs.py:33-59 | Adding a non-text block changes no statistic. |
| PageComparison.ComparePages | compare_pdfs.py:97-124 | `ok` holds exactly when counts are equal and sizes and margins are within tolerance. The fonts are not part of it. The reasons are `Reasons`: counts, then sizes, then margins, then fonts. |
| PageComparison.CheckSizes | compare_pdfs.py:106-109 | The size loop adds one reason per size outside 0.6, in order, and clears `ok` exactly when one is. |
| PageComparison.CheckMargins | compare_pdfs.py:112-118 | The margin loop adds one reason per side outside 2.0, in order, and clears `ok` exactly when one is. |
| PageComparison.CountReasonsMembers | compare_pdfs.py:100-103 | A count reason is present exactly for a checked key whose values differ, and it records both values. |
| PageComparison.SizeReasonsMembers | compare_pdfs.py:106-109 | A size reason is present exactly for a checked size outside its tolerance, and it records both values. |
| PageComparison.MarginReasonsMembers | compare_pdfs.py:112-118 | A margin reason is present exactly for a checked side outside 2.0, and it records both values. |
| PageComparison.ReasonPerFailingCheck | compare_pdfs.py:100-122 | Each count, size and margin has a reason exactly when its check fails. `fonts changed` is present exactly when the font sets differ. |
| PageComparison.VerdictFollowsReasons | compare_pdfs.py:97-124 | The pages match exactly when every reason is `fonts changed`. |
| PageComparison.SelfComparison | compare_pdfs.py:97-124 | A page compared with itself matches, with no reason. |
| PageComparison.FontsOnlyChange | compare_pdfs.py:120-122 | Changing only the fonts keeps `ok` and gives the single reason `fonts changed`. |
| PageComparison.NoReasonsWhenMatching | compare_pdfs.py:100-118 | Matching pages get no count, size or margin reason. |
| UploadForm.CleanPdfFile | translator/forms.py:22-35 | Accepts, returning the file unchanged, exactly when there is no file, or its name ends in `.pdf` ignoring case and its size is at most 50 MiB. It fails with the extension error exactly when a present file has another name. It fails with the size error exactly when a present PDF is larger. |
| UploadForm.SizeLimitInclusive | translator/forms.py:32-33 | Exactly 50 MiB is accepted and one byte more is refused. |
| UploadForm.ExtensionCheckedFirst | translator/forms.py:28-29 | A present non-PDF name fails on the extension whatever its size. |
| UploadForm.CaseDoesNotMatter | translator/forms.py:28 | Names equal up to case get the same verdict. |
| UploadForm.UpperCaseExtensionAccepted | translator/forms.py:28 | A name ending in `.PDF` passes the extension check. |
| Text.SplitJoin | translator/pdf_layout.py:138-155 | Joining words with single spaces and splitting again gives the words back. |

## Left out

- PyMuPDF itself is left out: text extraction, measuring, redaction and drawing. Extraction is
  the input tree. Measuring and `insert_textbox` are oracle functions. Redaction and drawing are
  recorded as calls, not rendered.
- The `TypeError` fallback of `add_redact_annot` (translator/pdf_layout.py:174-176) is left out.
  Both branches make one redaction of the same box, and the model records one redaction per box.
- Floating point is modelled as exact reals. The `round(..., 2)` of `analyze_page` is not
  modelled, so statistics are kept unrounded.
- WordDistribution.DistributeWords: the quota `int(len(words) * (len / total))` is computed with
  exact integer floor division. Float rounding in the source can give one word less in rare
  cases.
- Text.Lower: only ASCII letters are lower-cased. Python's full Unicode case mapping is not
  modelled.
- Terminal output is not modelled: the `print` in `print_progress`, its percentage text, and
  `print_available_targets`. TraducirPdf.ProgressBar models only the bar string.
- TraducirPdf.BarEnds: with `total <= 0` and `current = 0` the bar is empty, so "full once
  current reaches total" is stated only for `current >= 1`.
- PageAnalysis.AnalyzePage: the font list is kept as a set, since `sorted(fonts)` is only its
  ordered display. The image count is a field of the page, because `get_images` is PyMuPDF's.
- PageAnalysis.AnalyzePage: every span has a box, so the `if not bb` skip (compare_pdfs.py:63-64)
  is not modelled. The four coordinate lists are kept as one list of boxes.
- PageComparison.ComparePages: reasons are structured values, not formatted strings.
- PageRewrite.TranslateDocument: a cancel raises `TranslationCanceled` in the source and closes
  the document. Here it returns `canceled` and the document is not used. `with` and closing the
  source file are not modelled.
- TranslationCache: the module-level dictionary is modelled as a `Cache` object passed to every
  call. Concurrent use from several threads is not modelled.
- PageRewrite: an `insert_textbox` call that raises is recorded as a call and ends that font's
  loop, as in the source. Whether a raising call left anything on the page is not modelled.
- The Django views, models, URLs and admin are left out, as are the command-line
  `main`/`traducir_pdf`, the signal handler, Argos model loading, the installer script, the
  comparison script's file handling and the test scripts. They are I/O around the core.
