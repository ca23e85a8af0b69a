# chandra_client core in Dafny

A Dafny model of the deterministic logic around the Chandra OCR model, with
proofs about it. The model covers:

- the repeat-token detector that flags degenerate model output;
- the per-item retry policy of `generate_vllm` and its batch map;
- layout parsing with bbox rescaling from the model's 1024 x 1024 grid;
- the output views: filtered HTML, image names, per-cell text, and the
  string steps of the Markdown conversion;
- the client glue of `ChandraOCRClient`: base-URL normalisation, the
  prompt-mode map, and page and cell assembly;
- page-range parsing and the page filter used when loading a PDF.

## Modules

| file | module | what it holds |
|---|---|---|
| wrappers.dfy | `Wrappers` | `Option` and `Result`. They stand in for Python's `None` and exceptions. |
| text.dfy | `Text` | The Python `str` operations the code uses: `strip`, `rstrip`, `find`, `split`, `join`, backslash escaping, `lower`. |
| decimal.dfy | `Decimal` | `str(n)` and `int(s)`. |
| repeat_detector.dfy | `RepeatDetector` | `detect_repeat_token`. |
| orchestrator.dfy | `Orchestrator` | `_generate`'s exception branch, `process_item`, the batch map and the pool size of `generate_vllm`. |
| layout.dfy | `Layout` | `parse_layout` in both variants, and `LayoutBlock`. |
| html_views.dfy | `HtmlViews` | `parse_html`, `get_image_name` and `extract_images`. |
| cell_text.dfy | `CellText` | `html_to_table_html`, `html_to_latex` and `extract_text_from_cell`. |
| markdown.dfy | `Markdown` | `escape_dollars`; the `escape`, `convert_math` and `convert_a` steps of `Markdownify`; `get_formatted_table_text`; the error path of `parse_markdown`. |
| page_range.dfy | `PageRange` | `parse_range_str`, the range guard of `load_file` and the page filter of `load_pdf_images`. |
| client.dfy | `Client` | `ChandraOCRClient`: `__init__`, `PROMPT_MODE_MAP`, `parse_images` and `parse_image`. |

What the model abstracts away:

- HTML parsing is not modelled.
  - A page is the sequence of its top-level `<div>`s (`Layout.Div`).
  - Each `<div>` carries its `data-label`, what `json.loads` and `int()` make of its `data-bbox`, and its inner markup.
  - A cell is what the parser finds in it (`CellText.Fragment`): its table serialisations, its math texts, and its plain text.
- The inference endpoint is an oracle, `client(item, callNumber, sampling)`.
- md5 and markdownify's own conversion and escape are uninterpreted function parameters.
- An exception is a `Failure`/`None` value, not a crash.

### Behaviour that may surprise

- **Rescaling is not exactly linear.** The code truncates after multiplying, so doubling the image width does not always double an x coordinate: `Scale(1, 512) == 0` but `Scale(1, 1024) == 1` (`Layout.DoublingNotExact`). Rescaling is monotone (`Layout.ScaleMonotone`).
- **Boxes are not ordered.** The code clamps only one side of each corner: `x0`/`y0` from below and `x1`/`y1` from above. A right-to-left box keeps `x0 > x1`, and an `x0` past the image stays past it (`Layout.CornersNotOrdered`).

### Other behaviour worth knowing

- **`detect_repeat_token` with a window of 1 always answers false.** `range(1, window_size // 2 + 1)` is empty then. `RepeatDetector.RunOfOneCharDegenerate` therefore requires a window of at least 2.
- **An image chunk is cropped unless its content starts with "img".** `extract_images` tests `content.find("img")`, which is -1, and so truthy, when "img" is absent.
- **A reversed range loads the whole document.**
  - `parse_range_str("5-3")` is `[]`.
  - `load_pdf_images` treats an empty list as "no selection".
  - `PageRange.ReversedRangeSelectsAll` proves this.
- **An empty range string selects every page.** It never reaches the parser, which would raise on it (`PageRange.EmptyRangeSelectsAll`).
- **Page numbers are 0-based page indices.**

## Model

| member | source | states |
|---|---|---|
| `Text.Strip` | chandra/output.py:283 | `str.strip()`: the result has no whitespace at either end, and it is the slice of the input left after removing leading and trailing whitespace. |
| `Text.StripTrimmed` | chandra/output.py:188 | Stripping a string without whitespace at either end returns it unchanged, so stripping is idempotent. |
| `Text.RStripChar` | chandra/parser.py:49 | `s.rstrip("/")` is a prefix of `s`. Only `/` characters were removed, and the result does not end in `/`. |
| `Text.Find` | chandra/output.py:29 | `str.find`: the result is -1 or an index where the substring occurs, and it occurs at no earlier index. |
| `Text.FindZeroIffStartsWith` | chandra/output.py:29-31 | `find` returns 0 exactly when the string starts with the substring. |
| `Text.Split` | chandra/input.py:26 | `str.split(c)` yields at least one piece. No piece contains `c`, and joining the pieces with `c` gives the input back. |
| `Text.SplitJoin` | chandra/input.py:26 | Splitting undoes joining when no part contains the separator. |
| `Text.SplitCount` | chandra/input.py:30 | A split yields one more piece than the string has separators. |
| `Text.JoinContents` | chandra/output.py:268 | Every part appears verbatim in a join, at its offset, followed by the separator unless it is the last part. |
| `Text.JoinLength` | chandra/output.py:268 | A join ends with its last part: its length is the last part's offset plus that part's length. |
| `Text.UnescapeEscape` | chandra/output.py:135 | Backslash-escaping a set of characters loses nothing: removing the backslashes gives the input back. |
| `Text.EscapeLength` | chandra/output.py:135 | Escaping inserts exactly one backslash per special character. |
| `Text.Lower` | chandra/model/util.py:50 | Lower-casing keeps the length and maps each character through the (ASCII) case map. |
| `Decimal.PyIntOfIntToString` | chandra/input.py:31-33 | `int(str(n)) == n` for every integer `n`. |
| `Decimal.PyIntBlank` | chandra/input.py:33 | `int()` of a blank string raises. |
| `Decimal.NatToString` | chandra/output.py:20 | `str(n)` of a natural number: at least one character, all decimal digits, `"0"` exactly for 0, and no leading zero otherwise. |
| `Decimal.NatToStringInjective` | chandra/output.py:20 | Distinct numbers have distinct decimal forms. |
| `RepeatDetector.CountCopies` | chandra/model/util.py:62-70 | The counting loop stops at the largest count such that the window ends with that many back-to-back copies of its trailing unit. So count * seq_len <= window, and one more copy is not there. |
| `RepeatDetector.NextCopy` | chandra/model/util.py:65-70 | One loop step: no further copy fits when fewer than `seq_len` characters precede the matched copies; otherwise a further copy is there iff the `seq_len` characters in front of them equal the unit. |
| `RepeatDetector.CountExceeds` | chandra/model/util.py:72-74 | `repeat_count > max_repeats` holds exactly when the window ends with `max_repeats + 1` copies of the unit. |
| `RepeatDetector.ScanLengths` | chandra/model/util.py:53-75 | The scan over unit lengths answers true iff some unit length tried qualifies: the length leaves room for `max_repeats + 1` copies, and the window ends with that many copies. |
| `RepeatDetector.DetectRepeatToken` | chandra/model/util.py:43-76 | The detector answers true iff the text is at least a window long and, for some unit length from 1 to half the window, the lower-cased window ends with more than `max_repeats` copies of its last unit. A text shorter than the window is never degenerate. |
| `RepeatDetector.SameWindowSameVerdict` | chandra/model/util.py:50 | Two texts with the same lower-cased last `window_size` characters get the same verdict. |
| `RepeatDetector.NoRoomNeverDegenerate` | chandra/model/util.py:55-56 | If `max_repeats + 1` copies cannot fit in the window, every unit length is skipped and the answer is false. |
| `RepeatDetector.RunOfOneCharDegenerate` | chandra/model/util.py:53-74 | A text ending in a window-long run of one character is degenerate when `max_repeats` is below the window size. |
| `RepeatDetector.DistinctWindowNotDegenerate` | chandra/model/util.py:65-70 | A window of pairwise distinct characters is never degenerate once two copies are needed. |
| `RepeatDetector.ExampleAlternatingDegenerate` | chandra/model/util.py:43-76 | `"abababababab"` with window 10 and at most 3 repeats is degenerate. |
| `RepeatDetector.ExampleShortSentence` | chandra/model/util.py:46-47 | `"the quick brown fox"` is not degenerate under the defaults. |
| `Orchestrator.ToResult` | chandra/model/vllm.py:76-92 | A raised client exception becomes an errored empty result with no tokens and is not propagated. A completion is copied with no error. |
| `Orchestrator.ProcessItem` | chandra/model/vllm.py:94-112 | The retry loop meets the retry policy `RetryOutcome`, which is stated without the loop. Between 1 and `1 + max_retries` calls are made. The result is the last call's. Every earlier call needed a retry, and the last one did not, unless the budget ran out. Call 0 uses `(temperature, top_p)` and every retry uses the retry sampling. |
| `Orchestrator.RetryOutcomeUnique` | chandra/model/vllm.py:94-112 | The retry policy determines the result and the number of calls. |
| `Orchestrator.AcceptedFirstAttempt` | chandra/model/vllm.py:95-105 | A first result that needs no retry is returned after exactly one call, whatever the budget. |
| `Orchestrator.AllRejectedUsesBudget` | chandra/model/vllm.py:98-112 | When every call asks for a retry, exactly `1 + max_retries` calls are made. The last, still rejected result is returned; degeneracy never raises. |
| `Orchestrator.NoRetriesOneCall` | chandra/model/vllm.py:96-98 | With `max_retries <= 0`, exactly one call is made, whatever it returns. |
| `Orchestrator.BudgetIrrelevantWhenAccepted` | chandra/model/vllm.py:95-98 | A first reply that needs no retry gives the same single-call result under any two budgets. |
| `Orchestrator.ProcessBatch` | chandra/model/vllm.py:114-115 | The batch map yields one result per item, in batch order. Result `i` is the retry outcome for item `i`. |
| `Orchestrator.NeedsRetryAsWritten` | chandra/model/vllm.py:98-105 | The retry test as written raises exactly when the output is not degenerate and is longer than 50 characters. |
| `Orchestrator.SuffixCheckRaises` | chandra/model/vllm.py:101-102 | A 51-character output with no repetition makes the as-written test raise `TypeError`. |
| `Orchestrator.NeedsRetry` | chandra/model/vllm.py:98-105 | The intended retry test: the output is degenerate, or it is longer than 50 characters and degenerate without its last 50, or the call failed. It agrees with the as-written test wherever that does not raise. |
| `Orchestrator.NeedsRetryRefinesAsWritten` | chandra/model/vllm.py:98-105 | Failed calls and degenerate outputs always ask for a retry. The as-written test, where it does not raise, gives the intended answer. |
| `Orchestrator.PoolSizeAsWritten` | chandra/model/vllm.py:47-48 | The default pool size `min(64, len(batch))` gives a usable pool exactly when the batch is not empty. |
| `Orchestrator.EmptyBatchRaisesAsWritten` | chandra/model/vllm.py:114 | `generate_vllm([])` without `max_workers` raises: the pool is asked for 0 workers. |
| `Orchestrator.PoolSize` | chandra/model/vllm.py:47-48 | The intended pool size. The default is between 1 and 64: the batch length or 64, never more than a non-empty batch. An explicit size works iff it is at least 1. It agrees with the as-written size wherever that works. |
| `Orchestrator.GenerateVllm` | chandra/model/vllm.py:23-117 | With the corrected retry test and pool size (see Findings): `generate_vllm` fails only when the pool size fails, which never happens with the default pool size. On success there is one result per item, in order, each the retry outcome of its item under the given budget (6 when none is given). |
| `Orchestrator.ProcessItemAsWritten` | chandra/model/vllm.py:94-112 | `process_item` as written, with a retry test that may raise. The test is evaluated only while retries remain. A call that returns was preceded only by calls that asked for a retry, and it ends the loop because it does not ask for one or the budget is spent. A raise carries the test's exception. |
| `Orchestrator.ProcessItemAsWrittenRaises` | chandra/model/vllm.py:98-105 | An item raises iff the retry test raises at some call that the loop reaches with budget left. |
| `Orchestrator.ProcessItemAsWrittenRefines` | chandra/model/vllm.py:94-112 | Where an item does not raise, it meets the retry policy of any test that agrees with the raising one wherever that one returns. |
| `Orchestrator.ProcessBatchAsWritten` | chandra/model/vllm.py:114-115 | The batch map as written raises iff some item raises. Otherwise it yields one result per item, in order, each that item's last result. |
| `Orchestrator.GenerateVllmAsWritten` | chandra/model/vllm.py:23-117 | `generate_vllm` as written returns iff the default pool size is usable and no item's retry test raises. It raises `ValueError` exactly when the pool size fails, and otherwise `TypeError`. |
| `Orchestrator.GenerateVllmAsWrittenRefines` | chandra/model/vllm.py:23-117 | Wherever the as-written `generate_vllm` returns, the corrected one accepts the pool size and returns the same results: each is the corrected retry outcome of its item. |
| `Orchestrator.PlainPageRaisesAsWritten` | chandra/model/vllm.py:98-115 | With the default budget, a one-page batch whose model answers with 51 distinct characters raises `TypeError` instead of returning that answer. |
| `Layout.TruncDiv` | chandra/output.py:215-218 | Division truncating toward zero, as `int()` of a quotient: bounded by the quotient from the side of zero. |
| `Layout.Normalize` | chandra/output.py:214-219 | A normalised box has four coordinates, `x0, y0 >= 0`, `x1 <= width` and `y1 <= height`. |
| `Layout.RawBbox` | chandra/output.py:206-212 | A box attribute yields numbers iff it is a list of at least four numbers, or it does not parse and the fallback applies. The fallback is `[0, 0, 1, 1]`. |
| `Layout.ParseDivs` | chandra/output.py:205-223 | The loop gives one block per `<div>`, in order, each parsed on its own. It raises iff some `<div>`'s box is unusable. |
| `Layout.ParseLayout` | chandra/output.py:198-223 | It succeeds iff no box is JSON that fails conversion or has fewer than four numbers. Then there is one block per `<div>`, in order. The label defaults to "block" and the content is the inner markup. Every box lies within the image on its clamped sides. |
| `Layout.ParseLayoutStrict` | chandra/layout.py:14-35 | It succeeds iff every box is a list of at least four numbers; there is no fallback. Then there is one block per `<div>`, in order, with the label defaulted, the content copied, and the box normalised from the attribute's numbers. |
| `Layout.BlockCoordinates` | chandra/output.py:214-219 | Each coordinate is its number rescaled with truncation toward zero, x by the width and y by the height, then clamped. An unparseable attribute counts as `[0, 0, 1, 1]`. |
| `Layout.StrictAgreesWithFallback` | chandra/layout.py:14-35 | Wherever the strict parser succeeds, the parser with the fallback returns the same blocks. |
| `Layout.TruncDivMonotone` | chandra/output.py:215-218 | Truncating division is monotone in the dividend. |
| `Layout.ScaleMonotone` | chandra/layout.py:27-30 | Rescaling is monotone in the coordinate. |
| `Layout.ScaleAtGridSize` | chandra/layout.py:18-19 | Rescaling to a side of 1024 pixels is the identity. |
| `Layout.DoublingNotExact` | chandra/output.py:202-217 | Doubling the width does not always double an x coordinate. |
| `Layout.CornersNotOrdered` | chandra/output.py:214-219 | The corners are not ordered: `x0 > x1` survives, and an `x0` past the image stays past it. |
| `HtmlViews.Kept` | chandra/output.py:51-54 | No more `<div>`s come out than go in. Each kept `<div>` is one of the input's and is not a dropped header or footer, and every `<div>` that is not dropped is kept. With headers and footers included everything is kept, unchanged. |
| `HtmlViews.KeptAppend` | chandra/output.py:49-54 | The filter works `<div>` by `<div>`: filtering a concatenation concatenates the filtered halves, so order and multiplicity are kept. |
| `HtmlViews.KeptSingle` | chandra/output.py:51-54 | A single `<div>` is kept iff it is not a dropped header or footer. |
| `HtmlViews.ParseHtmlAppend` | chandra/output.py:47-63 | The filtered view of a concatenation is the concatenation of the views. |
| `HtmlViews.ParseHtmlIsFilterThenRender` | chandra/output.py:47-63 | `parse_html` equals dropping headers and footers first, then rendering everything. Nothing else is removed. |
| `HtmlViews.SingleDivView` | chandra/output.py:49-62 | One `<div>` contributes: nothing if it is a dropped header or footer; exactly `[Image]` or `[Figure]` for an image block; its inner markup otherwise, including for every unlabelled `<div>`. |
| `HtmlViews.ImageNameInjective` | chandra/output.py:18-20 | Image names of one page never collide: distinct `div_idx` values give distinct names. |
| `HtmlViews.ExtractPrefixContents` | chandra/output.py:25-35 | After the first `n` chunks, the map holds exactly the selected chunks among them, each under its 1-based name with its box. |
| `HtmlViews.ExtractImages` | chandra/output.py:23-36 | Every selected image or figure chunk has an entry under the page digest and its 1-based position, holding its box. Every key is such an entry, and no unselected chunk has one. |
| `HtmlViews.SelectionByFind` | chandra/output.py:28-31 | An image or figure chunk is cropped iff its content does not start with "img". |
| `CellText.TableHtml` | chandra/output.py:259-268 | With no table the result is the plain text. Otherwise it begins with the first table and ends with the last, its length being the last table's offset plus that table's length. |
| `CellText.TableHtmlContents` | chandra/output.py:268 | Every table appears verbatim in the table view, in order, with a blank line between consecutive tables, and nothing after the last table. |
| `CellText.FormulaParts` | chandra/output.py:281-285 | The collected formulas are no more than the math tags, and each is non-empty with no surrounding whitespace. |
| `CellText.FormulaPartsSound` | chandra/output.py:282-285 | Each collected part is the stripped text of some math tag. |
| `CellText.FormulaPartsComplete` | chandra/output.py:282-285 | The stripped text of every non-blank math tag is collected. |
| `CellText.FormulaPartsAppend` | chandra/output.py:282-285 | The parts are collected tag by tag: the parts of a concatenation are the parts of each half, in order. |
| `CellText.FormulaPartsSingle` | chandra/output.py:283-285 | One math tag gives its stripped text, or nothing when that is empty. |
| `CellText.FormulaPartsContents` | chandra/output.py:281-285 | Each collected part is some tag's stripped text, and every non-blank tag's stripped text is collected. Nothing is collected exactly when every tag is blank. |
| `CellText.Latex` | chandra/output.py:271-286 | With no math tag the result is the plain text. With math tags it is empty exactly when every tag is blank; it does not fall back to plain text. Otherwise the result ends exactly at the end of the last formula. |
| `CellText.LatexTrimmed` | chandra/output.py:283-286 | Like the plain text, the LaTeX view has no surrounding whitespace. |
| `CellText.LatexLines` | chandra/output.py:286 | When no formula spans lines, splitting the LaTeX view at line breaks gives back exactly the collected formulas. |
| `CellText.LatexContents` | chandra/output.py:281-286 | Every stripped, non-blank formula appears verbatim in the LaTeX view, in document order, followed by a line break unless it is the last, after which nothing follows. This holds whether or not a formula spans several lines. |
| `CellText.CellText` | chandra/output.py:289-306 | "Table" routes to the table view; "Formula", "Equation" and "Math" to the LaTeX view; "Image", "Figure" and "Picture" to `""`; every other label to the plain text. |
| `CellText.OtherLabelsUsePlainTextOnly` | chandra/output.py:304-306 | For a label other than the table and formula labels, two cells with the same plain text get the same text. The default label "block" gives the plain text. |
| `CellText.FallbacksAgreeWithText` | chandra/output.py:266-279 | A table cell without tables, and a formula cell without math tags, read like a text cell. |
| `Markdown.EscapeDollars` | chandra/output.py:66-67 | Every `$` gets a backslash in front and nothing else changes. Removing those backslashes gives the input back, and the length grows by the number of `$`. |
| `Markdown.EscapeDollarsExample` | chandra/output.py:66-67 | `"$5.00"` becomes `"\$5.00"`. |
| `Markdown.EscapeText` | chandra/output.py:138-142 | With the dollar option off, `escape` is markdownify's escape. With it on, it is markdownify's escape with every `$` escaped, and undoing that gives markdownify's escape back. |
| `Markdown.LinkTextAsWritten` | chandra/output.py:132-136 | `convert_a` as written escapes the already-escaped child text again, then escapes brackets and parentheses. |
| `Markdown.LinkDollarEscapedTwice` | chandra/output.py:133 | For a link around the text "$", the text node yields `\$`, and `convert_a` as written turns it into `\\$`. |
| `Markdown.LinkText` | chandra/output.py:135 | The intended link text escapes each bracket and parenthesis once. Unescaping gives the child text back, and the length grows by the number of such characters. |
| `Markdown.LinkTextEscapedOnce` | chandra/output.py:135-153 | With the intended link conversion, undoing the bracket escape and then the dollar escape gives markdownify's escape of the text. A lone "$" becomes `\$`. |
| `Markdown.ConvertMathRecoverable` | chandra/output.py:110-127 | A block formula is the stripped text between the block delimiters on a line of its own; any other is between the inline delimiters padded with spaces. The length is exactly prefix, stripped formula, closing delimiter and one character, so nothing else is inserted. The formula can be read back, and re-converting it gives the same text. With the configured delimiters the output starts a new line iff `display` is "block". |
| `Markdown.TableItem` | chandra/output.py:72-86 | A blank text node contributes nothing. `<br>` contributes `<br>`. A math tag contributes its text between dollars. A text node contributes its stripped text and any other tag its serialisation, each passed through `escape_dollars`: every `$` has a backslash in front, and removing those gives the text back. |
| `Markdown.TableItemsAppend` | chandra/output.py:75-86 | The pieces are collected child by child: the pieces of a concatenation are the pieces of each half, in order. |
| `Markdown.TableItemsSingle` | chandra/output.py:75-86 | One child gives its piece, or nothing when it is blank text. |
| `Markdown.TableTextNoBreaks` | chandra/output.py:88-96 | Without `<br>` pieces, the cell text is the pieces joined with single spaces. |
| `Markdown.TableTextAtBreak` | chandra/output.py:88-96 | A `<br>` piece is copied with no space on either side: the text splits there into the texts of the two sides. |
| `Markdown.BlankTextIgnored` | chandra/output.py:76-79 | A whitespace-only text child changes nothing, so it never causes a doubled space. |
| `Markdown.ParseMarkdown` | chandra/output.py:166-188 | The result has no surrounding whitespace. A conversion that raises gives `""`. Otherwise the result is the converted Markdown without its leading and trailing whitespace, and everything outside the result is whitespace. |
| `Markdown.ParseMarkdownFiltersFirst` | chandra/output.py:169 | Headers and footers never reach the converter: the result equals converting the pre-filtered page. |
| `Markdown.ParseMarkdownKeepsTrimmed` | chandra/output.py:188 | Markdown without surrounding whitespace is returned unchanged. |
| `PageRange.Range` | chandra/input.py:31 | `list(range(a, b + 1))` holds `a, a+1, ..., b`, and nothing when `a > b`. |
| `PageRange.RangeMembers` | chandra/input.py:31 | A number is in the range iff it lies between the bounds inclusive. |
| `PageRange.SingleItem` | chandra/input.py:32-33 | An item without `-` stands for the one number `int()` reads from it, and raises iff `int()` does. |
| `PageRange.SingleNumberItem` | chandra/load.py:23-24 | The item `str(n)` stands for `n`. |
| `PageRange.RangeItem` | chandra/input.py:29-31 | The item `"a-b"` stands for exactly the pages `a..b` inclusive, and for none when `a > b`. |
| `PageRange.ManyDashesFail` | chandra/input.py:30 | An item with two or more `-` raises: it does not unpack into two bounds. |
| `PageRange.NegativeItemFails` | chandra/load.py:20-22 | `"-1"` raises: it reads as a range with an empty lower bound. |
| `PageRange.ParseItems` | chandra/input.py:27-33 | The item loop raises iff some item does. Otherwise its pages are exactly the union of the items' pages. |
| `PageRange.Insert` | chandra/input.py:34 | Inserting into a strictly increasing list keeps it strictly increasing and adds exactly the one value. |
| `PageRange.SortUnique` | chandra/input.py:34 | `sorted(list(set(xs)))` is strictly increasing and has exactly the members of `xs`. |
| `PageRange.StrictlyIncreasingUnique` | chandra/load.py:25 | A strictly increasing list is determined by its members. |
| `PageRange.ParseRangeStr` | chandra/input.py:25-35 | `parse_range_str` raises iff some comma-separated item does. Otherwise it returns a strictly increasing list of exactly the pages the items stand for. |
| `PageRange.ParseRangeStrIsSortedUnion` | chandra/load.py:16-26 | The result is the only ascending, duplicate-free list of those pages. |
| `PageRange.ReversedRangeIsEmpty` | chandra/input.py:31 | `"5-3"` parses to no page. |
| `PageRange.EmptyRangeStrFails` | chandra/input.py:26-33 | The empty string raises. |
| `PageRange.PageFilter` | chandra/input.py:12-13 | The PDF loader keeps, in ascending order and once each, exactly the page indices that are selected: all of them with no or an empty selection. |
| `PageRange.PageFilterAll` | chandra/load.py:11 | With no or an empty selection every page is kept, in document order. |
| `PageRange.LoadPageRange` | chandra/input.py:39-41 | A missing or empty range string is not parsed and selects everything. Any other range string raises iff it does not parse, and otherwise gives its parse. |
| `PageRange.LoadFilePages` | chandra/input.py:38-48 | The range string is parsed even for an image file. A PDF yields the filtered page indices, and any other file yields its one image. |
| `PageRange.EmptyRangeSelectsAll` | chandra/input.py:39-41 | The guard matters: `""` would raise, but as a configured range it loads every page. |
| `PageRange.ReversedRangeSelectsAll` | chandra/input.py:12-13 | Asking for `"5-3"` loads every page of the document. |
| `Client.AppendSuffix` | chandra/parser.py:50 | Appending "/v1" gives a URL that ends in "/v1" and has no trailing slash to strip. |
| `Client.NormalizeBaseUrl` | chandra/parser.py:48-50 | After normalisation the URL, trailing slashes aside, ends in "/v1". One that already did is kept verbatim, slashes included. Any other loses its trailing slashes and gains "/v1". |
| `Client.NormalizeBaseUrlIdempotent` | chandra/parser.py:49-50 | Normalising twice is normalising once. |
| `Client.NormalizeDefaultUrl` | chandra/parser.py:36-50 | The default `http://localhost:8000` becomes `http://localhost:8000/v1`. |
| `Client.NormalizeKeepsSlashAfterSuffix` | chandra/parser.py:49 | `http://h/v1/` is kept verbatim, trailing slash included. |
| `Client.NormalizeDropsTrailingSlashes` | chandra/parser.py:50 | `http://h//` loses its slashes and becomes `http://h/v1`. |
| `Client.PromptTypeValues` | chandra/parser.py:25-28 | "layout" maps to "ocr_layout" and "plain" to "ocr". Every other mode passes through, so mapping twice is mapping once. |
| `Client.BuildBatch` | chandra/parser.py:74-81 | One item per image, in order, each with the caller's prompt. The prompt type is absent iff the prompt is truthy, and otherwise it is the mapped mode. |
| `Client.AssemblePage` | chandra/parser.py:95-115 | A page is assembled iff its layout parses. It carries its index and the image size, one cell per top-level `<div>` in order, and the Markdown of the whole page. Each cell has its block's label as category, its block's box, and the label-routed text of its content. |
| `Client.CellsInsidePage` | chandra/parser.py:103-110 | Every cell's box lies within the page on its clamped sides. |
| `Client.Collect` | chandra/parser.py:94-118 | The page loop succeeds iff every page is assembled, and then holds page `i` at position `i`. |
| `Client.NewClient` | chandra/parser.py:34-62 | The stored base URL always ends in "/v1". It is the given one when that already did, and otherwise the given one with trailing slashes removed and "/v1" appended. The temperature, `top_p`, thread count, retry budget and header/footer flag are kept as given. |
| `Client.PageOfUnique` | chandra/parser.py:94-116 | An image and its position determine its page result. |
| `Client.PageOfFromOutcome` | chandra/parser.py:94-116 | Once the retry policy has settled on an output, the image has a page iff that output's page can be assembled. |
| `Client.HasPageIffAssembled` | chandra/parser.py:94-116 | In the page loop over the settled outputs, image `i` has a page iff page `i` is assembled. |
| `Client.EveryImageHasPage` | chandra/parser.py:94-118 | When the page loop succeeds, every image has a page. |
| `Client.PagesAreImagePages` | chandra/parser.py:94-116 | The pages the loop assembles are the images' pages, numbered by position and sized as the images. |
| `Client.ParseImages` | chandra/parser.py:66-118 | With the corrected retry test and pool size (see Findings). With fewer than one thread the pool raises. Otherwise it returns iff every image has a page, and it raises a layout error otherwise. On success there is one page per image, in order, numbered from 0. Each page carries its image's size and is the page assembled from the output the retry policy settles on for that image. |
| `Client.ParseImage` | chandra/parser.py:120-126 | With the corrected retry test and pool size (see Findings). `parse_image(img)` is page 0 of `parse_images([img])`. It returns iff there are threads and the image has a page at position 0. That page is numbered 0, has the image's size, and is assembled from the output the retry policy settles on. |

## Left out

- HTML parsing (BeautifulSoup): the `<div>` sequence, a cell's tables and math texts, and its `html_to_plain_text` result are inputs. `html_to_plain_text` itself (chandra/output.py:235-256) is not modelled, because it is built from parser calls and regular-expression whitespace rules.
- markdownify: the whole-document conversion, its base `escape`, its base `convert_a` link building and the tree-dependent parts of `process_text` (whitespace rules, the `li` rstrip) are uninterpreted. `convert_table` (chandra/output.py:129-130) is not modelled, because its result is fixed by the parser's serialisation.
- md5 (`_hash_html`) is an uninterpreted function. `image.crop` is represented by the box the crop is cut from. The crop's own errors are therefore dropped: a box with x0 > x1, which `Layout.CornersNotOrdered` shows can reach `extract_images`, is accepted here, where Pillow would raise `ValueError`.
- Layout.Scale: computed as exact integer arithmetic. It matches the source's floating-point `int(v * (dim / 1024))` only while `|v * dim| < 2^53`.
- Text.Lower: lower-cases ASCII letters only. Python's `str.lower()` covers all of Unicode, so the detector's verdict on non-ASCII text can differ.
- Decimal.PyInt: accepts ASCII digits only. Python's `int()` also reads other Unicode decimal digits.
- The OpenAI client, prompt construction (`PROMPT_MAPPING` and chandra/prompts.py are not part of this model), `scale_to_fit`, `image_to_base64` and the request itself. The endpoint is the `client` oracle. The `KeyError` raised in `_generate` for an unknown prompt type, outside its `try`, is therefore not modelled. Neither is a malformed completion: `choices[0].message.content` and `usage.completion_tokens` are read outside the `try` (chandra/model/vllm.py:88-92), so an empty `choices` list or a missing `usage` would raise out of `process_item` and the whole batch.
- `ThreadPoolExecutor` is a sequential map. Items share no state, so the order of completion cannot change a result.
- Sampling parameters are `real` values passed through unchanged.
- `print` calls (logging only).
- `model_name`, `max_output_tokens`, `api_key`, `image_dpi` and `min_image_dim` are passed to the endpoint or to loading and do not affect the modelled logic.
- A completion whose content is `None` is not modelled; model output is always a string.
- File I/O: `parse_file`, `filetype.guess` (the `isPdf` flag), PDF rendering with its floating-point DPI computation, and `Image.open`.
- `draw_layout` (drawing), and `parse_chunks`' `asdict` copy (chunks are the `LayoutBlock`s themselves).
- Orchestrator.GenerateVllm: uses the corrected retry test and pool size. As written, an item whose output is not degenerate and is longer than 50 characters raises `TypeError` while retries remain. That behaviour is `Orchestrator.GenerateVllmAsWritten`, which agrees with this member wherever it returns.
- Client.ParseImages: built on `Orchestrator.GenerateVllm`, so it inherits the corrected retry test. As written it also raises the `TypeError` above. Its client always passes `num_threads`, so the pool-size correction does not change it.
- Client.ParseImage: built on `Client.ParseImages`, with the same correction.
- Client.PageAt: when the two lists differ in length, the `zip` in `parse_images` truncates to the shorter, but the model fails outside the shorter list. `generate_vllm` returns one result per batch item, so the lengths are always equal.
- chandra_app.py, chandra/model.py, chandra/model/__init__.py, chandra/settings.py and chandra/image.py: UI, local-GPU inference, dispatch glue and configuration. Their defaults, such as 6 retries, appear as constants.

## Findings

| source | as written | input that shows it | evidently intended | confidence | as-written member | corrected member |
|---|---|---|---|---|---|---|
| chandra/model/vllm.py:101-102 | `detect_repeat_token(result.raw, cut_from_end=50)`, but the detector (chandra/model/util.py:43-45) has no `cut_from_end` parameter, so the call raises `TypeError` | with `max_retries >= 1`, a first output of 51 pairwise distinct characters: not degenerate, longer than 50, so the suffix check is reached and the exception escapes the batch (`Orchestrator.SuffixCheckRaises`, `Orchestrator.PlainPageRaisesAsWritten`) | run the detector on the output without its last 50 characters | high; not executed | `Orchestrator.NeedsRetryAsWritten`, `Orchestrator.GenerateVllmAsWritten` | `Orchestrator.NeedsRetry`, `Orchestrator.GenerateVllm` |
| chandra/model/vllm.py:47-48 | the default `max_workers = min(64, len(batch))` is 0 for an empty batch, and `ThreadPoolExecutor(max_workers=0)` (line 114) raises `ValueError` | `generate_vllm([])` without `max_workers` (`Orchestrator.EmptyBatchRaisesAsWritten`); the client always passes `num_threads`, so it does not hit this | an empty batch returns no results: the default pool has at least one worker | high; not executed | `Orchestrator.PoolSizeAsWritten` | `Orchestrator.PoolSize` |
| chandra/output.py:132-133 | `convert_a` calls `self.escape` on link text that `process_text` (lines 152-153) has already escaped, so a `$` in a link gets its backslash escaped too | a link whose text is "$": the text node gives `\$`, and the link text becomes `\\$`, an escaped backslash followed by a bare, unescaped `$` (`Markdown.LinkDollarEscapedTwice`) | escape only brackets and parentheses in the already-escaped text | medium (relies on markdownify passing processed child text to `convert_a`); not executed | `Markdown.LinkTextAsWritten` | `Markdown.LinkText` |
