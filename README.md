# Book translator core, modelled in Dafny

This project models the processing core of `app.py`, a Streamlit app that
turns an English PDF book into a Bangla Word document. The app works in four
steps:

1. **Page extraction** (`extract_pages_from_bytes`). It reads each page's text in the requested range, strips it, and keeps only the pages that are not blank. Each kept page is paired with its 1-based number.
2. **Batch loop** (the body of the "Start Translation" button). It keeps the pages within the user's range and cuts them into `ceil(n / batch_size)` consecutive batches. For each batch it:
   - builds the request text (`translate_batch`'s `user_content`);
   - asks the translation engine;
   - parses the reply;
   - adds up the pages, cost and token counts;
   - appends one log line, which is an error line when the call fails.
3. **Reply parsing** (`parse_translation`). It cuts the engine's reply at its `---PAGE_START [n]---` markers. Each marker yields one page record, holding the labelled fields `HEADING:`, `HEADING_EN:`, `QUOTE:`, `BODY:`, `ITEMS:` and `CLOSING:`. When the reply has no marker, a blank reply gives no page. Any other reply becomes one page numbered 0, whose body and raw text are the whole stripped reply.
4. **Document building** (`build_docx`). It turns each record into paragraphs in a fixed order:
   - heading, English heading, quote in curly quotes, body;
   - numbered items, with Bangla numerals up to 20 and an optional bold lead;
   - closing;
   - and, for records with no structured content, the raw text cut into paragraphs.

   Every page except the first is preceded by a page break.

Modules, one file each:

- `wrappers.dfy` (`Wrappers`): `Option`.
- `text.dfy` (`Text`): Python string primitives used by the core, written out on sequences:
  - `str.strip()` and `str.strip(chars)`, with Python's whitespace set;
  - `re.sub` of a literal;
  - `str.split(sep)` and `"".join`;
  - literal search.
- `numerals.dfy` (`Numerals`): ASCII and Bengali decimal digits, their value (`int()`), rendering a number in either script (`str()`), and the `bangla_nums` table.
- `parser.dfy` (`Parser`): `parse_translation`.
  - The marker regex becomes a leftmost scan (`Scan`).
  - Each lazy field regex becomes "first label occurrence, then the first place its look-ahead holds" (`Group`).
  - The item `findall` becomes `Items`.
  - The method `ParseTranslation` is proved equal to the function `Parse`.
- `batch.dfy` (`Batch`): the page extraction loop, the range filter, the batch partition, the request builder and the accumulation loop. The translation engine is a parameter, `translate: string -> Outcome`.
- `docx.dfy` (`Docx`): the content and order of what `build_docx` adds for the pages. The document is a sequence of abstract blocks: a page break, or a paragraph of a given kind holding styled text runs. The methods `AddPage` and `BuildDocument` follow the source loop and are proved equal to the functions `PageContent` and `Document`.

Page markers are `---PAGE_START n---` (brackets around `n` optional, whitespace allowed before them) and `---PAGE_END---`.

## Model

| member | source | states |
|---|---|---|
| Batch.ExtractPages | app.py:82-94 | the pages returned are `Extracted(Cleaned(texts), start-1, last)`, where `last` is `end_page` clamped to the page count; `total` is the page count |
| Batch.LastPage | app.py:86-87 | `end_page`, or the page count when it is absent or past the end; ExtractPages uses it |
| Batch.RangeEnd | app.py:408 | `end_page_input` when positive, else the page count; TranslateBook uses it |
| Batch.PageText | app.py:90 | a page's text is its raw text passed through `strip()`, and is stripped |
| Batch.CleanedAt | app.py:90 | the i-th cleaned text is `Strip` of the i-th page text |
| Batch.Cleaned | app.py:90 | one stripped text per page of the PDF |
| Batch.Extracted | app.py:89-92 | at most one page is kept per page in the range |
| Batch.InRange | app.py:411 | the range filter never adds pages; InRangeExact states exactly which pages it keeps, how often and in what order |
| Batch.Batches | app.py:453-456 | there are exactly `num_batches` batches |
| Batch.ExtractedSound | app.py:89-92 | every extracted page lies in the range, carries its own stripped text, is not blank, and pages come in increasing page order |
| Batch.ExtractedComplete | app.py:89-92 | every page in the range whose stripped text is not blank is extracted, numbered `i + 1` |
| Batch.InRangeMembers | app.py:411 | a page is kept by the range filter if and only if it was extracted and `start_page <= num <= end_page` |
| Batch.InRangePrefix | app.py:411 | filtering preserves order: filtering a prefix gives a prefix of the filtered list |
| Batch.InRangeExact | app.py:411 | the kept pages are the pages whose number lies in `[start_page, end_page]`, each kept exactly once, in input order: an increasing list of input positions covers every in-range page and gives the result one for one |
| Batch.InRangeIndices | app.py:411 | gives the increasing input positions of the in-range pages that the result holds one for one |
| Batch.NumBatchesIsCeiling | app.py:413 | `num_batches` is `ceil(n / batch_size)`: batches cover `n`, one fewer would not, and zero batches only for zero pages |
| Batch.NumBatches | app.py:413 | `(n + batch_size - 1) // batch_size`; NumBatchesIsCeiling shows it is `ceil(n / batch_size)` |
| Batch.BatchStart | app.py:454 | every batch index in `range(num_batches)` starts before the end of the pages |
| Batch.BatchAt | app.py:454-456 | each slice `pages[b_start:b_end]` holds between 1 and `batch_size` pages |
| Batch.BatchSizes | app.py:453-456 | every batch of the partition holds between 1 and `batch_size` pages |
| Batch.BatchesPrefix | app.py:453-456 | the first `k` batches concatenate to the first `min(k * batch_size, n)` pages |
| Batch.BatchesCover | app.py:453-456 | the batches concatenate back to exactly the pages in range |
| Batch.BatchIs | app.py:454-456 | batch `idx` of the partition is the slice from `idx * batch_size` to `min(b_start + batch_size, n)` |
| Batch.BatchEnd | app.py:455 | `b_end = min(b_start + batch_size, num_pages)`; BatchIs and BatchAt state the slice it ends |
| Batch.Request | app.py:99-101 | the request text is at least as long as the fixed preamble |
| Batch.RequestPrefix | app.py:99-101 | the request for the first `k` pages is a prefix of the request for all of them |
| Batch.RequestHoldsPage | app.py:99-101 | the request starts with the preamble, and page `k`'s `=== PAGE n ===` section follows exactly the request for the pages before it |
| Batch.Section | app.py:101 | one page's `=== PAGE n ===` section; SectionNumber and RequestHoldsPage state its content and place |
| Batch.SectionNumber | app.py:101 | a page's section carries its number as decimal digits whose value is the page number |
| Batch.BuildRequest | app.py:99-101 | the loop that appends one section per page builds `Request(pages)` |
| Batch.Step | app.py:463-477 | one loop pass adds exactly one log line for the batch and appends the parsed pages only when the call succeeded |
| Batch.LogOf | app.py:472-476 | the success line (batch number, first and last page, record count, cost) or the error line with the message; RunLogs places it |
| Batch.Added | app.py:464-466 | the records a batch adds: its parsed reply, or none when it failed; RunTranslated places them |
| Batch.Run | app.py:453-477 | after the loop there is exactly one log line per batch |
| Batch.RunLogs | app.py:453-477 | log line `k` is the success or error line for batch `k`, numbered `k + 1` |
| Batch.RunTranslated | app.py:463-466 | the translated pages are the concatenation, in batch order, of each successful batch's parsed pages |
| Batch.FailedBatchAddsNothing | app.py:475-477 | a failing batch leaves pages, cost and token totals unchanged and adds only its error line |
| Batch.TranslatedBatchAdds | app.py:463-470 | a successful batch appends its parsed pages and adds its cost and token counts to the totals |
| Batch.TranslateBatch | app.py:97-107 | the engine is asked with the request text built for the batch |
| Batch.Ask | app.py:464 | the engine call of the loop: the engine receives the request text built for the batch; TranslateBatch and TranslateBatches state it |
| Batch.Accumulate | app.py:463-477 | the loop body's updates of the five totals are one `Step` |
| Batch.TranslateBatches | app.py:447-477 | the batch loop ends with the totals of `Run` over the partition, every batch non-empty |
| Batch.TranslateBook | app.py:406-413 | extraction, range filter, partition and loop compose into `Run` over the batches of the in-range pages |
| Parser.SpaceEndRun | app.py:130 | the greedy `\s*` run ends at the first non-whitespace character |
| Parser.SpaceEnd | app.py:130 | the end of the `\s*` run lies between its start and the end of the text; SpaceEndRun and SpaceEndAt state that it is the greedy run |
| Parser.SpaceEndAt | app.py:130 | a whitespace run that stops before a non-space is the one `\s*` takes |
| Parser.DigitsEndRun | app.py:130 | the greedy `(\d+)` run ends at the first non-digit |
| Parser.DigitsEnd | app.py:130 | the end of the `\d+` run lies between its start and the end of the text; DigitsEndRun and DigitsEndAt state that it is the greedy run |
| Parser.DigitsEndAt | app.py:130 | a digit run that stops before a non-digit is the one `\d+` takes |
| Parser.MatchPrefixParts | app.py:130 | a marker match has the parts `---PAGE_START`, spaces, optional `[`, digits, optional `]`, `---` in that order |
| Parser.MatchPrefix | app.py:130 | the marker pattern tried at the start of a text; its meaning is stated by MatchPrefixSound and MatchPrefixComplete |
| Parser.MatchPrefixSound | app.py:130 | a marker match is well-formed and its text is a prefix of the input |
| Parser.MatchPrefixOf | app.py:130 | text cut as the marker pattern says matches with exactly those parts |
| Parser.MatchPrefixComplete | app.py:130 | every well-formed marker text, followed by anything, is matched as that marker |
| Parser.ScanStep | app.py:130 | the leftmost marker, followed by a scan of the rest, gives a scan of the whole text |
| Parser.ScanEnd | app.py:130 | text with no marker anywhere is a scan with no pieces |
| Parser.ScanSkip | app.py:130 | a character where no marker starts belongs to the text before the first marker |
| Parser.Scan | app.py:130 | every marker found by the scan is well-formed |
| Parser.ScanIsScanOf | app.py:130 | the scan reassembles the input, and every marker is taken at the leftmost place no earlier marker covers |
| Parser.CutEmpty | app.py:130 | a cut with no pieces means there is no marker in the text |
| Parser.CutHead | app.py:130 | in a cut, the first marker sits right after the text before it, and no marker starts earlier |
| Parser.CutUnique | app.py:130 | two leftmost cuts of the same text are equal |
| Parser.ScanUnique | app.py:130 | `Scan` is the only leftmost cut of the text |
| Parser.HasMarkerIff | app.py:130 | the text has a marker somewhere if and only if the scan finds one |
| Parser.Flatten | app.py:130 | the pieces flatten into the alternating page-number and text blocks |
| Parser.SplitBlocks | app.py:130 | `re.split` gives the lead text, then alternately the number digits and the text of each marker |
| Parser.FirstStopSpec | app.py:143-147 | the lazy group ends at the first place its look-ahead holds: a newline followed by a later label or by the end, or (for `CLOSING`) the end itself |
| Parser.LastStopSpec | app.py:143-147 | when the lazy group must backtrack, it ends at the last place before the label where the look-ahead holds |
| Parser.EndAnchor | app.py:143-147 | `$` without MULTILINE: the end of the text, or just before a final newline |
| Parser.IsStop | app.py:143-147 | where a group may end: a newline followed by a later label or by `$`, or `$` itself for `CLOSING`; FirstStopSpec and LastStopSpec use it |
| Parser.FirstStop | app.py:143-151 | a stop found lies at or after where the search starts and within the text; FirstStopSpec states it is the first one |
| Parser.LastStop | app.py:143-151 | a stop found lies in `[lo, hi)`; LastStopSpec states it is the last one |
| Parser.Group | app.py:148-151 | with no `LABEL:` in the content there is no match; a match captures at least one character |
| Parser.Field | app.py:148-151 | a field is stripped, and is empty when its label does not appear |
| Parser.LeadingBangla | app.py:155 | the `[০-৯]+` run is exactly the leading Bengali digits |
| Parser.LineEnd | app.py:155 | `(.+)` without DOTALL stops at the end of the line |
| Parser.LastNotNewline | app.py:155 | the position found lies in `[lo, hi)` and is not a newline; LastNotNewlineSpec states it is the last such one |
| Parser.LastNotNewlineSpec | app.py:155 | every position after the one found, up to `hi`, is a newline, and when none is found all of `[lo, hi)` are newlines |
| Parser.ItemStart | app.py:155 | after the dot, the item starts on a character that is not a newline |
| Parser.ItemStartSpec | app.py:155 | greedy `\s*`: the start taken is the last one that follows only whitespace and is not a newline, and there is none only when no such start exists |
| Parser.ItemAt | app.py:155 | a match at `p` captures a non-empty single line and ends after `p`; which line it captures is stated by ItemAtSound and ItemAtComplete |
| Parser.ItemAtSound | app.py:155 | a match found at `p` is Bengali digits, a `.`, whitespace, then the item; the whitespace is the longest that works, and the item runs from its start to the end of the line |
| Parser.ItemAtComplete | app.py:155 | wherever the pattern can match at `p` a match is found, and with the longest whitespace it is the match returned |
| Parser.ItemAtStart | app.py:155 | where the pattern can match at `p`, the match found starts its item at the last possible start |
| Parser.ItemsFrom | app.py:155 | every item is a non-empty single line; ItemsFromLeftmost and ItemsFromNone state that the items are the captures of the leftmost non-overlapping matches, in order |
| Parser.ItemsFromLeftmost | app.py:155 | `findall` takes the leftmost match at or after `p`, then resumes where that match ends: no match is skipped and matches do not overlap |
| Parser.ItemsFromNone | app.py:155 | where no match is found from `p` on, there are no items |
| Parser.Items | app.py:153-155 | with no `ITEMS:` label the list is empty; otherwise it is the `findall` of ItemsFrom over the `ITEMS:` group, each item a non-empty single line |
| Parser.IndexOfSpec | app.py:142-148 | the field list has one entry per field, found at its own position |
| Parser.SetField | app.py:151 | `page_data[field] = v` changes that field and no other part of the record |
| Parser.ExtractFields | app.py:134-155 | the loop over the (field, pattern) list followed by the items search builds `Record(page_num, content)` |
| Parser.Records | app.py:131-158 | there is one record per marker |
| Parser.ParseWithMarkers | app.py:130-158 | with a marker in the reply: one record per marker, in marker order, numbered by its digits, holding the text up to the next marker with `---PAGE_END---` removed and stripped |
| Parser.ParseWithoutMarkers | app.py:160-166 | without a marker: no record for a blank reply, otherwise one record numbered 0 whose body and raw text are the stripped reply |
| Parser.ParseTranslation | app.py:127-166 | the parsing loop returns `Parse(raw_text)` |
| Parser.Parse | app.py:127-166 | `parse_translation` as a function; ParseWithMarkers and ParseWithoutMarkers state its result, and ParseTranslation computes it |
| Parser.Content | app.py:134 | a page's content: its text with every `---PAGE_END---` removed (RemoveAllIsConcatOfSplit), then stripped (StripSpec) |
| Parser.Record | app.py:136-155 | the dictionary built for one page: the number, the five fields from their patterns, the items, and the content as `raw`; ExtractFields states it |
| Parser.PieceRecord | app.py:133-157 | a marker's record, numbered by the value of its digits and built from its content; ParseWithMarkers places it |
| Parser.Fallback | app.py:160-164 | the no-marker record: number 0, body and raw text the stripped reply, other fields empty; ParseWithoutMarkers places it |
| Numerals.ItemLabelSpec | app.py:206-252 | an item label is `bangla_nums[j]` for `j < 20` and `str(j + 1)` otherwise; it is always a numeral whose value is `j + 1` |
| Numerals.ItemLabel | app.py:252 | the label of item `j`; ItemLabelSpec makes it the table entry or `str(j + 1)` |
| Numerals.BanglaNumsAreNumerals | app.py:206-207 | the table has 20 entries, entry `j` being `j + 1` written in Bengali digits |
| Numerals.ValueOfRender | app.py:252 | the digits rendered for a number read back as that number |
| Numerals.Value | app.py:133 | `int()` of a digit string; ValueOfRender and RenderOfValue make it the inverse of Render |
| Numerals.RenderOfValue | app.py:133 | canonical digits are the rendering of their value |
| Numerals.RenderCanonical | app.py:252 | a rendered number is canonical: no leading zero |
| Numerals.ValuePositive | app.py:133 | canonical digits of more than one character have a positive value |
| Numerals.GlyphOfValue | app.py:133 | a digit is the glyph of its value in its script |
| Numerals.Glyph | app.py:252 | a glyph is a digit of its script with the value asked for |
| Numerals.DigitValue | app.py:133 | a digit's value is below ten |
| Numerals.Render | app.py:252 | a rendered number is a non-empty run of digits |
| Text.Strip | app.py:134 | the result of `strip()` has no whitespace at either end |
| Text.StripChars | app.py:237 | the result of `strip(chars)` has no character of the set at either end |
| Text.SplitOn | app.py:272 | `split(sep)` gives at least one part |
| Text.RemoveAll | app.py:134 | removing occurrences never makes the text longer |
| Text.FindFromSpec | app.py:253 | a literal search returns the first occurrence at or after the start, or none when there is none |
| Text.FindFrom | app.py:253 | a position found is at or after the start and holds the pattern; FindFromSpec makes it the first such position |
| Text.IsSpace | app.py:130 | the characters `\s` and `str.strip()` treat as whitespace, Python's `isspace` set; StripSpec and SpaceEndRun use it |
| Text.StripSpec | app.py:134 | `strip()` removes the leading and trailing whitespace and nothing else; it is empty exactly for all-space text |
| Text.StripCharsSpec | app.py:237 | `strip(chars)` removes the leading and trailing characters of the set and nothing else |
| Text.StripUnique | app.py:134 | text that is stripped, surrounded by whitespace, strips back to itself |
| Text.StripCharsUnique | app.py:237 | trimmed text surrounded by set characters strips back to itself |
| Text.StripIdempotent | app.py:134 | stripping twice is stripping once |
| Text.RemoveAllIsConcatOfSplit | app.py:134 | removing every `---PAGE_END---` is splitting at it and concatenating the parts |
| Text.RemoveAllNone | app.py:134 | with no occurrence, removing changes nothing and the split is one part |
| Text.RemoveAllAtOccurrence | app.py:134 | removal keeps the text before the first occurrence and removes in the rest |
| Text.JoinSplit | app.py:272 | joining the parts of `split(sep)` with `sep` gives the text back |
| Text.Join | app.py:272 | `sep.join(parts)`; JoinSplit makes it the inverse of SplitOn |
| Text.Concat | app.py:466 | the parts glued in order, as `extend` does; ConcatAppend, RunTranslated and BatchesCover state it |
| Text.SplitPiecesFree | app.py:272 | no part of `split(sep)` contains `sep` |
| Text.SplitJoinSingle | app.py:209-211 | splitting a join at a one-element separator not in the parts gives the parts back |
| Docx.QuoteText | app.py:237-238 | the quote is wrapped in U+201C and U+201D, and its inside has no `"`, U+201C or U+201D at either end |
| Docx.QuoteTextOf | app.py:237-238 | quote marks around a trimmed text give exactly “text” |
| Docx.QuoteTextIdempotent | app.py:237-238 | quoting a quoted text changes nothing |
| Docx.BoldLeadParts | app.py:253 | the cut points of a `**(.+?)**\s*(.*)` match give the pattern's shape |
| Docx.BoldLeadShape | app.py:253 | where the bold part, the whitespace and the rest sit in a bold-lead item |
| Docx.BoldLeadSound | app.py:253 | a bold-lead match splits the item as `**` bold `**` whitespace rest, with the first closing `**` and all the whitespace taken |
| Docx.BoldLeadComplete | app.py:253 | every split of that shape is the match found |
| Docx.BoldLeadIff | app.py:253 | the item has a bold lead if and only if it has that shape |
| Docx.BoldLead | app.py:253 | `re.match(r'\*\*(.+?)\*\*\s*(.*)', item, re.DOTALL)`; BoldLeadSound, BoldLeadComplete and BoldLeadIff state its meaning |
| Docx.ItemRuns | app.py:250-261 | the runs of item `j`'s paragraph; ItemRunsBold and ItemRunsPlain state them |
| Docx.ItemRunsBold | app.py:249-258 | an item with bold lead `X` and rest `R` is a bold run `num. X` then a plain run ` R`, with `num` the value `j + 1` |
| Docx.ItemRunsPlain | app.py:249-261 | an item without a bold lead is one plain run `num. item` |
| Docx.ItemParas | app.py:249-261 | one paragraph per item |
| Docx.ItemParasAt | app.py:249-261 | paragraph `j` is the item paragraph for item `j` with label number `j + 1` |
| Docx.RawParas | app.py:272-277 | the raw text gives at most one paragraph per `\n\n` chunk; RawParasExact states exactly which |
| Docx.RawParasExact | app.py:272-277 | the paragraphs are one per chunk that is not blank once stripped, each showing that chunk stripped, in chunk order, with no chunk skipped and none merged |
| Docx.RawParasIndices | app.py:272-277 | gives the increasing positions of the non-blank chunks that the paragraphs show one for one |
| Docx.RawParasSound | app.py:272-277 | every raw paragraph is the non-empty stripped text of a chunk |
| Docx.RawParasComplete | app.py:272-277 | every chunk whose stripped text is not empty gives a paragraph |
| Docx.RawNonEmptyIff | app.py:272-277 | raw paragraphs appear if and only if some chunk is not blank |
| Docx.RawParasSingle | app.py:272-277 | raw text without `\n\n` gives one paragraph, its stripped text |
| Docx.RawParasRank | app.py:272-277 | every raw paragraph is of the raw kind |
| Docx.RawSectionRank | app.py:270-277 | the raw fallback adds only raw paragraphs |
| Docx.ItemParasRank | app.py:249-261 | the items add only item paragraphs |
| Docx.Sections | app.py:213-277 | a page has seven sections: heading, English heading, quote, body, items, closing, raw |
| Docx.HeadingSection | app.py:213-221 | a bold heading paragraph when the heading is not empty, else nothing; HasRankIff and PageContentIs state it |
| Docx.HeadingEnSection | app.py:223-230 | the English heading in parentheses when it is not empty, else nothing; HasRankIff states it |
| Docx.QuoteSection | app.py:232-241 | the quote, re-quoted by QuoteText, in italics, when it is not empty; QuoteTextOf and HasRankIff state it |
| Docx.BodySection | app.py:243-247 | the body paragraph when the body is not empty; HasRankIff states it |
| Docx.ClosingSection | app.py:264-268 | the closing paragraph when the closing is not empty; HasRankIff states it |
| Docx.UsesRaw | app.py:270-271 | the raw text is used only when heading, body, items and closing are all empty and the raw text is not; FallbackIff states it |
| Docx.RawSection | app.py:270-277 | the raw paragraphs when UsesRaw holds, else nothing; RawSectionRank and FallbackIff state it |
| Docx.PageContentIs | app.py:213-277 | a page's content is its seven sections in source order |
| Docx.PageContent | app.py:213-277 | the paragraphs one page adds; PageContentIs, PageContentOrdered, HasRankIff and FallbackIff state them |
| Docx.SectionsLayered | app.py:213-277 | each section holds only paragraphs of its own kind |
| Docx.ConcatLayered | app.py:213-277 | sections of increasing kinds concatenate to content ordered by kind |
| Docx.OrderedAppend | app.py:213-277 | appending a later section keeps the content ordered |
| Docx.PageContentOrdered | app.py:213-277 | within a page, paragraphs come in the order heading, English heading, quote, body, items, closing, raw, and there is no page break |
| Docx.HasRankIff | app.py:213-277 | a page has a paragraph of a kind if and only if that section is non-empty |
| Docx.FallbackIff | app.py:270-277 | raw paragraphs appear if and only if heading, body, items and closing are all empty, raw is not, and some `\n\n` chunk is not blank |
| Docx.FallbackPageIsBody | app.py:160-164 | a no-marker record yields exactly one body paragraph, its stripped reply, and no raw paragraph |
| Docx.PageContents | app.py:209-277 | one content list per page |
| Docx.Document | app.py:209-277 | the page contents joined by page breaks; DocumentSnoc and DocumentSplit state it, and BuildDocument computes it |
| Docx.DocumentSnoc | app.py:209-211 | adding a page appends its content, preceded by a page break unless it is the first |
| Docx.DocumentSplit | app.py:209-211 | cutting the document at its page breaks gives back each page's content, in order: one page break between consecutive pages, none before the first |
| Docx.AddItems | app.py:249-261 | the items loop appends `ItemParas(items)` |
| Docx.AddRaw | app.py:272-277 | the chunk loop appends `RawParas(split(raw, "\n\n"))` |
| Docx.AddOptional | app.py:213-268 | a guarded `add_paragraph` appends the paragraph only when the field is present |
| Docx.AddFallback | app.py:270-277 | the fallback appends the raw section |
| Docx.AddPage | app.py:213-277 | the page body appends `PageContent(pd)` |
| Docx.BuildDocument | app.py:209-277 | the page loop builds `Document(pages)` |

## Left out

- The Streamlit interface, progress bar, status text, file upload and download buttons are presentation only and are not modelled.
- The cost estimate `est_cost` (app.py:415-419) only feeds the display and is not modelled.
- The Anthropic client call, the reply's text blocks, and the per-model token pricing inside `translate_batch` are not modelled. The engine is a parameter returning an `Outcome`: text, token counts and cost, or a failure with its message. Any exception it raises is this failure.
- Costs are `real`. Python's float rounding and the `${cost:.4f}` formatting are not modelled.
- Log lines are a datatype holding the batch number, page numbers, page count and cost, not formatted strings.
- The `time.sleep(1)` between batches is not modelled.
- PyMuPDF is not modelled. The page texts are given as a sequence of strings.
- The `end_page` of `extract_pages_from_bytes` is an optional integer. `start_page` is assumed to be at least 1, which is what the app passes.
- The python-docx styling is not modelled: fonts, sizes, colours, alignment and spacing. The page setup, header and footer, and the closing "— সমাপ্ত —" end page and colophon (app.py:171-204, 279 onwards) are not modelled either. Of each run, only its text and its bold and italic flags are kept.
- Parser: regular expressions are modelled for the fixed patterns the code uses, not as a general regex engine.
- Parser: `\d` and `int()` are modelled for ASCII and Bengali digits only. Python also accepts the other Unicode decimal digits.
- Text.IsSpace: `\s` and `str.strip()` use Python's whitespace set for the characters it lists. Unicode character categories beyond those characters are not modelled.
- Batch.Step: the reply parser is total, so a successful call always adds its records, cost and tokens. In the app, `parse_translation` runs inside the batch's `try`, and `int()` on a marker's digits raises `ValueError` for digit strings longer than Python's integer-string limit (4300 digits by default). Such a reply takes the error path: no records, no cost, an error line. The model does not capture this.
