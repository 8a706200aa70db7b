/**
 * The translation run around the parser (app.py:82-101, 403-482): the pages
 * are read from the book, the ones in the chosen range are cut into batches of
 * `batch_size` consecutive pages, and each batch is sent to the engine as one
 * request whose reply is parsed into page records.
 *
 * The engine (the network call in `translate_batch`) is the parameter
 * `translate`: given the request text it either replies with the raw text,
 * the token counts and the cost, or fails. The book is the sequence of the
 * texts its pages yield.
 */
module Batch {
  import opened Wrappers
  import opened Text
  import opened Numerals
  import opened Parser

  /** A page read from the book: its 1-based number and its stripped text. */
  datatype SourcePage = SourcePage(num: nat, text: string)

  // ---------------------------------------------------------------- extraction

  /** The last page `extract_pages_from_bytes` reads: `end_page`, or the page
      count when `end_page` is absent or past the end. */
  function LastPage(endPage: Option<int>, total: nat): int {
    if endPage.None? || endPage.value > total then total else endPage.value
  }

  /** The text each page yields, stripped. */
  function Cleaned(texts: seq<string>): (clean: seq<string>)
    ensures |clean| == |texts|
  {
    if texts == [] then [] else Cleaned(texts[..|texts| - 1]) + [Strip(texts[|texts| - 1])]
  }

  /** Page `i` of the cleaned texts is page `i` stripped. */
  lemma {:induction false} CleanedAt(texts: seq<string>, i: nat)
    requires i < |texts|
    ensures Cleaned(texts)[i] == Strip(texts[i])
  {
    if i < |texts| - 1 {
      CleanedAt(texts[..|texts| - 1], i);
    }
  }

  /** `doc[i].get_text().strip()`: the stripped text of page `i`. */
  method PageText(texts: seq<string>, i: nat) returns (text: string)
    requires i < |texts|
    ensures text == Cleaned(texts)[i] && IsStripped(text)
  {
    text := Strip(texts[i]);
    CleanedAt(texts, i);
  }

  /** The pages kept among the indices `[lo, hi)`, given the stripped texts
      `clean`: the non-blank ones, numbered from 1. */
  function Extracted(clean: seq<string>, lo: nat, hi: int): (pages: seq<SourcePage>)
    requires hi <= lo || hi <= |clean|
    ensures |pages| <= if hi <= lo then 0 else hi - lo
    decreases hi - lo
  {
    if hi <= lo then []
    else
      var text := clean[hi - 1];
      Extracted(clean, lo, hi - 1) + (if text == "" then [] else [SourcePage(hi, text)])
  }

  /** Every page is numbered within `(lo, hi]`, holds the stripped text of
      its page, is not blank, and the numbers increase. */
  predicate Sound(clean: seq<string>, lo: nat, hi: int, pages: seq<SourcePage>) {
    && (forall k :: 0 <= k < |pages| ==>
          lo < pages[k].num <= hi && pages[k].num <= |clean|
          && pages[k].text == clean[pages[k].num - 1] && pages[k].text != "")
    && (forall k, l :: 0 <= k < l < |pages| ==> pages[k].num < pages[l].num)
  }

  /** The pages kept are in range, in order, stripped and not blank. */
  lemma {:induction false} ExtractedSound(clean: seq<string>, lo: nat, hi: int)
    requires hi <= lo || hi <= |clean|
    ensures Sound(clean, lo, hi, Extracted(clean, lo, hi))
    decreases hi - lo
  {
    if hi > lo {
      ExtractedSound(clean, lo, hi - 1);
      var init := Extracted(clean, lo, hi - 1);
      var text := clean[hi - 1];
      if text != "" {
        SoundSnoc(clean, lo, hi, init, SourcePage(hi, text));
      } else {
        assert Extracted(clean, lo, hi) == init;
      }
    }
  }

  lemma SoundSnoc(clean: seq<string>, lo: nat, hi: int, init: seq<SourcePage>, p: SourcePage)
    requires lo < hi <= |clean| && Sound(clean, lo, hi - 1, init)
    requires p.num == hi && p.text == clean[hi - 1] && p.text != ""
    ensures Sound(clean, lo, hi, init + [p])
  {
    var pages := init + [p];
    forall k, l | 0 <= k < l < |pages| ensures pages[k].num < pages[l].num {
      if l == |init| { assert pages[k] == init[k]; }
    }
  }

  /** No page that is in range and not blank is dropped. */
  lemma {:induction false} ExtractedComplete(clean: seq<string>, lo: nat, hi: int, i: nat)
    requires hi <= lo || hi <= |clean|
    requires lo <= i < hi && clean[i] != ""
    ensures SourcePage(i + 1, clean[i]) in Extracted(clean, lo, hi)
    decreases hi - lo
  {
    var init := Extracted(clean, lo, hi - 1);
    if i < hi - 1 {
      ExtractedComplete(clean, lo, hi - 1, i);
    }
  }

  /** `extract_pages_from_bytes`: the loop over the page indices from
      `start_page - 1` up to the clamped end; returns the pages and the page
      count. */
  method ExtractPages(texts: seq<string>, startPage: nat, endPage: Option<int>)
    returns (pages: seq<SourcePage>, total: nat)
    requires startPage >= 1
    ensures total == |texts|
    ensures pages == Extracted(Cleaned(texts), startPage - 1, LastPage(endPage, total))
  {
    total := |texts|;
    ghost var clean := Cleaned(texts);
    var last := LastPage(endPage, total);
    pages := [];
    var i := startPage - 1;
    while i < last
      invariant startPage - 1 <= i && (i <= last || i == startPage - 1)
      invariant pages == Extracted(clean, startPage - 1, i)
    {
      var text := PageText(texts, i);
      ExtractedStep(clean, startPage - 1, i);
      if text != "" {
        pages := pages + [SourcePage(i + 1, text)];
      }
      i := i + 1;
    }
  }

  /** One more index either keeps its page or, when blank, drops it. */
  lemma ExtractedStep(clean: seq<string>, lo: nat, i: nat)
    requires lo <= i < |clean|
    ensures Extracted(clean, lo, i + 1)
         == Extracted(clean, lo, i) + (if clean[i] == "" then [] else [SourcePage(i + 1, clean[i])])
  {
  }

  // ---------------------------------------------------------------- page range

  /** The end of the range: the input when it is positive, otherwise the last
      page of the book. */
  function RangeEnd(endInput: int, totalPages: nat): int {
    if endInput > 0 then endInput else totalPages
  }

  /** `[(pn, txt) for pn, txt in pages if start_page <= pn <= end_page]`. */
  function InRange(pages: seq<SourcePage>, startPage: int, endPage: int): (r: seq<SourcePage>)
    ensures |r| <= |pages|
    decreases |pages|
  {
    if |pages| == 0 then []
    else
      var p := pages[|pages| - 1];
      InRange(pages[..|pages| - 1], startPage, endPage) + (if startPage <= p.num <= endPage then [p] else [])
  }

  /** A page is kept exactly when it is in the range. */
  lemma {:induction false} InRangeMembers(pages: seq<SourcePage>, startPage: int, endPage: int)
    ensures forall p :: p in InRange(pages, startPage, endPage) <==> p in pages && startPage <= p.num <= endPage
    decreases |pages|
  {
    if |pages| > 0 {
      var init := pages[..|pages| - 1];
      InRangeMembers(init, startPage, endPage);
      assert pages == init + [pages[|pages| - 1]];
    }
  }

  /** The filter keeps the order of the pages: the kept pages of a prefix are
      a prefix of the kept pages. */
  lemma {:induction false} InRangePrefix(pages: seq<SourcePage>, n: nat, startPage: int, endPage: int)
    requires n <= |pages|
    ensures InRange(pages[..n], startPage, endPage) <= InRange(pages, startPage, endPage)
    decreases |pages| - n
  {
    if n < |pages| {
      var init := pages[..|pages| - 1];
      assert init[..n] == pages[..n];
      InRangePrefix(init, n, startPage, endPage);
    } else {
      assert pages[..n] == pages;
    }
  }

  /** `idx` lists, in increasing order, exactly the positions of the pages in
      the range, and `r` holds those pages one for one, in that order. */
  ghost predicate RangeIndexing(pages: seq<SourcePage>, r: seq<SourcePage>, idx: seq<nat>, startPage: int, endPage: int) {
    && |idx| == |r|
    && (forall k :: 0 <= k < |idx| ==>
          idx[k] < |pages| && startPage <= pages[idx[k]].num <= endPage && r[k] == pages[idx[k]])
    && (forall k, l :: 0 <= k < l < |idx| ==> idx[k] < idx[l])
    && (forall i :: 0 <= i < |pages| && startPage <= pages[i].num <= endPage ==> i in idx)
  }

  /** The filter keeps each page in the range exactly once, in input order:
      a page listed twice in the input is kept twice, and none is repeated
      or moved. */
  lemma InRangeExact(pages: seq<SourcePage>, startPage: int, endPage: int)
    ensures exists idx: seq<nat> :: RangeIndexing(pages, InRange(pages, startPage, endPage), idx, startPage, endPage)
  {
    var idx := InRangeIndices(pages, startPage, endPage);
  }

  /** The positions of the pages in the range, built page by page. */
  lemma {:induction false} InRangeIndices(pages: seq<SourcePage>, startPage: int, endPage: int) returns (idx: seq<nat>)
    ensures RangeIndexing(pages, InRange(pages, startPage, endPage), idx, startPage, endPage)
    decreases |pages|
  {
    if pages == [] {
      idx := [];
    } else {
      var n := |pages| - 1;
      var before := InRangeIndices(pages[..n], startPage, endPage);
      if startPage <= pages[n].num <= endPage {
        RangeKeep(pages, InRange(pages[..n], startPage, endPage), before, startPage, endPage);
        idx := before + [n];
      } else {
        RangeSkip(pages, InRange(pages[..n], startPage, endPage), before, startPage, endPage);
        idx := before;
      }
    }
  }

  /** A last page outside the range adds nothing. */
  lemma RangeSkip(pages: seq<SourcePage>, r: seq<SourcePage>, idx: seq<nat>, startPage: int, endPage: int)
    requires |pages| > 0 && !(startPage <= pages[|pages| - 1].num <= endPage)
    requires RangeIndexing(pages[..|pages| - 1], r, idx, startPage, endPage)
    ensures RangeIndexing(pages, r, idx, startPage, endPage)
  {
    var n := |pages| - 1;
    forall k | 0 <= k < |idx| ensures pages[idx[k]] == pages[..n][idx[k]] { }
    forall i | 0 <= i < n && startPage <= pages[i].num <= endPage ensures i in idx {
      assert pages[i] == pages[..n][i];
    }
  }

  /** A last page in the range adds itself and its position. */
  lemma RangeKeep(pages: seq<SourcePage>, r: seq<SourcePage>, idx: seq<nat>, startPage: int, endPage: int)
    requires |pages| > 0 && startPage <= pages[|pages| - 1].num <= endPage
    requires RangeIndexing(pages[..|pages| - 1], r, idx, startPage, endPage)
    ensures RangeIndexing(pages, r + [pages[|pages| - 1]], idx + [|pages| - 1], startPage, endPage)
  {
    var n := |pages| - 1;
    var idx' := idx + [n];
    var r' := r + [pages[n]];
    forall k | 0 <= k < |idx'|
      ensures idx'[k] < |pages| && startPage <= pages[idx'[k]].num <= endPage && r'[k] == pages[idx'[k]]
    {
      if k < |idx| {
        assert pages[idx[k]] == pages[..n][idx[k]];
      }
    }
    forall i | 0 <= i < |pages| && startPage <= pages[i].num <= endPage ensures i in idx' {
      if i < n {
        assert pages[i] == pages[..n][i];
        assert i in idx;
      } else {
        assert idx'[|idx|] == i;
      }
    }
  }

  // ---------------------------------------------------------------- batches

  /** `num_batches = (num_pages + batch_size - 1) // batch_size`. */
  function NumBatches(n: nat, batchSize: nat): nat
    requires batchSize >= 1
  {
    (n + batchSize - 1) / batchSize
  }

  lemma MulLe(a: nat, b: nat, c: nat)
    requires a <= b
    ensures a * c <= b * c
  {
    assert b * c - a * c == (b - a) * c;
  }

  /** The batch count is the ceiling of `n / batch_size`: the batches cover
      the pages and none of them is left empty. */
  lemma NumBatchesIsCeiling(n: nat, batchSize: nat)
    requires batchSize >= 1
    ensures var q := NumBatches(n, batchSize);
      && n <= q * batchSize
      && (q > 0 ==> (q - 1) * batchSize < n)
      && (q == 0 <==> n == 0)
  {
    var q := NumBatches(n, batchSize);
    var r := (n + batchSize - 1) % batchSize;
    assert n + batchSize - 1 == q * batchSize + r;
    if q > 0 {
      assert (q - 1) * batchSize == q * batchSize - batchSize;
    }
  }

  /** Where batch `idx` starts. */
  lemma BatchStart(n: nat, batchSize: nat, idx: nat)
    requires batchSize >= 1 && idx < NumBatches(n, batchSize)
    ensures idx * batchSize < n
  {
    var q := NumBatches(n, batchSize);
    NumBatchesIsCeiling(n, batchSize);
    MulLe(idx, q - 1, batchSize);
  }

  /** The end of batch `idx`: `min(b_start + batch_size, num_pages)`. */
  function BatchEnd(n: nat, batchSize: nat, idx: nat): nat {
    if idx * batchSize + batchSize < n then idx * batchSize + batchSize else n
  }

  /** `pages_in_range[b_start:b_end]`. */
  function BatchAt(pages: seq<SourcePage>, batchSize: nat, idx: nat): (batch: seq<SourcePage>)
    requires batchSize >= 1 && idx < NumBatches(|pages|, batchSize)
    ensures 1 <= |batch| <= batchSize
  {
    BatchStart(|pages|, batchSize, idx);
    pages[idx * batchSize..BatchEnd(|pages|, batchSize, idx)]
  }

  /** The batches, in order. */
  function Batches(pages: seq<SourcePage>, batchSize: nat): (batches: seq<seq<SourcePage>>)
    requires batchSize >= 1
    ensures |batches| == NumBatches(|pages|, batchSize)
  {
    seq(NumBatches(|pages|, batchSize), idx requires 0 <= idx < NumBatches(|pages|, batchSize) => BatchAt(pages, batchSize, idx))
  }

  predicate AllNonEmpty(batches: seq<seq<SourcePage>>) {
    forall k :: 0 <= k < |batches| ==> |batches[k]| > 0
  }

  /** Every batch holds between one and `batch_size` pages. */
  lemma BatchSizes(pages: seq<SourcePage>, batchSize: nat)
    requires batchSize >= 1
    ensures forall k :: 0 <= k < |Batches(pages, batchSize)| ==> 1 <= |Batches(pages, batchSize)[k]| <= batchSize
  {
  }

  /** The first `k` batches hold the first `min(k * batch_size, n)` pages. */
  lemma {:induction false} BatchesPrefix(pages: seq<SourcePage>, batchSize: nat, k: nat)
    requires batchSize >= 1 && k <= NumBatches(|pages|, batchSize)
    ensures Concat(Batches(pages, batchSize)[..k]) == pages[..if k * batchSize < |pages| then k * batchSize else |pages|]
  {
    var bs := Batches(pages, batchSize);
    if k == 0 {
      assert bs[..0] == [];
    } else {
      BatchesPrefix(pages, batchSize, k - 1);
      BatchStart(|pages|, batchSize, k - 1);
      var s := (k - 1) * batchSize;
      assert k * batchSize == s + batchSize;
      assert bs[..k][..k - 1] == bs[..k - 1];
      assert Concat(bs[..k]) == Concat(bs[..k - 1]) + bs[k - 1];
      assert pages[..s] + pages[s..BatchEnd(|pages|, batchSize, k - 1)] == pages[..BatchEnd(|pages|, batchSize, k - 1)];
    }
  }

  /** The batches, glued back together in order, are exactly the pages. */
  lemma BatchesCover(pages: seq<SourcePage>, batchSize: nat)
    requires batchSize >= 1
    ensures Concat(Batches(pages, batchSize)) == pages
  {
    var q := NumBatches(|pages|, batchSize);
    BatchesPrefix(pages, batchSize, q);
    NumBatchesIsCeiling(|pages|, batchSize);
    assert Batches(pages, batchSize)[..q] == Batches(pages, batchSize);
    assert pages[..|pages|] == pages;
  }

  // ---------------------------------------------------------------- request

  const Preamble: string := "Translate the following pages from English to Reader-Friendly Bangla:\n\n"

  /** `f"=== PAGE {page_num} ===\n{text}\n\n"`. */
  function Section(p: SourcePage): string {
    "=== PAGE " + Render(p.num, Ascii) + " ===\n" + p.text + "\n\n"
  }

  /** The user message `translate_batch` sends for `pages`. */
  function Request(pages: seq<SourcePage>): (content: string)
    ensures |content| >= |Preamble|
    decreases |pages|
  {
    if |pages| == 0 then Preamble else Request(pages[..|pages| - 1]) + Section(pages[|pages| - 1])
  }

  /** The request for the first `k` pages begins the request. */
  lemma {:induction false} RequestPrefix(pages: seq<SourcePage>, k: nat)
    requires k <= |pages|
    ensures Request(pages[..k]) <= Request(pages)
    decreases |pages|
  {
    if k < |pages| {
      var init := pages[..|pages| - 1];
      assert init[..k] == pages[..k];
      RequestPrefix(init, k);
    } else {
      assert pages[..k] == pages;
    }
  }

  /** The request opens with the instruction and then lists the pages in
      order: the request for the first `k` pages is a prefix of the request,
      and page `k`'s section follows it. */
  lemma RequestHoldsPage(pages: seq<SourcePage>, k: nat)
    requires k < |pages|
    ensures var off := |Request(pages[..k])|;
      && Request(pages)[..|Preamble|] == Preamble
      && off + |Section(pages[k])| <= |Request(pages)|
      && Request(pages)[..off] == Request(pages[..k])
      && Request(pages)[off..off + |Section(pages[k])|] == Section(pages[k])
  {
    RequestPrefix(pages, 0);
    RequestPrefix(pages, k + 1);
    assert pages[..k + 1][..k] == pages[..k];
    PrefixParts(Request(pages[..k]), Section(pages[k]), Request(pages));
    assert Request(pages[..0]) == Preamble;
  }

  lemma PrefixParts<T>(a: seq<T>, b: seq<T>, c: seq<T>)
    requires a + b <= c
    ensures c[..|a|] == a && |a| + |b| <= |c| && c[|a|..|a| + |b|] == b
  {
    assert c[..|a| + |b|] == a + b;
  }

  /** The number in a page's header reads back as the page number. */
  lemma SectionNumber(p: SourcePage)
    ensures var ds := Render(p.num, Ascii);
      && Section(p) == "=== PAGE " + ds + " ===\n" + p.text + "\n\n"
      && IsDigits(ds) && Value(ds) == p.num
  {
    ValueOfRender(p.num, Ascii);
  }

  /** The loop of `translate_batch` that builds the user message with `+=`. */
  method BuildRequest(pages: seq<SourcePage>) returns (userContent: string)
    ensures userContent == Request(pages)
  {
    userContent := Preamble;
    var k := 0;
    while k < |pages|
      invariant k <= |pages|
      invariant userContent == Request(pages[..k])
    {
      assert pages[..k + 1][..k] == pages[..k];
      userContent := userContent + Section(pages[k]);
      k := k + 1;
    }
    assert pages[..k] == pages;
  }

  // ---------------------------------------------------------------- the run

  /** What the engine does with one request. */
  datatype Outcome =
    | Translated(raw: string, inTokens: nat, outTokens: nat, cost: real)
    | Failed(error: string)

  /** One line of the run's log, for batch number `batch` (from 1). */
  datatype LogLine =
    | Done(batch: nat, firstPage: nat, lastPage: nat, pageCount: nat, cost: real)
    | Error(batch: nat, error: string)

  /** What the loop has gathered so far. */
  datatype Totals = Totals(translated: seq<PageData>, cost: real, inTokens: nat, outTokens: nat, logs: seq<LogLine>)

  /** The log line for batch `idx` (from 0), with `parse` the reply parser. */
  function LogOf(idx: nat, batch: seq<SourcePage>, outcome: Outcome, parse: string -> seq<PageData>): LogLine
    requires |batch| > 0
  {
    match outcome
    case Translated(raw, _, _, cost) => Done(idx + 1, batch[0].num, batch[|batch| - 1].num, |parse(raw)|, cost)
    case Failed(e) => Error(idx + 1, e)
  }

  /** The records a batch adds: its parsed reply, or nothing when it failed. */
  function Added(outcome: Outcome, parse: string -> seq<PageData>): seq<PageData> {
    match outcome
    case Translated(raw, _, _, _) => parse(raw)
    case Failed(_) => []
  }

  /** One pass of the loop body, batch `idx` (from 0). */
  function Step(t: Totals, idx: nat, batch: seq<SourcePage>, outcome: Outcome, parse: string -> seq<PageData>): (t': Totals)
    requires |batch| > 0
    ensures t'.logs == t.logs + [LogOf(idx, batch, outcome, parse)]
    ensures t'.translated == t.translated + Added(outcome, parse)
  {
    match outcome
    case Translated(raw, inT, outT, cost) =>
      Totals(t.translated + parse(raw), t.cost + cost, t.inTokens + inT, t.outTokens + outT,
        t.logs + [LogOf(idx, batch, outcome, parse)])
    case Failed(e) => t.(logs := t.logs + [LogOf(idx, batch, outcome, parse)])
  }

  /** The engine asked about a batch: the request for its pages is built and
      sent. */
  function Ask(translate: string -> Outcome): seq<SourcePage> -> Outcome {
    pages => translate(Request(pages))
  }

  /** The state after the loop has handled `batches`, where `ask` gives the
      engine's answer for a batch (`Ask(translate)` in the run itself) and
      `parse` is the reply parser (`Parse`). */
  function Run(batches: seq<seq<SourcePage>>, ask: seq<SourcePage> -> Outcome, parse: string -> seq<PageData>): (t: Totals)
    requires AllNonEmpty(batches)
    ensures |t.logs| == |batches|
    decreases |batches|
  {
    if |batches| == 0 then Totals([], 0.0, 0, 0, [])
    else
      var n := |batches| - 1;
      Step(Run(batches[..n], ask, parse), n, batches[n], ask(batches[n]), parse)
  }

  /** Exactly one log line per batch, the `k`-th about batch `k`: an error
      line when the engine failed on it, otherwise its page span, its record
      count and its cost. */
  lemma {:induction false} RunLogs(batches: seq<seq<SourcePage>>, ask: seq<SourcePage> -> Outcome, parse: string -> seq<PageData>)
    requires AllNonEmpty(batches)
    ensures forall k :: 0 <= k < |batches| ==>
      Run(batches, ask, parse).logs[k] == LogOf(k, batches[k], ask(batches[k]), parse)
    decreases |batches|
  {
    if |batches| > 0 {
      var n := |batches| - 1;
      var init := batches[..n];
      RunLogs(init, ask, parse);
      assert forall k :: 0 <= k < n ==> init[k] == batches[k];
    }
  }

  /** The records gathered are the successful batches' parsed replies,
      concatenated in batch order. */
  lemma {:induction false} RunTranslated(batches: seq<seq<SourcePage>>, ask: seq<SourcePage> -> Outcome, parse: string -> seq<PageData>)
    requires AllNonEmpty(batches)
    ensures Run(batches, ask, parse).translated
      == Concat(seq(|batches|, k requires 0 <= k < |batches| => Added(ask(batches[k]), parse)))
    decreases |batches|
  {
    var all := seq(|batches|, k requires 0 <= k < |batches| => Added(ask(batches[k]), parse));
    if |batches| > 0 {
      var n := |batches| - 1;
      var init := batches[..n];
      RunTranslated(init, ask, parse);
      var part := seq(|init|, k requires 0 <= k < |init| => Added(ask(init[k]), parse));
      assert all[..n] == part;
    } else {
      assert all == [];
    }
  }

  /** A batch the engine fails on adds no record and leaves the cost and the
      token counts as they were; it adds only its error line. */
  lemma FailedBatchAddsNothing(batches: seq<seq<SourcePage>>, batch: seq<SourcePage>, ask: seq<SourcePage> -> Outcome, parse: string -> seq<PageData>)
    requires AllNonEmpty(batches) && |batch| > 0 && ask(batch).Failed?
    ensures AllNonEmpty(batches + [batch])
    ensures var before := Run(batches, ask, parse);
      Run(batches + [batch], ask, parse)
        == before.(logs := before.logs + [Error(|batches| + 1, ask(batch).error)])
  {
    assert (batches + [batch])[..|batches|] == batches;
  }

  /** A batch the engine answers adds its parsed reply after the records so
      far, and its cost and token counts to the totals. */
  lemma TranslatedBatchAdds(batches: seq<seq<SourcePage>>, batch: seq<SourcePage>, ask: seq<SourcePage> -> Outcome, parse: string -> seq<PageData>)
    requires AllNonEmpty(batches) && |batch| > 0 && ask(batch).Translated?
    ensures AllNonEmpty(batches + [batch])
    ensures var before := Run(batches, ask, parse);
      var o := ask(batch);
      var after := Run(batches + [batch], ask, parse);
      && after.translated == before.translated + parse(o.raw)
      && after.cost == before.cost + o.cost
      && after.inTokens == before.inTokens + o.inTokens
      && after.outTokens == before.outTokens + o.outTokens
  {
    assert (batches + [batch])[..|batches|] == batches;
  }

  lemma BatchIs(pages: seq<SourcePage>, batchSize: nat, idx: nat)
    requires batchSize >= 1 && idx < NumBatches(|pages|, batchSize)
    ensures 0 <= idx * batchSize < |pages| && idx * batchSize <= BatchEnd(|pages|, batchSize, idx) <= |pages|
    ensures Batches(pages, batchSize)[idx] == pages[idx * batchSize..BatchEnd(|pages|, batchSize, idx)]
  {
    BatchStart(|pages|, batchSize, idx);
  }

  /** The state after batch `k` is one more step after the first `k` batches. */
  lemma RunSnoc(batches: seq<seq<SourcePage>>, k: nat, ask: seq<SourcePage> -> Outcome, parse: string -> seq<PageData>,
                before: Totals, batch: seq<SourcePage>, outcome: Outcome, after: Totals)
    requires AllNonEmpty(batches) && k < |batches|
    requires before == Run(batches[..k], ask, parse)
    requires batch == batches[k] && outcome == ask(batch)
    requires after == Step(before, k, batch, outcome, parse)
    ensures after == Run(batches[..k + 1], ask, parse)
  {
    assert batches[..k + 1][..k] == batches[..k];
  }

  /** `translate_batch`: builds the user message for `pages` and sends it. */
  method TranslateBatch(translate: string -> Outcome, pages: seq<SourcePage>) returns (outcome: Outcome)
    ensures outcome == Ask(translate)(pages)
  {
    var userContent := BuildRequest(pages);
    outcome := translate(userContent);
  }

  /** The body of the batch loop once the reply is in: a translation is
      parsed and its records, cost, tokens and a "done" line are added; a
      failure adds only an error line. */
  method Accumulate(idx: nat, batch: seq<SourcePage>, outcome: Outcome,
                    translated: seq<PageData>, cost: real, inTokens: nat, outTokens: nat, logs: seq<LogLine>)
    returns (translated': seq<PageData>, cost': real, inTokens': nat, outTokens': nat, logs': seq<LogLine>)
    requires |batch| > 0
    ensures Totals(translated', cost', inTokens', outTokens', logs')
         == Step(Totals(translated, cost, inTokens, outTokens, logs), idx, batch, outcome, Parse)
  {
    var firstPage, lastPage := batch[0].num, batch[|batch| - 1].num;
    translated', cost', inTokens', outTokens', logs' := translated, cost, inTokens, outTokens, logs;
    match outcome {
      case Translated(raw, inT, outT, c) =>
        var parsed := ParseTranslation(raw);
        translated' := translated + parsed;
        cost' := cost + c;
        inTokens' := inTokens + inT;
        outTokens' := outTokens + outT;
        logs' := logs + [Done(idx + 1, firstPage, lastPage, |parsed|, c)];
      case Failed(e) =>
        logs' := logs + [Error(idx + 1, e)];
    }
  }

  /** The batch loop of the translate button: each batch is sent, its reply
      parsed, and the records, totals and log lines gathered. */
  method TranslateBatches(pagesInRange: seq<SourcePage>, batchSize: nat, translate: string -> Outcome)
    returns (allTranslated: seq<PageData>, totalCost: real, totalIn: nat, totalOut: nat, logs: seq<LogLine>)
    requires batchSize >= 1
    ensures AllNonEmpty(Batches(pagesInRange, batchSize))
    ensures Totals(allTranslated, totalCost, totalIn, totalOut, logs) == Run(Batches(pagesInRange, batchSize), Ask(translate), Parse)
  {
    ghost var batches := Batches(pagesInRange, batchSize);
    BatchSizes(pagesInRange, batchSize);
    var numPages := |pagesInRange|;
    var numBatches := (numPages + batchSize - 1) / batchSize;
    allTranslated, totalCost, totalIn, totalOut, logs := [], 0.0, 0, 0, [];
    var batchIdx: nat := 0;
    while batchIdx < numBatches
      invariant batchIdx <= numBatches
      invariant Totals(allTranslated, totalCost, totalIn, totalOut, logs) == Run(batches[..batchIdx], Ask(translate), Parse)
    {
      BatchIs(pagesInRange, batchSize, batchIdx);
      var bStart := batchIdx * batchSize;
      var bEnd := if bStart + batchSize < numPages then bStart + batchSize else numPages;
      assert bEnd == BatchEnd(numPages, batchSize, batchIdx);
      var batchPages := pagesInRange[bStart..bEnd];
      ghost var before := Totals(allTranslated, totalCost, totalIn, totalOut, logs);
      var outcome := TranslateBatch(translate, batchPages);
      allTranslated, totalCost, totalIn, totalOut, logs :=
        Accumulate(batchIdx, batchPages, outcome, allTranslated, totalCost, totalIn, totalOut, logs);
      RunSnoc(batches, batchIdx, Ask(translate), Parse, before, batchPages, outcome,
        Totals(allTranslated, totalCost, totalIn, totalOut, logs));
      batchIdx := batchIdx + 1;
    }
    assert batches[..batchIdx] == batches;
  }

  /** The run behind the translate button: read the book, keep the pages in
      `[start_page, end_page]`, and translate them batch by batch. */
  method TranslateBook(texts: seq<string>, startPage: int, endInput: int, batchSize: nat, translate: string -> Outcome)
    returns (result: Totals)
    requires batchSize >= 1
    ensures var pages := Extracted(Cleaned(texts), 0, |texts|);
      var inRange := InRange(pages, startPage, RangeEnd(endInput, |texts|));
      AllNonEmpty(Batches(inRange, batchSize)) && result == Run(Batches(inRange, batchSize), Ask(translate), Parse)
  {
    var pages, totalPages := ExtractPages(texts, 1, None);
    var endPage := if endInput > 0 then endInput else totalPages;
    var pagesInRange := InRange(pages, startPage, endPage);
    var allTranslated, totalCost, totalIn, totalOut, logs := TranslateBatches(pagesInRange, batchSize, translate);
    result := Totals(allTranslated, totalCost, totalIn, totalOut, logs);
  }
}
