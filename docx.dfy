/** What `build_docx` writes into the Word document for the translated pages
    (app.py:206-277): which paragraphs each page yields, with which runs, set
    bold or italic, in which order, and where page breaks fall. The document
    is a sequence of blocks the builder appends to; fonts, sizes, colours,
    alignment, spacing, margins, header, footer and the closing page are not
    modelled. */
module Docx {
  import opened Wrappers
  import opened Text
  import opened Numerals
  import Parser

  type PageData = Parser.PageData

  /** A run of text and whether it is set bold or italic. */
  datatype TextRun = TextRun(text: string, bold: bool, italic: bool)

  /** What a paragraph shows, in the order the builder adds them on a page. */
  datatype Kind = HeadingPara | HeadingEnPara | QuotePara | BodyPara | ItemPara | ClosingPara | RawPara

  /** One thing added to the document: a page break or a paragraph of runs. */
  datatype Block = PageBreak | Para(kind: Kind, runs: seq<TextRun>)

  function Plain(s: string): TextRun {
    TextRun(s, false, false)
  }

  /** The paragraph `b` when `present`, nothing otherwise. */
  function Optional(present: bool, b: Block): seq<Block> {
    if present then [b] else []
  }

  // ---------------------------------------------------------------- quote

  /** The characters `.strip('""“”')` removes from the quote's ends. */
  predicate IsQuoteMark(c: char) {
    c == '"' || c == '\U{201C}' || c == '\U{201D}'
  }

  const OpenQuote: string := "\U{201C}"
  const CloseQuote: string := "\U{201D}"

  /** The quote with the quote marks at its ends removed and curly marks put
      around it. */
  function QuoteText(q: string): (r: string)
    ensures |r| >= 2 && r[..1] == OpenQuote && r[|r| - 1..] == CloseQuote
    ensures TrimmedOf(r[1..|r| - 1], IsQuoteMark)
  {
    var inner := StripChars(q, IsQuoteMark);
    assert (OpenQuote + inner + CloseQuote)[1..|inner| + 1] == inner;
    OpenQuote + inner + CloseQuote
  }

  /** Whatever straight or curly marks surround a quote, the paragraph shows
      the same text between one pair of curly marks. */
  lemma QuoteTextOf(a: string, t: string, b: string)
    requires AllIn(a, IsQuoteMark) && AllIn(b, IsQuoteMark) && TrimmedOf(t, IsQuoteMark)
    ensures QuoteText(a + t + b) == OpenQuote + t + CloseQuote
  {
    StripCharsUnique(a, t, b, IsQuoteMark);
  }

  /** Re-wrapping an already wrapped quote changes nothing. */
  lemma QuoteTextIdempotent(q: string)
    ensures QuoteText(QuoteText(q)) == QuoteText(q)
  {
    var inner := StripChars(q, IsQuoteMark);
    assert IsQuoteMark(OpenQuote[0]) && IsQuoteMark(CloseQuote[0]);
    QuoteTextOf(OpenQuote, inner, CloseQuote);
  }

  // ---------------------------------------------------------------- items

  const Stars: string := "**"

  /** The two groups of `re.match(r'\*\*(.+?)\*\*\s*(.*)', item, re.DOTALL)`. */
  datatype Lead = Lead(bold: string, rest: string)

  /** `item` reads `**`, the bold text `b`, `**`, the whitespace `ws` and
      then `rest`: `b` is not empty and is the shortest that works (the lazy
      group), `ws` takes all the whitespace (the greedy `\s*`) and `rest`
      is everything after it. */
  predicate IsBoldLead(item: string, b: string, ws: string, rest: string) {
    && item == Stars + b + Stars + ws + rest
    && |b| >= 1
    && (forall j :: 3 <= j < 2 + |b| ==> !PrefixAt(item, j, Stars))
    && AllSpace(ws)
    && (rest == [] || !IsSpace(rest[0]))
  }

  /** The match of the bold-lead pattern at the start of `item`, if any. */
  function BoldLead(item: string): (r: Option<Lead>) {
    if PrefixAt(item, 0, Stars) then
      match FindFrom(item, Stars, 3)
      case None => None
      case Some(k) =>
        var after := item[k + 2..];
        Some(Lead(item[2..k], after[LeadingIn(after, IsSpace)..]))
    else None
  }

  /** A match found splits the item as the pattern says. */
  lemma BoldLeadSound(item: string)
    requires BoldLead(item).Some?
    ensures exists ws :: IsBoldLead(item, BoldLead(item).value.bold, ws, BoldLead(item).value.rest)
  {
    var k := FindFrom(item, Stars, 3).value;
    FindFromSpec(item, Stars, 3);
    var after := item[k + 2..];
    var n := LeadingIn(after, IsSpace);
    LeadingInSpec(after, IsSpace);
    BoldLeadParts(item, k, n);
  }

  /** The cut points of a match: `**` at 0 and at `k`, none in between, and
      `n` whitespace characters after the second `**`. */
  lemma BoldLeadParts(item: string, k: nat, n: nat)
    requires 3 <= k && PrefixAt(item, 0, Stars) && PrefixAt(item, k, Stars)
    requires forall j :: 3 <= j < k ==> !PrefixAt(item, j, Stars)
    requires n <= |item[k + 2..]| && AllSpace(item[k + 2..][..n])
    requires n < |item[k + 2..]| ==> !IsSpace(item[k + 2..][n])
    ensures IsBoldLead(item, item[2..k], item[k + 2..][..n], item[k + 2..][n..])
  {
    var after := item[k + 2..];
    var b, ws, rest := item[2..k], after[..n], after[n..];
    assert after == ws + rest;
    Regroup(item, 2, k, k + 2, Stars, b, Stars, ws, rest);
    assert rest != [] ==> rest[0] == after[n];
  }

  /** A sequence cut at three points reads as its five named parts. */
  lemma Regroup<T>(t: seq<T>, i: nat, j: nat, k: nat, p0: seq<T>, p1: seq<T>, p2: seq<T>, p3: seq<T>, p4: seq<T>)
    requires i <= j <= k <= |t|
    requires t[..i] == p0 && t[i..j] == p1 && t[j..k] == p2 && t[k..] == p3 + p4
    ensures t == p0 + p1 + p2 + p3 + p4
  {
    assert t == t[..i] + t[i..j] + t[j..k] + t[k..];
  }

  /** Every split of the item of the pattern's shape is the match found. */
  lemma BoldLeadComplete(item: string, b: string, ws: string, rest: string)
    requires IsBoldLead(item, b, ws, rest)
    ensures BoldLead(item) == Some(Lead(b, rest))
  {
    var k := 2 + |b|;
    BoldLeadShape(item, b, ws, rest);
    FindFromSpec(item, Stars, 3);
    assert FindFrom(item, Stars, 3) == Some(k);
    LeadingInRun(ws, rest, IsSpace);
  }

  /** Where the parts of a bold-lead split sit in the item. */
  lemma BoldLeadShape(item: string, b: string, ws: string, rest: string)
    requires IsBoldLead(item, b, ws, rest)
    ensures PrefixAt(item, 0, Stars) && PrefixAt(item, 2 + |b|, Stars)
    ensures item[2..2 + |b|] == b && item[2 + |b| + 2..] == ws + rest
    ensures (ws + rest)[|ws|..] == rest
  {
    var k := 2 + |b|;
    assert item[..2] == Stars;
    assert item[k..k + 2] == Stars;
    assert item[2..k] == b;
    assert item[k + 2..] == ws + rest;
  }

  /** The pattern matches exactly when the item has its shape. */
  lemma BoldLeadIff(item: string)
    ensures BoldLead(item).Some? <==> exists b, ws, rest :: IsBoldLead(item, b, ws, rest)
  {
    if BoldLead(item).Some? {
      BoldLeadSound(item);
    }
    if exists b, ws, rest :: IsBoldLead(item, b, ws, rest) {
      var b, ws, rest :| IsBoldLead(item, b, ws, rest);
      BoldLeadComplete(item, b, ws, rest);
    }
  }

  /** The runs of item `j` (counting from 0): with a bold lead, a bold run
      "num. X" and a plain run " rest"; otherwise one plain run "num. item". */
  function ItemRuns(j: nat, item: string): seq<TextRun> {
    var num := ItemLabel(j);
    match BoldLead(item)
    case Some(l) => [TextRun(num + ". " + l.bold, true, false), Plain(" " + l.rest)]
    case None => [Plain(num + ". " + item)]
  }

  /** An item of the form `**X** rest` is numbered, with the number and `X`
      in bold. */
  lemma ItemRunsBold(j: nat, item: string, b: string, ws: string, rest: string)
    requires IsBoldLead(item, b, ws, rest)
    ensures ItemRuns(j, item) == [TextRun(ItemLabel(j) + ". " + b, true, false), Plain(" " + rest)]
    ensures Value(ItemLabel(j)) == j + 1
  {
    BoldLeadComplete(item, b, ws, rest);
    ItemLabelSpec(j);
  }

  /** Any other item is numbered and shown whole in one plain run. */
  lemma ItemRunsPlain(j: nat, item: string)
    requires forall b, ws, rest :: !IsBoldLead(item, b, ws, rest)
    ensures ItemRuns(j, item) == [Plain(ItemLabel(j) + ". " + item)]
    ensures Value(ItemLabel(j)) == j + 1
  {
    BoldLeadIff(item);
    ItemLabelSpec(j);
  }

  /** One paragraph per item, in order, item `j` numbered `j + 1`. */
  function ItemParas(items: seq<string>): (paras: seq<Block>)
    ensures |paras| == |items|
  {
    if items == [] then []
    else
      var j := |items| - 1;
      ItemParas(items[..j]) + [Para(ItemPara, ItemRuns(j, items[j]))]
  }

  /** Paragraph `j` of the items shows item `j` with its number. */
  lemma {:induction false} ItemParasAt(items: seq<string>, j: nat)
    requires j < |items|
    ensures ItemParas(items)[j] == Para(ItemPara, ItemRuns(j, items[j]))
  {
    var n := |items| - 1;
    if j < n {
      ItemParasAt(items[..n], j);
    }
  }

  // ---------------------------------------------------------------- raw text

  const ParaSep: string := "\n\n"

  /** One plain paragraph per chunk that is not blank once stripped. */
  function RawParas(chunks: seq<string>): (paras: seq<Block>)
    ensures |paras| <= |chunks|
  {
    if chunks == [] then []
    else
      var pt := Strip(chunks[|chunks| - 1]);
      RawParas(chunks[..|chunks| - 1]) + Optional(pt != "", Para(RawPara, [Plain(pt)]))
  }

  /** `b` is a raw paragraph: one plain run holding one of the chunks,
      stripped and not blank. */
  predicate IsRawPara(b: Block, chunks: seq<string>) {
    b.Para? && b.kind == RawPara
    && exists i :: 0 <= i < |chunks| && Strip(chunks[i]) != "" && b.runs == [Plain(Strip(chunks[i]))]
  }

  /** Every raw paragraph shows one chunk, stripped and not blank. */
  lemma {:induction false} RawParasSound(chunks: seq<string>)
    ensures forall k :: 0 <= k < |RawParas(chunks)| ==> IsRawPara(RawParas(chunks)[k], chunks)
    decreases |chunks|
  {
    if chunks != [] {
      var n := |chunks| - 1;
      var init := chunks[..n];
      RawParasSound(init);
      var paras := RawParas(chunks);
      forall k | 0 <= k < |paras| ensures IsRawPara(paras[k], chunks) {
        if k < |RawParas(init)| {
          var i :| 0 <= i < |init| && Strip(init[i]) != "" && RawParas(init)[k].runs == [Plain(Strip(init[i]))];
          assert init[i] == chunks[i];
          assert paras[k] == RawParas(init)[k];
        } else {
          assert paras[k] == Para(RawPara, [Plain(Strip(chunks[n]))]);
        }
      }
    }
  }

  /** No chunk that is not blank once stripped is dropped. */
  lemma {:induction false} RawParasComplete(chunks: seq<string>, i: nat)
    requires i < |chunks| && Strip(chunks[i]) != ""
    ensures Para(RawPara, [Plain(Strip(chunks[i]))]) in RawParas(chunks)
    decreases |chunks|
  {
    var init := chunks[..|chunks| - 1];
    if i < |chunks| - 1 {
      assert init[i] == chunks[i];
      RawParasComplete(init, i);
    }
  }

  /** `idx` lists, in increasing order and without gaps, exactly the chunks
      that are not blank once stripped, and the paragraphs show those chunks
      one for one, in that order. */
  ghost predicate RawIndexing(chunks: seq<string>, paras: seq<Block>, idx: seq<nat>) {
    && |idx| == |paras|
    && (forall k :: 0 <= k < |idx| ==>
          idx[k] < |chunks| && Strip(chunks[idx[k]]) != ""
          && paras[k] == Para(RawPara, [Plain(Strip(chunks[idx[k]]))]))
    && (forall k, l :: 0 <= k < l < |idx| ==> idx[k] < idx[l])
    && (forall i :: 0 <= i < |chunks| && Strip(chunks[i]) != "" ==> i in idx)
  }

  /** The raw paragraphs are one per non-blank chunk, in chunk order: a chunk
      repeated gives its paragraph twice, and none is moved. */
  lemma RawParasExact(chunks: seq<string>)
    ensures exists idx: seq<nat> :: RawIndexing(chunks, RawParas(chunks), idx)
  {
    var idx := RawParasIndices(chunks);
  }

  /** The positions of the non-blank chunks, built chunk by chunk. */
  lemma {:induction false} RawParasIndices(chunks: seq<string>) returns (idx: seq<nat>)
    ensures RawIndexing(chunks, RawParas(chunks), idx)
    decreases |chunks|
  {
    if chunks == [] {
      idx := [];
    } else {
      var n := |chunks| - 1;
      var before := RawParasIndices(chunks[..n]);
      var pt := Strip(chunks[n]);
      if pt != "" {
        IndexingKeep(chunks, RawParas(chunks[..n]), before);
        idx := before + [n];
      } else {
        IndexingSkip(chunks, RawParas(chunks[..n]), before);
        idx := before;
      }
    }
  }

  /** A blank last chunk adds no paragraph and no position. */
  lemma IndexingSkip(chunks: seq<string>, paras: seq<Block>, idx: seq<nat>)
    requires |chunks| > 0 && Strip(chunks[|chunks| - 1]) == ""
    requires RawIndexing(chunks[..|chunks| - 1], paras, idx)
    ensures RawIndexing(chunks, paras, idx)
  {
    var n := |chunks| - 1;
    forall k | 0 <= k < |idx| ensures chunks[idx[k]] == chunks[..n][idx[k]] { }
    forall i | 0 <= i < n && Strip(chunks[i]) != "" ensures i in idx {
      assert chunks[i] == chunks[..n][i];
    }
  }

  /** A last chunk that is not blank adds its paragraph and its position. */
  lemma IndexingKeep(chunks: seq<string>, paras: seq<Block>, idx: seq<nat>)
    requires |chunks| > 0 && Strip(chunks[|chunks| - 1]) != ""
    requires RawIndexing(chunks[..|chunks| - 1], paras, idx)
    ensures RawIndexing(chunks, paras + [Para(RawPara, [Plain(Strip(chunks[|chunks| - 1]))])], idx + [|chunks| - 1])
  {
    var n := |chunks| - 1;
    var idx' := idx + [n];
    var paras' := paras + [Para(RawPara, [Plain(Strip(chunks[n]))])];
    forall k | 0 <= k < |idx'|
      ensures idx'[k] < |chunks| && Strip(chunks[idx'[k]]) != ""
      ensures paras'[k] == Para(RawPara, [Plain(Strip(chunks[idx'[k]]))])
    {
      if k < |idx| {
        assert chunks[idx[k]] == chunks[..n][idx[k]];
      }
    }
    forall i | 0 <= i < |chunks| && Strip(chunks[i]) != "" ensures i in idx' {
      if i < n {
        assert chunks[i] == chunks[..n][i];
        assert i in idx;
      } else {
        assert idx'[|idx|] == i;
      }
    }
  }

  /** Text with no blank-line separator, not blank, gives one paragraph: the
      text stripped. */
  lemma RawParasSingle(raw: string)
    requires FindFrom(raw, ParaSep, 0).None? && Strip(raw) != ""
    ensures RawParas(SplitOn(raw, ParaSep)) == [Para(RawPara, [Plain(Strip(raw))])]
  {
    RemoveAllNone(raw, ParaSep);
    assert [raw][..0] == [];
  }

  // ---------------------------------------------------------------- one page

  /** The raw text is shown only when heading, body, items and closing are
      all empty (`heading_en` and `quote` do not count) and it is not empty. */
  predicate UsesRaw(pd: PageData) {
    pd.heading == "" && pd.body == "" && pd.items == [] && pd.closing == "" && pd.raw != ""
  }

  function HeadingSection(pd: PageData): seq<Block> {
    Optional(pd.heading != "", Para(HeadingPara, [TextRun(pd.heading, true, false)]))
  }

  /** The English heading, in parentheses. */
  function HeadingEnSection(pd: PageData): seq<Block> {
    Optional(pd.headingEn != "", Para(HeadingEnPara, [Plain("(" + pd.headingEn + ")")]))
  }

  /** The quote, re-wrapped in curly marks, in italics. */
  function QuoteSection(pd: PageData): seq<Block> {
    Optional(pd.quote != "", Para(QuotePara, [TextRun(QuoteText(pd.quote), false, true)]))
  }

  function BodySection(pd: PageData): seq<Block> {
    Optional(pd.body != "", Para(BodyPara, [Plain(pd.body)]))
  }

  function ClosingSection(pd: PageData): seq<Block> {
    Optional(pd.closing != "", Para(ClosingPara, [Plain(pd.closing)]))
  }

  function RawSection(pd: PageData): seq<Block> {
    if UsesRaw(pd) then RawParas(SplitOn(pd.raw, ParaSep)) else []
  }

  /** The paragraphs of a page, group by group, in the order they are added. */
  function Sections(pd: PageData): (parts: seq<seq<Block>>)
    ensures |parts| == 7
  {
    [HeadingSection(pd), HeadingEnSection(pd), QuoteSection(pd), BodySection(pd),
     ItemParas(pd.items), ClosingSection(pd), RawSection(pd)]
  }

  /** The blocks one page adds to the document. */
  function PageContent(pd: PageData): seq<Block> {
    Concat(Sections(pd))
  }

  /** Gluing the groups of a page is appending them one after another. */
  lemma PageContentIs(pd: PageData)
    ensures PageContent(pd) == HeadingSection(pd) + HeadingEnSection(pd) + QuoteSection(pd) + BodySection(pd)
      + ItemParas(pd.items) + ClosingSection(pd) + RawSection(pd)
  {
    SevenGroups(Sections(pd));
  }

  /** Gluing seven groups is appending them one after another. */
  lemma SevenGroups<T>(parts: seq<seq<T>>)
    requires |parts| == 7
    ensures Concat(parts) == parts[0] + parts[1] + parts[2] + parts[3] + parts[4] + parts[5] + parts[6]
  {
    assert parts[..0] == [];
    ConcatStep(parts, 0);
    assert Concat(parts[..1]) == parts[0];
    ConcatStep(parts, 1);
    ConcatStep(parts, 2);
    ConcatStep(parts, 3);
    ConcatStep(parts, 4);
    ConcatStep(parts, 5);
    ConcatStep(parts, 6);
    assert parts[..7] == parts;
  }

  lemma ConcatStep<T>(parts: seq<seq<T>>, n: nat)
    requires n < |parts|
    ensures Concat(parts[..n + 1]) == Concat(parts[..n]) + parts[n]
  {
    assert parts[..n + 1][..n] == parts[..n];
  }

  /** The place of each kind of block on a page. */
  function Rank(b: Block): nat {
    match b
    case PageBreak => 7
    case Para(kind, _) =>
      match kind
      case HeadingPara => 0
      case HeadingEnPara => 1
      case QuotePara => 2
      case BodyPara => 3
      case ItemPara => 4
      case ClosingPara => 5
      case RawPara => 6
  }

  /** Every block of `bs` has rank `r`. */
  predicate RankIs(bs: seq<Block>, r: nat) {
    forall b :: b in bs ==> Rank(b) == r
  }

  /** Group `s` holds blocks of rank `s` only. */
  predicate Layered(parts: seq<seq<Block>>) {
    forall s :: 0 <= s < |parts| ==> RankIs(parts[s], s)
  }

  lemma {:induction false} RawParasRank(chunks: seq<string>)
    ensures RankIs(RawParas(chunks), 6)
  {
    if chunks != [] {
      RawParasRank(chunks[..|chunks| - 1]);
    }
  }

  lemma RawSectionRank(pd: PageData)
    ensures RankIs(RawSection(pd), 6)
  {
    RawParasRank(SplitOn(pd.raw, ParaSep));
  }

  lemma {:induction false} ItemParasRank(items: seq<string>)
    ensures RankIs(ItemParas(items), 4)
  {
    if items != [] {
      ItemParasRank(items[..|items| - 1]);
    }
  }

  lemma SectionsLayered(pd: PageData)
    ensures Layered(Sections(pd))
  {
    var parts := Sections(pd);
    RawSectionRank(pd);
    ItemParasRank(pd.items);
    assert RankIs(parts[0], 0) && RankIs(parts[1], 1) && RankIs(parts[2], 2) && RankIs(parts[3], 3);
    assert RankIs(parts[4], 4) && RankIs(parts[5], 5) && RankIs(parts[6], 6);
  }

  /** Blocks of increasing rank, with no page break. */
  predicate Ordered(bs: seq<Block>) {
    && (forall k :: 0 <= k < |bs| ==> Rank(bs[k]) < 7)
    && (forall k, l :: 0 <= k < l < |bs| ==> Rank(bs[k]) <= Rank(bs[l]))
  }

  /** Gluing layered groups keeps the blocks in rank order, and a block of
      the first `n` groups has rank below `n`. */
  lemma {:induction false} ConcatLayered(parts: seq<seq<Block>>, n: nat)
    requires n <= |parts| <= 7 && Layered(parts)
    ensures Ordered(Concat(parts[..n]))
    ensures forall b :: b in Concat(parts[..n]) ==> Rank(b) < n
  {
    if n > 0 {
      ConcatLayered(parts, n - 1);
      ConcatStep(parts, n - 1);
      var c := Concat(parts[..n - 1]);
      var last := parts[n - 1];
      OrderedAppend(c, last, n - 1);
    } else {
      assert parts[..0] == [];
    }
  }

  lemma OrderedAppend(c: seq<Block>, last: seq<Block>, r: nat)
    requires r < 7 && Ordered(c) && (forall b :: b in c ==> Rank(b) < r + 1) && RankIs(last, r)
    requires forall b :: b in c ==> Rank(b) <= r
    ensures Ordered(c + last)
    ensures forall b :: b in c + last ==> Rank(b) < r + 1
  {
    var all := c + last;
    forall k, l | 0 <= k < l < |all| ensures Rank(all[k]) <= Rank(all[l]) {
      if l < |c| {
        assert all[k] == c[k] && all[l] == c[l];
      } else {
        assert all[l] == last[l - |c|];
        if k < |c| { assert all[k] == c[k]; } else { assert all[k] == last[k - |c|]; }
      }
    }
  }

  /** A page's paragraphs come in the builder's order: heading, English
      heading, quote, body, items, closing, raw text; a page adds no page
      break. */
  lemma PageContentOrdered(pd: PageData)
    ensures Ordered(PageContent(pd))
  {
    SectionsLayered(pd);
    ConcatLayered(Sections(pd), 7);
    assert Sections(pd)[..7] == Sections(pd);
  }

  /** `bs` holds a block of rank `r`. */
  predicate HasRank(bs: seq<Block>, r: nat) {
    exists b :: b in bs && Rank(b) == r
  }

  /** A paragraph of rank `r` is on the page exactly when group `r` is not
      empty. */
  lemma HasRankIff(pd: PageData, r: nat)
    requires r < 7
    ensures HasRank(PageContent(pd), r) <==> Sections(pd)[r] != []
  {
    var parts := Sections(pd);
    SectionsLayered(pd);
    ConcatLayered(parts, 7);
    assert parts[..7] == parts;
    if HasRank(PageContent(pd), r) {
      var b :| b in PageContent(pd) && Rank(b) == r;
      ConcatOrigin(parts, b);
    }
    if parts[r] != [] {
      ConcatHolds(parts, r, parts[r][0]);
    }
  }

  /** Every block of every group is in the glued groups. */
  lemma {:induction false} ConcatHolds<T>(parts: seq<seq<T>>, s: nat, b: T)
    requires s < |parts| && b in parts[s]
    ensures b in Concat(parts)
    decreases |parts|
  {
    var pre := parts[..|parts| - 1];
    if s < |parts| - 1 {
      assert pre[s] == parts[s];
      ConcatHolds(pre, s, b);
    }
  }

  /** Each block of the glued groups lies in one of them. */
  lemma {:induction false} ConcatOrigin(parts: seq<seq<Block>>, b: Block)
    requires b in Concat(parts)
    ensures exists s :: 0 <= s < |parts| && b in parts[s]
    decreases |parts|
  {
    var n := |parts|;
    var pre := parts[..n - 1];
    if b in Concat(pre) {
      ConcatOrigin(pre, b);
      var s :| 0 <= s < |pre| && b in pre[s];
      assert pre[s] == parts[s];
    } else {
      assert b in parts[n - 1];
    }
  }

  /** The raw-text fallback shows exactly when heading, body, items and
      closing are all empty, the raw text is not empty, and one of its
      chunks is not blank. */
  lemma FallbackIff(pd: PageData)
    ensures HasRank(PageContent(pd), 6) <==> UsesRaw(pd) && SomeNonBlank(SplitOn(pd.raw, ParaSep))
  {
    HasRankIff(pd, 6);
    assert Sections(pd)[6] == RawSection(pd);
    var chunks := SplitOn(pd.raw, ParaSep);
    RawNonEmptyIff(chunks);
    assert RawSection(pd) != [] <==> UsesRaw(pd) && RawParas(chunks) != [];
  }

  /** One of the chunks is not blank once stripped. */
  predicate SomeNonBlank(chunks: seq<string>) {
    exists i :: 0 <= i < |chunks| && Strip(chunks[i]) != ""
  }

  /** Some paragraph comes out of the chunks exactly when one of them is not
      blank. */
  lemma RawNonEmptyIff(chunks: seq<string>)
    ensures RawParas(chunks) != [] <==> SomeNonBlank(chunks)
  {
    if SomeNonBlank(chunks) {
      var i :| 0 <= i < |chunks| && Strip(chunks[i]) != "";
      RawParasComplete(chunks, i);
    }
    RawParasSound(chunks);
    if RawParas(chunks) != [] {
      assert IsRawPara(RawParas(chunks)[0], chunks);
    }
  }

  /** A page that the reply's fallback produced (no page markers) shows its
      text as one body paragraph. */
  lemma FallbackPageIsBody(rawText: string)
    requires Strip(rawText) != ""
    ensures PageContent(Parser.Fallback(rawText)) == [Para(BodyPara, [Plain(Strip(rawText))])]
  {
    var pd := Parser.Fallback(rawText);
    PageContentIs(pd);
    assert ItemParas(pd.items) == [];
    assert RawSection(pd) == [];
  }

  // ---------------------------------------------------------------- document

  /** The contents of the pages, in order. */
  function PageContents(pages: seq<PageData>): (contents: seq<seq<Block>>)
    ensures |contents| == |pages|
  {
    seq(|pages|, k requires 0 <= k < |pages| => PageContent(pages[k]))
  }

  /** The document body: the pages' contents with a page break before every
      page but the first. */
  function Document(pages: seq<PageData>): seq<Block> {
    Join(PageContents(pages), [PageBreak])
  }

  lemma {:induction false} JoinSnoc<T>(parts: seq<seq<T>>, p: seq<T>, sep: seq<T>)
    requires |parts| >= 1
    ensures Join(parts + [p], sep) == Join(parts, sep) + sep + p
    decreases |parts|
  {
    if |parts| == 1 {
      assert (parts + [p])[1..] == [p];
    } else {
      assert (parts + [p])[1..] == parts[1..] + [p];
      JoinSnoc(parts[1..], p, sep);
    }
  }

  /** Adding a page after the first adds a page break and then its content. */
  lemma DocumentSnoc(pages: seq<PageData>, pd: PageData)
    ensures Document(pages + [pd]) == if pages == [] then PageContent(pd) else Document(pages) + [PageBreak] + PageContent(pd)
  {
    assert PageContents(pages + [pd]) == PageContents(pages) + [PageContent(pd)];
    if pages != [] {
      JoinSnoc(PageContents(pages), PageContent(pd), [PageBreak]);
    }
  }

  /** Cutting the document at its page breaks gives back each page's content,
      in order: there is one break between consecutive pages and none
      elsewhere. */
  lemma DocumentSplit(pages: seq<PageData>)
    requires |pages| >= 1
    ensures SplitOn(Document(pages), [PageBreak]) == PageContents(pages)
  {
    var contents := PageContents(pages);
    forall k | 0 <= k < |contents| ensures PageBreak !in contents[k] {
      PageContentOrdered(pages[k]);
    }
    SplitJoinSingle(contents, PageBreak);
  }

  // ---------------------------------------------------------------- builder

  /** The item loop: one numbered paragraph per item. */
  method AddItems(doc: seq<Block>, items: seq<string>) returns (doc': seq<Block>)
    ensures doc' == doc + ItemParas(items)
  {
    doc' := doc;
    var j := 0;
    while j < |items|
      invariant j <= |items|
      invariant doc' == doc + ItemParas(items[..j])
    {
      var num := if j < |BanglaNums| then BanglaNums[j] else Render(j + 1, Ascii);
      ItemLabelSpec(j);
      var runs;
      match BoldLead(items[j]) {
        case Some(l) => runs := [TextRun(num + ". " + l.bold, true, false), Plain(" " + l.rest)];
        case None => runs := [Plain(num + ". " + items[j])];
      }
      assert runs == ItemRuns(j, items[j]);
      ItemParasStep(items, j);
      AppendAssoc(doc, ItemParas(items[..j]), [Para(ItemPara, runs)]);
      doc' := doc' + [Para(ItemPara, runs)];
      j := j + 1;
    }
    assert items[..j] == items;
  }

  lemma ItemParasStep(items: seq<string>, j: nat)
    requires j < |items|
    ensures ItemParas(items[..j + 1]) == ItemParas(items[..j]) + [Para(ItemPara, ItemRuns(j, items[j]))]
  {
    assert items[..j + 1][..j] == items[..j];
  }

  lemma RawParasStep(chunks: seq<string>, i: nat)
    requires i < |chunks|
    ensures RawParas(chunks[..i + 1])
         == RawParas(chunks[..i]) + Optional(Strip(chunks[i]) != "", Para(RawPara, [Plain(Strip(chunks[i]))]))
  {
    assert chunks[..i + 1][..i] == chunks[..i];
  }

  lemma AppendAssoc<T>(a: seq<T>, b: seq<T>, c: seq<T>)
    ensures a + b + c == a + (b + c)
  {
  }

  /** The raw-text loop: one paragraph per chunk between blank lines that
      is not blank once stripped. */
  method AddRaw(doc: seq<Block>, raw: string) returns (doc': seq<Block>)
    ensures doc' == doc + RawParas(SplitOn(raw, ParaSep))
  {
    var chunks := SplitOn(raw, ParaSep);
    doc' := doc;
    var i := 0;
    while i < |chunks|
      invariant i <= |chunks|
      invariant doc' == doc + RawParas(chunks[..i])
    {
      var pt := Strip(chunks[i]);
      RawParasStep(chunks, i);
      ghost var added := Optional(pt != "", Para(RawPara, [Plain(pt)]));
      AppendAssoc(doc, RawParas(chunks[..i]), added);
      if pt != "" {
        doc' := doc' + [Para(RawPara, [Plain(pt)])];
      }
      assert doc' == doc + RawParas(chunks[..i]) + added;
      i := i + 1;
    }
    assert chunks[..i] == chunks;
  }

  /** `if pd.get(field): doc.add_paragraph(...)`: the paragraph is added
      only when its field is not empty. */
  method AddOptional(doc: seq<Block>, present: bool, b: Block) returns (doc': seq<Block>)
    ensures doc' == doc + Optional(present, b)
  {
    doc' := doc;
    if present {
      doc' := doc' + [b];
    }
  }

  /** The raw-text fallback: only when heading, body, items and closing are
      all empty and the raw text is not. */
  method AddFallback(doc: seq<Block>, pd: PageData) returns (doc': seq<Block>)
    ensures doc' == doc + RawSection(pd)
  {
    doc' := doc;
    if !(pd.heading != "" || pd.body != "" || |pd.items| > 0 || pd.closing != "") {
      if pd.raw != "" {
        doc' := AddRaw(doc', pd.raw);
      }
    }
  }

  /** The body of the page loop: the page's paragraphs, group by group. */
  method AddPage(doc: seq<Block>, pd: PageData) returns (doc': seq<Block>)
    ensures doc' == doc + PageContent(pd)
  {
    var d1 := AddOptional(doc, pd.heading != "", Para(HeadingPara, [TextRun(pd.heading, true, false)]));
    var d2 := AddOptional(d1, pd.headingEn != "", Para(HeadingEnPara, [Plain("(" + pd.headingEn + ")")]));
    var qt := StripChars(pd.quote, IsQuoteMark);
    var d3 := AddOptional(d2, pd.quote != "", Para(QuotePara, [TextRun(OpenQuote + qt + CloseQuote, false, true)]));
    var d4 := AddOptional(d3, pd.body != "", Para(BodyPara, [Plain(pd.body)]));
    var d5 := AddItems(d4, pd.items);
    var d6 := AddOptional(d5, pd.closing != "", Para(ClosingPara, [Plain(pd.closing)]));
    doc' := AddFallback(d6, pd);
    PageContentIs(pd);
    AppendGroups(doc, HeadingSection(pd), HeadingEnSection(pd), QuoteSection(pd), BodySection(pd),
      ItemParas(pd.items), ClosingSection(pd), RawSection(pd), d1, d2, d3, d4, d5, d6, doc');
  }

  /** Appending seven groups one at a time appends them all. */
  lemma AppendGroups<T>(doc: seq<T>, a: seq<T>, b: seq<T>, c: seq<T>, d: seq<T>, e: seq<T>, f: seq<T>, g: seq<T>,
                        d1: seq<T>, d2: seq<T>, d3: seq<T>, d4: seq<T>, d5: seq<T>, d6: seq<T>, out: seq<T>)
    requires d1 == doc + a && d2 == d1 + b && d3 == d2 + c && d4 == d3 + d
    requires d5 == d4 + e && d6 == d5 + f && out == d6 + g
    ensures out == doc + (a + b + c + d + e + f + g)
  {
  }

  /** `build_docx`'s page loop: a page break before every page but the
      first, then the page's paragraphs. */
  method BuildDocument(pages: seq<PageData>) returns (doc: seq<Block>)
    ensures doc == Document(pages)
  {
    doc := [];
    ghost var contents: seq<seq<Block>> := [];
    var idx := 0;
    while idx < |pages|
      invariant idx <= |pages| && |contents| == idx
      invariant forall k :: 0 <= k < idx ==> contents[k] == PageContent(pages[k])
      invariant doc == Join(contents, [PageBreak])
    {
      ghost var before := doc;
      if idx > 0 {
        doc := doc + [PageBreak];
      }
      doc := AddPage(doc, pages[idx]);
      JoinStep(contents, PageContent(pages[idx]), [PageBreak], before, doc);
      contents := contents + [PageContent(pages[idx])];
      idx := idx + 1;
    }
    assert contents == PageContents(pages);
  }

  /** One more part joins after a separator, unless it is the first. */
  lemma JoinStep<T>(parts: seq<seq<T>>, p: seq<T>, sep: seq<T>, before: seq<T>, after: seq<T>)
    requires before == Join(parts, sep)
    requires after == (if parts == [] then before else before + sep) + p
    ensures after == Join(parts + [p], sep)
  {
    if parts == [] {
      assert parts + [p] == [p];
    } else {
      JoinSnoc(parts, p, sep);
    }
  }
}
