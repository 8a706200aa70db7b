/**
 * `parse_translation` (app.py:127-166): the engine's reply is cut at every
 * `---PAGE_START n---` marker into one page record per marker, and each
 * record's labelled fields are pulled out of its text.
 *
 * The regular expressions of the source are modelled for their fixed shapes.
 * The marker pattern `---PAGE_START\s*\[?(\d+)\]?---` never needs to
 * backtrack, because whitespace, `[`, digits, `]` and `-` are disjoint, so a
 * marker either matches greedily at a position or not at all (`MatchPrefix`).
 * The field patterns `LABEL:\s*(.+?)(?=STOP)` (with DOTALL) are decided by the
 * first occurrence of `LABEL:` (`Group` explains why).
 */
module Parser {
  import opened Wrappers
  import opened Text
  import opened Numerals

  const StartTag: string := "---PAGE_START"
  const Dashes: string := "---"
  const EndTag: string := "---PAGE_END---"

  // ---------------------------------------------------------------- page markers

  /** A page marker as the engine wrote it: `---PAGE_START`, whitespace, an
      optional `[`, the digits of the page number, an optional `]`, `---`. */
  datatype Marker = Marker(space: string, open: bool, digits: string, close: bool)

  /** The length of a marker's text. */
  function MarkerLen(m: Marker): nat {
    |StartTag| + |m.space| + (if m.open then 1 else 0) + |m.digits| + (if m.close then 1 else 0) + |Dashes|
  }

  lemma MarkerLenIs(m: Marker)
    ensures |MarkerText(m)| == MarkerLen(m)
  {
  }

  predicate WellFormed(m: Marker) {
    AllSpace(m.space) && |m.digits| > 0 && IsDigits(m.digits)
  }

  function MarkerText(m: Marker): string {
    StartTag + m.space + (if m.open then ['['] else []) + m.digits + (if m.close then [']'] else []) + Dashes
  }

  /** The end of the run of whitespace (`\s*`, greedy) that starts at `i`. */
  function SpaceEnd(t: string, i: nat): (j: nat)
    requires i <= |t|
    ensures i <= j <= |t|
    decreases |t| - i
  {
    if i < |t| && IsSpace(t[i]) then SpaceEnd(t, i + 1) else i
  }

  /** The end of the run of digits (`\d+`, greedy) that starts at `i`. */
  function DigitsEnd(t: string, i: nat): (j: nat)
    requires i <= |t|
    ensures i <= j <= |t|
    decreases |t| - i
  {
    if i < |t| && IsDigit(t[i]) then DigitsEnd(t, i + 1) else i
  }

  lemma {:induction false} SpaceEndRun(t: string, i: nat)
    requires i <= |t|
    ensures AllSpace(t[i..SpaceEnd(t, i)])
    ensures SpaceEnd(t, i) < |t| ==> !IsSpace(t[SpaceEnd(t, i)])
    decreases |t| - i
  {
    if i < |t| && IsSpace(t[i]) {
      SpaceEndRun(t, i + 1);
      assert t[i..SpaceEnd(t, i)] == [t[i]] + t[i + 1..SpaceEnd(t, i)];
    }
  }

  lemma {:induction false} DigitsEndRun(t: string, i: nat)
    requires i <= |t|
    ensures IsDigits(t[i..DigitsEnd(t, i)])
    ensures DigitsEnd(t, i) < |t| ==> !IsDigit(t[DigitsEnd(t, i)])
    decreases |t| - i
  {
    if i < |t| && IsDigit(t[i]) {
      DigitsEndRun(t, i + 1);
      assert t[i..DigitsEnd(t, i)] == [t[i]] + t[i + 1..DigitsEnd(t, i)];
    }
  }

  /** The whitespace run from `i` ends at `j` when `t[i..j]` is whitespace
      and `t[j]` is not. */
  lemma {:induction false} SpaceEndAt(t: string, i: nat, j: nat)
    requires i <= j <= |t| && AllSpace(t[i..j]) && (j < |t| ==> !IsSpace(t[j]))
    ensures SpaceEnd(t, i) == j
    decreases j - i
  {
    if i < j {
      assert t[i..j][0] == t[i];
      assert t[i + 1..j] == t[i..j][1..];
      SpaceEndAt(t, i + 1, j);
    }
  }

  lemma {:induction false} DigitsEndAt(t: string, i: nat, j: nat)
    requires i <= j <= |t| && IsDigits(t[i..j]) && (j < |t| ==> !IsDigit(t[j]))
    ensures DigitsEnd(t, i) == j
    decreases j - i
  {
    if i < j {
      assert t[i..j][0] == t[i];
      assert t[i + 1..j] == t[i..j][1..];
      DigitsEndAt(t, i + 1, j);
    }
  }

  /** Does a marker start at the beginning of `t`, and which one. The
      pattern never needs to backtrack: whitespace, `[`, digits, `]` and `-`
      are disjoint, so each part takes the longest run it can. */
  function MatchPrefix(t: string): Option<Marker> {
    if !PrefixAt(t, 0, StartTag) then None
    else
      var a := SpaceEnd(t, |StartTag|);
      var open := a < |t| && t[a] == '[';
      var b := if open then a + 1 else a;
      var c := DigitsEnd(t, b);
      var close := c < |t| && t[c] == ']';
      var d := if close then c + 1 else c;
      if b < c && PrefixAt(t, d, Dashes) then Some(Marker(t[|StartTag|..a], open, t[b..c], close))
      else None
  }

  lemma MarkerTextNested(m: Marker, rest: string)
    ensures MarkerText(m) + rest == StartTag + (m.space + ((if m.open then ['['] else []) + (m.digits +
      ((if m.close then [']'] else []) + (Dashes + rest)))))
  {
  }

  /** Cutting `t[..p5]` at five inner positions. */
  lemma SliceSix<T>(t: seq<T>, p0: nat, p1: nat, p2: nat, p3: nat, p4: nat, p5: nat)
    requires p0 <= p1 <= p2 <= p3 <= p4 <= p5 <= |t|
    ensures t[..p5] == t[..p0] + t[p0..p1] + t[p1..p2] + t[p2..p3] + t[p3..p4] + t[p4..p5]
  {
  }

  /** The positions `MatchPrefix` computes. */
  lemma MatchPrefixParts(t: string) returns (a: nat, b: nat, c: nat, d: nat)
    requires MatchPrefix(t).Some?
    ensures |StartTag| <= a <= b < c <= d && d + |Dashes| <= |t|
    ensures PrefixAt(t, 0, StartTag) && PrefixAt(t, d, Dashes)
    ensures MatchPrefix(t).value == Marker(t[|StartTag|..a], b == a + 1, t[b..c], d == c + 1)
    ensures b == a || t[a] == '['
    ensures d == c || t[c] == ']'
    ensures AllSpace(t[|StartTag|..a]) && IsDigits(t[b..c])
  {
    a := SpaceEnd(t, |StartTag|);
    var open := a < |t| && t[a] == '[';
    b := if open then a + 1 else a;
    c := DigitsEnd(t, b);
    var close := c < |t| && t[c] == ']';
    d := if close then c + 1 else c;
    SpaceEndRun(t, |StartTag|);
    DigitsEndRun(t, b);
  }

  /** What `MatchPrefix` finds is a well-formed marker, and `t` starts with it. */
  lemma MatchPrefixSound(t: string)
    requires MatchPrefix(t).Some?
    ensures WellFormed(MatchPrefix(t).value) && PrefixAt(t, 0, MarkerText(MatchPrefix(t).value))
  {
    var a, b, c, d := MatchPrefixParts(t);
    var m := MatchPrefix(t).value;
    var s0 := |StartTag|;
    var e := d + |Dashes|;
    SliceSix(t, s0, a, b, c, d, e);
    var ob: string := if m.open then ['['] else [];
    var cb: string := if m.close then [']'] else [];
    assert t[a..b] == ob;
    assert t[c..d] == cb;
    assert MarkerText(m) == t[..s0] + t[s0..a] + t[a..b] + t[b..c] + t[c..d] + t[d..e];
  }

  lemma DigitIsNotSpace(c: char)
    requires IsDigit(c)
    ensures !IsSpace(c)
  {
  }

  /** `MatchPrefix` on a text whose parts are known to sit at `a`, `b`, `c`, `d`. */
  lemma MatchPrefixOf(t: string, a: nat, b: nat, c: nat, d: nat)
    requires PrefixAt(t, 0, StartTag) && |StartTag| <= a <= b < c <= d && PrefixAt(t, d, Dashes)
    requires AllSpace(t[|StartTag|..a]) && !IsSpace(t[a])
    requires if b == a + 1 then t[a] == '[' else b == a && t[a] != '['
    requires IsDigits(t[b..c]) && !IsDigit(t[c])
    requires if d == c + 1 then t[c] == ']' else d == c && t[c] != ']'
    ensures MatchPrefix(t) == Some(Marker(t[|StartTag|..a], b == a + 1, t[b..c], d == c + 1))
  {
    SpaceEndAt(t, |StartTag|, a);
    DigitsEndAt(t, b, c);
  }

  /** `MatchPrefix` on a text laid out as the parts of a well-formed marker. */
  lemma MatchPrefixOfParts(t: string, m: Marker, a: nat, b: nat, c: nat, d: nat)
    requires WellFormed(m)
    requires |StartTag| <= a <= b <= c <= d && d + |Dashes| <= |t|
    requires t[..|StartTag|] == StartTag && t[|StartTag|..a] == m.space
    requires t[a..b] == (if m.open then ['['] else []) && t[b..c] == m.digits
    requires t[c..d] == (if m.close then [']'] else []) && t[d..d + |Dashes|] == Dashes
    ensures MatchPrefix(t) == Some(m)
  {
    assert b < c;
    assert t[b] == m.digits[0];
    DigitIsNotSpace(m.digits[0]);
    if m.open { assert t[a] == t[a..b][0]; }
    if m.close { assert t[c] == t[c..d][0]; } else { assert t[c] == t[d..d + |Dashes|][0]; }
    MatchPrefixOf(t, a, b, c, d);
  }

  /** Where the parts of a nested concatenation sit. */
  lemma SevenParts<T>(t: seq<T>, p0: seq<T>, p1: seq<T>, p2: seq<T>, p3: seq<T>, p4: seq<T>, p5: seq<T>, p6: seq<T>)
    requires t == p0 + (p1 + (p2 + (p3 + (p4 + (p5 + p6)))))
    ensures var a := |p0| + |p1|; var b := a + |p2|; var c := b + |p3|; var d := c + |p4|;
      && d + |p5| <= |t| && t[..|p0|] == p0 && t[|p0|..a] == p1 && t[a..b] == p2
      && t[b..c] == p3 && t[c..d] == p4 && t[d..d + |p5|] == p5
  {
    var x5 := p5 + p6;
    var x4 := p4 + x5;
    var x3 := p3 + x4;
    var x2 := p2 + x3;
    var x1 := p1 + x2;
    var a := |p0| + |p1|;
    var b := a + |p2|;
    var c := b + |p3|;
    var d := c + |p4|;
    assert t[0..] == t;
    SuffixSplit(t, 0, p0, x1);
    assert t[..|p0|] == t[0..|p0|];
    SuffixSplit(t, |p0|, p1, x2);
    SuffixSplit(t, a, p2, x3);
    SuffixSplit(t, b, p3, x4);
    SuffixSplit(t, c, p4, x5);
    SuffixSplit(t, d, p5, p6);
  }

  /** A marker at the start of `t` is found, and it is that marker. */
  lemma MatchPrefixComplete(m: Marker, rest: string)
    requires WellFormed(m)
    ensures MatchPrefix(MarkerText(m) + rest) == Some(m)
  {
    var ob: string := if m.open then ['['] else [];
    var cb: string := if m.close then [']'] else [];
    var t := MarkerText(m) + rest;
    MarkerTextNested(m, rest);
    SevenParts(t, StartTag, m.space, ob, m.digits, cb, Dashes, rest);
    var a := |StartTag| + |m.space|;
    var b := a + |ob|;
    var c := b + |m.digits|;
    var d := c + |cb|;
    MatchPrefixOfParts(t, m, a, b, c, d);
  }

  /** A marker starts at position `q` of `s`. */
  predicate MarkerAt(s: string, q: nat) {
    q <= |s| && MatchPrefix(s[q..]).Some?
  }

  // ---------------------------------------------------------------- re.split

  /** A marker and the text that follows it up to the next marker or the end. */
  datatype Piece = Piece(marker: Marker, text: string)

  /** A reply cut at its markers: the text before the first one, then the pieces. */
  datatype Split = Split(lead: string, pieces: seq<Piece>)

  function PiecesText(ps: seq<Piece>): string
    decreases |ps|
  {
    if |ps| == 0 then "" else MarkerText(ps[0].marker) + (ps[0].text + PiecesText(ps[1..]))
  }

  function Reassemble(sp: Split): string {
    sp.lead + PiecesText(sp.pieces)
  }

  /** No marker starts inside `t`, when `t` is followed by `after`. */
  predicate NoMarkerIn(t: string, after: string) {
    forall q :: 0 <= q < |t| ==> !MarkerAt(t + after, q)
  }

  /** Each text (the lead and every piece's text) holds no marker start. */
  predicate Leftmost(lead: string, ps: seq<Piece>)
    decreases |ps|
  {
    NoMarkerIn(lead, PiecesText(ps)) && (|ps| > 0 ==> Leftmost(ps[0].text, ps[1..]))
  }

  predicate AllWellFormed(ps: seq<Piece>) {
    forall k :: 0 <= k < |ps| ==> WellFormed(ps[k].marker)
  }

  /** `sp` is a cut of `s` at markers, each taken at the leftmost place. */
  predicate IsScanOf(sp: Split, s: string) {
    Reassemble(sp) == s && AllWellFormed(sp.pieces) && Leftmost(sp.lead, sp.pieces)
  }

  lemma PiecesTextCons(pc: Piece, ps: seq<Piece>)
    ensures PiecesText([pc] + ps) == MarkerText(pc.marker) + (pc.text + PiecesText(ps))
  {
    assert ([pc] + ps)[1..] == ps;
  }

  /** `s` read as the text before position `p`, a marker, and what follows. */
  lemma CutAt(s: string, p: nat, m: Marker)
    requires PrefixAt(s, p, MarkerText(m))
    ensures s == s[..p] + (MarkerText(m) + s[p + |MarkerText(m)|..])
  {
    var e := p + |MarkerText(m)|;
    assert s == s[..p] + s[p..e] + s[e..];
  }

  /** One step of the scan: a leftmost marker at `p`, then a cut of the rest. */
  lemma ScanStep(s: string, p: nat, m: Marker, rest: Split)
    requires PrefixAt(s, p, MarkerText(m)) && WellFormed(m)
    requires forall q :: 0 <= q < p ==> !MarkerAt(s, q)
    requires IsScanOf(rest, s[p + |MarkerText(m)|..])
    ensures IsScanOf(Split(s[..p], [Piece(m, rest.lead)] + rest.pieces), s)
  {
    var pc := Piece(m, rest.lead);
    var ps := [pc] + rest.pieces;
    PiecesTextCons(pc, rest.pieces);
    CutAt(s, p, m);
    assert PiecesText(ps) == MarkerText(m) + s[p + |MarkerText(m)|..];
    assert s[..p] + PiecesText(ps) == s;
    assert ps[0] == pc && ps[1..] == rest.pieces;
    assert NoMarkerIn(s[..p], PiecesText(ps));
  }

  /** The last step of the scan: no marker is left. */
  lemma ScanEnd(s: string)
    requires forall q :: 0 <= q <= |s| ==> !MarkerAt(s, q)
    ensures IsScanOf(Split(s, []), s)
  {
    assert s + "" == s;
  }

  /** The left-to-right scan `re.split` performs: at each position, either a
      marker starts there and the text is cut around it, or the character
      joins the current text and the scan moves one position on. */
  function Scan(s: string): (sp: Split)
    ensures AllWellFormed(sp.pieces)
    decreases |s|
  {
    if |s| == 0 then Split([], [])
    else match MatchPrefix(s)
      case Some(m) =>
        MatchPrefixSound(s);
        MarkerLenIs(m);
        var rest := Scan(s[MarkerLen(m)..]);
        Split([], [Piece(m, rest.lead)] + rest.pieces)
      case None =>
        var rest := Scan(s[1..]);
        Split([s[0]] + rest.lead, rest.pieces)
  }

  /** A position that starts no marker joins the text after it. */
  lemma ScanSkip(s: string, rest: Split)
    requires |s| > 0 && MatchPrefix(s).None? && IsScanOf(rest, s[1..])
    ensures IsScanOf(Split([s[0]] + rest.lead, rest.pieces), s)
  {
    var lead := [s[0]] + rest.lead;
    var tail := PiecesText(rest.pieces);
    assert s == [s[0]] + s[1..];
    assert lead + tail == s;
    forall q | 0 <= q < |lead| ensures !MarkerAt(lead + tail, q) {
      if q == 0 {
        assert s[0..] == s;
      } else {
        assert s[q..] == s[1..][q - 1..];
        assert !MarkerAt(rest.lead + tail, q - 1);
      }
    }
  }

  /** The scan is a cut of `s` at leftmost markers, and loses nothing of `s`. */
  lemma {:induction false} ScanIsScanOf(s: string)
    ensures IsScanOf(Scan(s), s)
    decreases |s|
  {
    if |s| == 0 {
      assert Scan(s) == Split([], []);
    } else {
      match MatchPrefix(s)
      case Some(m) =>
        MatchPrefixSound(s);
        MarkerLenIs(m);
        var rest := Scan(s[MarkerLen(m)..]);
        assert Scan(s) == Split([], [Piece(m, rest.lead)] + rest.pieces);
        ScanIsScanOf(s[MarkerLen(m)..]);
        assert s[..0] == [];
        ScanStep(s, 0, m, rest);
      case None =>
        var rest := Scan(s[1..]);
        assert Scan(s) == Split([s[0]] + rest.lead, rest.pieces);
        ScanIsScanOf(s[1..]);
        ScanSkip(s, rest);
    }
  }

  /** A cut without pieces is all lead, and then `s` holds no marker. */
  lemma CutEmpty(s: string, sp: Split)
    requires IsScanOf(sp, s) && |sp.pieces| == 0
    ensures sp.lead == s && forall q :: 0 <= q <= |s| ==> !MarkerAt(s, q)
  {
    assert sp.lead + "" == sp.lead;
    assert !MarkerAt(s, |s|);
  }

  /** The first piece of a cut of `s` sits at the leftmost marker of `s`. */
  lemma CutHead(s: string, sp: Split)
    requires IsScanOf(sp, s) && |sp.pieces| > 0
    ensures |sp.lead| + |MarkerText(sp.pieces[0].marker)| <= |s| && sp.lead == s[..|sp.lead|]
    ensures MarkerAt(s, |sp.lead|) && forall q :: 0 <= q < |sp.lead| ==> !MarkerAt(s, q)
    ensures MatchPrefix(s[|sp.lead|..]) == Some(sp.pieces[0].marker)
  {
    var p := |sp.lead|;
    var pc := sp.pieces[0];
    var tail := pc.text + PiecesText(sp.pieces[1..]);
    assert s == sp.lead + (MarkerText(pc.marker) + tail);
    assert s[p..] == MarkerText(pc.marker) + tail;
    MatchPrefixComplete(pc.marker, tail);
  }

  /** What follows the first marker of a cut is cut by the remaining pieces. */
  lemma CutRest(s: string, sp: Split)
    requires IsScanOf(sp, s) && |sp.pieces| > 0
    ensures |sp.lead| + |MarkerText(sp.pieces[0].marker)| <= |s|
    ensures IsScanOf(Split(sp.pieces[0].text, sp.pieces[1..]), s[|sp.lead| + |MarkerText(sp.pieces[0].marker)|..])
  {
    var pc := sp.pieces[0];
    var tail := pc.text + PiecesText(sp.pieces[1..]);
    assert s == sp.lead + (MarkerText(pc.marker) + tail);
    assert s[|sp.lead| + |MarkerText(pc.marker)|..] == tail;
  }

  /** Two cuts of the same string both have pieces or both have none. */
  lemma CutPiecesAgree(s: string, sp1: Split, sp2: Split)
    requires IsScanOf(sp1, s) && IsScanOf(sp2, s)
    ensures |sp1.pieces| == 0 <==> |sp2.pieces| == 0
  {
    if |sp1.pieces| == 0 && |sp2.pieces| > 0 {
      CutEmpty(s, sp1);
      CutHead(s, sp2);
      assert false;
    } else if |sp2.pieces| == 0 && |sp1.pieces| > 0 {
      CutEmpty(s, sp2);
      CutHead(s, sp1);
      assert false;
    }
  }

  /** Two cuts of the same string with pieces share their lead and first marker. */
  lemma CutHeadsAgree(s: string, sp1: Split, sp2: Split)
    requires IsScanOf(sp1, s) && IsScanOf(sp2, s) && |sp1.pieces| > 0 && |sp2.pieces| > 0
    ensures sp1.lead == sp2.lead && sp1.pieces[0].marker == sp2.pieces[0].marker
  {
    CutHead(s, sp1);
    CutHead(s, sp2);
    assert |sp2.lead| == |sp1.lead|;
  }

  /** A string has one cut at leftmost markers. */
  lemma {:induction false} CutUnique(s: string, sp1: Split, sp2: Split)
    requires IsScanOf(sp1, s) && IsScanOf(sp2, s)
    ensures sp1 == sp2
    decreases |s|
  {
    CutPiecesAgree(s, sp1, sp2);
    if |sp1.pieces| == 0 {
      CutEmpty(s, sp1);
      CutEmpty(s, sp2);
    } else {
      CutHeadsAgree(s, sp1, sp2);
      CutRest(s, sp1);
      CutRest(s, sp2);
      var e := |sp1.lead| + |MarkerText(sp1.pieces[0].marker)|;
      CutUnique(s[e..], Split(sp1.pieces[0].text, sp1.pieces[1..]), Split(sp2.pieces[0].text, sp2.pieces[1..]));
      assert sp1.pieces == [sp1.pieces[0]] + sp1.pieces[1..];
      assert sp2.pieces == [sp2.pieces[0]] + sp2.pieces[1..];
    }
  }

  /** Any cut of `s` at leftmost markers is the scan's. */
  lemma ScanUnique(s: string, sp: Split)
    requires IsScanOf(sp, s)
    ensures Scan(s) == sp
  {
    ScanIsScanOf(s);
    CutUnique(s, Scan(s), sp);
  }

  /** A marker starts somewhere in `s`. */
  predicate HasMarker(s: string) {
    exists q :: 0 <= q <= |s| && MarkerAt(s, q)
  }

  lemma HasMarkerIff(s: string)
    ensures HasMarker(s) <==> |Scan(s).pieces| > 0
  {
    ScanIsScanOf(s);
    if |Scan(s).pieces| > 0 {
      CutHead(s, Scan(s));
    } else {
      CutEmpty(s, Scan(s));
    }
  }

  function Flatten(ps: seq<Piece>): (r: seq<string>)
    ensures |r| == 2 * |ps|
    ensures forall k :: 0 <= k < |ps| ==> r[2 * k] == ps[k].marker.digits && r[2 * k + 1] == ps[k].text
    decreases |ps|
  {
    if |ps| == 0 then [] else [ps[0].marker.digits, ps[0].text] + Flatten(ps[1..])
  }

  /** `re.split(marker_pattern, s)`: the text before the first marker, then,
      per marker, its digit group and the text after it. */
  function SplitBlocks(s: string): (blocks: seq<string>)
    ensures |blocks| == 2 * |Scan(s).pieces| + 1
    ensures blocks[0] == Scan(s).lead
    ensures forall k :: 0 <= k < |Scan(s).pieces| ==>
      blocks[2 * k + 1] == Scan(s).pieces[k].marker.digits && blocks[2 * k + 2] == Scan(s).pieces[k].text
  {
    [Scan(s).lead] + Flatten(Scan(s).pieces)
  }

  // ---------------------------------------------------------------- labelled fields

  /** What closes a field's lazy group: a newline followed by one of the labels
      or by the end of text (`(?=\n(?:L1|...|$))`), or the end of text itself
      (`$`, for CLOSING). */
  datatype Terminator = BeforeLabels(labels: seq<string>) | AtEnd

  /** Python's `$` without MULTILINE holds at `q`. */
  predicate EndAnchor(c: string, q: nat) {
    q == |c| || (q + 1 == |c| && c[q] == '\n')
  }

  predicate StartsWithLabel(c: string, p: nat, labels: seq<string>) {
    exists i :: 0 <= i < |labels| && PrefixAt(c, p, labels[i])
  }

  /** The group may end at `q`. */
  predicate IsStop(c: string, q: nat, term: Terminator) {
    match term
    case AtEnd => EndAnchor(c, q)
    case BeforeLabels(labels) => q < |c| && c[q] == '\n' && (EndAnchor(c, q + 1) || StartsWithLabel(c, q + 1, labels))
  }

  /** The first place at or after `from` where the group may end
      (`FirstStopSpec`). */
  function FirstStop(c: string, from: nat, term: Terminator): (r: Option<nat>)
    ensures r.Some? ==> from <= r.value <= |c|
    decreases |c| + 1 - from
  {
    if from > |c| then None
    else if IsStop(c, from, term) then Some(from)
    else FirstStop(c, from + 1, term)
  }

  lemma {:induction false} FirstStopSpec(c: string, from: nat, term: Terminator)
    ensures var r := FirstStop(c, from, term);
      && (r.Some? ==> IsStop(c, r.value, term) && forall q :: from <= q < r.value ==> !IsStop(c, q, term))
      && (r.None? ==> forall q :: from <= q ==> !IsStop(c, q, term))
    decreases |c| + 1 - from
  {
    if from <= |c| && !IsStop(c, from, term) {
      FirstStopSpec(c, from + 1, term);
    }
  }

  /** The last place in `[lo, hi)` where the group may end (`LastStopSpec`). */
  function LastStop(c: string, lo: nat, hi: nat, term: Terminator): (r: Option<nat>)
    ensures r.Some? ==> lo <= r.value < hi
    decreases hi
  {
    if hi <= lo then None
    else if IsStop(c, hi - 1, term) then Some(hi - 1)
    else LastStop(c, lo, hi - 1, term)
  }

  lemma {:induction false} LastStopSpec(c: string, lo: nat, hi: nat, term: Terminator)
    ensures var r := LastStop(c, lo, hi, term);
      && (r.Some? ==> IsStop(c, r.value, term) && forall q :: r.value < q < hi ==> !IsStop(c, q, term))
      && (r.None? ==> forall q :: lo <= q < hi ==> !IsStop(c, q, term))
    decreases hi
  {
    if hi > lo && !IsStop(c, hi - 1, term) {
      LastStopSpec(c, lo, hi - 1, term);
    }
  }

  /** The group captured by `LABEL:\s*(.+?)(?=STOP)` with DOTALL, if the
      pattern matches.

      The search tries every occurrence of `LABEL:` from the left. Let `a` be
      the position after the colon and `s` the end of the whitespace after it.
      The greedy `\s*` first takes all of that whitespace and the lazy group
      then ends at the first stop after `s`. With no such stop, `\s*` gives
      back characters one at a time; the group then ends at the last stop in
      `(a, s]` and is the single whitespace character just before it. If there
      is no stop after `a` at all the occurrence fails, and so does every later
      one, since their stops are a subset of these: the first occurrence
      decides. */
  function Group(c: string, tag: string, term: Terminator): (r: Option<string>)
    ensures FindFrom(c, tag + ":", 0).None? ==> r.None?
    ensures r.Some? ==> |r.value| > 0
  {
    match FindFrom(c, tag + ":", 0)
    case None => None
    case Some(h) =>
      var a := h + |tag| + 1;
      var s := a + LeadingIn(c[a..], IsSpace);
      match FirstStop(c, s + 1, term)
      case Some(q) => Some(c[s..q])
      case None =>
        match LastStop(c, a + 1, s + 1, term)
        case Some(q) => Some(c[q - 1..q])
        case None => None
  }

  /** `m.group(1).strip()` when the pattern matches, and `""` otherwise. */
  function Field(c: string, tag: string, term: Terminator): (r: string)
    ensures IsStripped(r)
    ensures FindFrom(c, tag + ":", 0).None? ==> r == ""
  {
    match Group(c, tag, term)
    case None => ""
    case Some(g) => Strip(g)
  }

  const HeadingStop: Terminator := BeforeLabels(["HEADING_EN", "QUOTE", "BODY", "ITEMS", "CLOSING"])
  const HeadingEnStop: Terminator := BeforeLabels(["QUOTE", "BODY", "ITEMS", "CLOSING"])
  const QuoteStop: Terminator := BeforeLabels(["BODY", "ITEMS", "CLOSING"])
  const BodyStop: Terminator := BeforeLabels(["ITEMS", "CLOSING"])
  const ItemsStop: Terminator := BeforeLabels(["CLOSING"])

  // ---------------------------------------------------------------- list items

  function LeadingBangla(s: string): (n: nat)
    ensures n <= |s| && (forall k :: 0 <= k < n ==> IsBanglaDigit(s[k])) && (n < |s| ==> !IsBanglaDigit(s[n]))
    decreases |s|
  {
    if |s| > 0 && IsBanglaDigit(s[0]) then 1 + LeadingBangla(s[1..]) else 0
  }

  /** The end of the line that holds position `t`. */
  function LineEnd(g: string, t: nat): (e: nat)
    requires t <= |g|
    ensures t <= e <= |g| && '\n' !in g[t..e] && (e < |g| ==> g[e] == '\n')
    decreases |g| - t
  {
    if t == |g| || g[t] == '\n' then t
    else
      var e := LineEnd(g, t + 1);
      assert g[t..e] == [g[t]] + g[t + 1..e];
      e
  }

  /** The last position in `[lo, hi)` that is not a newline. */
  function LastNotNewline(g: string, lo: nat, hi: nat): (r: Option<nat>)
    requires hi <= |g|
    ensures r.Some? ==> lo <= r.value < hi && g[r.value] != '\n'
    decreases hi
  {
    if hi <= lo then None
    else if g[hi - 1] != '\n' then Some(hi - 1)
    else LastNotNewline(g, lo, hi - 1)
  }

  /** The position found is the last one: every later position before `hi`
      is a newline, and with none found all of `[lo, hi)` are newlines. */
  lemma {:induction false} LastNotNewlineSpec(g: string, lo: nat, hi: nat)
    requires hi <= |g|
    ensures var r := LastNotNewline(g, lo, hi);
      && (r.Some? ==> forall q :: r.value < q < hi ==> g[q] == '\n')
      && (r.None? ==> forall q :: lo <= q < hi ==> g[q] == '\n')
    decreases hi
  {
    if lo < hi && g[hi - 1] == '\n' {
      LastNotNewlineSpec(g, lo, hi - 1);
    }
  }

  /** After the dot, `(.+)` may start at `t`: whitespace in `[d, t)` and a
      character at `t` that is not a newline. */
  predicate StartAfter(g: string, d: nat, t: nat) {
    d <= t < |g| && AllSpace(g[d..t]) && g[t] != '\n'
  }

  /** Where `\s*(.+)` puts the start of the item when the dot ends at `d`:
      after the whole run of whitespace when a character follows it;
      otherwise `\s*` gives characters back until `(.+)` can take one that is
      not a newline (`ItemStartSpec`). */
  function ItemStart(g: string, d: nat): (r: Option<nat>)
    requires d <= |g|
    ensures r.Some? ==> d <= r.value < |g| && g[r.value] != '\n'
  {
    var s := d + LeadingIn(g[d..], IsSpace);
    if s < |g| then
      assert g[s] != '\n' by { LeadingInSpec(g[d..], IsSpace); assert g[d..][s - d] == g[s]; }
      Some(s)
    else LastNotNewline(g, d, |g|)
  }

  /** `\s*` is greedy: the start taken is the last one possible, and there
      is none only when no start is possible. */
  lemma ItemStartSpec(g: string, d: nat)
    requires d <= |g|
    ensures ItemStart(g, d).Some? ==> StartAfter(g, d, ItemStart(g, d).value)
    ensures ItemStart(g, d).Some? ==> forall t': nat :: StartAfter(g, d, t') ==> t' <= ItemStart(g, d).value
    ensures ItemStart(g, d).None? ==> forall t': nat :: !StartAfter(g, d, t')
  {
    var s := d + LeadingIn(g[d..], IsSpace);
    LeadingInSpec(g[d..], IsSpace);
    assert g[d..][..s - d] == g[d..s];
    LastNotNewlineSpec(g, d, |g|);
    if s < |g| {
      assert g[s] == g[d..][s - d];
    } else if ItemStart(g, d).Some? {
      var u := ItemStart(g, d).value;
      assert g[d..u] == g[d..s][..u - d];
    }
  }

  /** One match of `[০-৯]+\.\s*(.+)` (no DOTALL) at position `p`: the item
      and where the match ends. `(.+)` runs from `ItemStart` to the end of
      its line. */
  function ItemAt(g: string, p: nat): (r: Option<(string, nat)>)
    requires p <= |g|
    ensures r.Some? ==> p < r.value.1 <= |g| && |r.value.0| > 0 && '\n' !in r.value.0
  {
    var n := p + LeadingBangla(g[p..]);
    if n == p || n == |g| || g[n] != '.' then None
    else
      match ItemStart(g, n + 1)
      case None => None
      case Some(t) =>
        var e := LineEnd(g, t);
        Some((g[t..e], e))
  }

  /** A way `[০-৯]+\.\s*(.+)` can match at `p`: Bengali digits in `[p, n)`, the
      dot at `n`, and the item starting at `t`. */
  predicate ItemShape(g: string, p: nat, n: nat, t: nat) {
    && p < n < |g|
    && (forall k :: p <= k < n ==> IsBanglaDigit(g[k]))
    && g[n] == '.'
    && StartAfter(g, n + 1, t)
  }

  /** `\s*` is greedy: the regex engine takes the way with the longest run of
      whitespace, giving characters back only as far as `(.+)` needs. */
  ghost predicate LongestSpace(g: string, p: nat, n: nat, t: nat) {
    forall t': nat :: ItemShape(g, p, n, t') ==> t' <= t
  }

  /** The digits of a match end where the run of Bengali digits from `p` ends. */
  lemma ItemShapeDigits(g: string, p: nat, n: nat, t: nat)
    requires ItemShape(g, p, n, t)
    ensures p + LeadingBangla(g[p..]) == n
  {
  }

  /** A match found at `p` is a way the pattern matches there, the one with
      the longest whitespace, and its item runs from there to the end of the
      line. */
  lemma ItemAtSound(g: string, p: nat)
    requires p <= |g| && ItemAt(g, p).Some?
    ensures exists n: nat, t: nat ::
      && ItemShape(g, p, n, t) && LongestSpace(g, p, n, t)
      && ItemAt(g, p).value == (g[t..LineEnd(g, t)], LineEnd(g, t))
  {
    var n, t := ItemAtFound(g, p);
    StartIsShape(g, p, n, t);
    StartIsLongest(g, p, n, t);
  }

  /** Digits in `[p, n)`, the dot at `n` and the start `ItemStart` gives
      after it make a way the pattern matches at `p`. */
  lemma StartIsShape(g: string, p: nat, n: nat, t: nat)
    requires p < n < |g| && (forall k :: p <= k < n ==> IsBanglaDigit(g[k])) && g[n] == '.'
    requires ItemStart(g, n + 1) == Some(t)
    ensures ItemShape(g, p, n, t)
  {
    ItemStartSpec(g, n + 1);
  }

  /** The start `ItemStart` gives after the dot has the longest whitespace. */
  lemma StartIsLongest(g: string, p: nat, n: nat, t: nat)
    requires n < |g| && ItemStart(g, n + 1) == Some(t)
    ensures LongestSpace(g, p, n, t)
  {
    ItemStartSpec(g, n + 1);
    forall t': nat | ItemShape(g, p, n, t') ensures t' <= t {
      assert StartAfter(g, n + 1, t');
    }
  }

  /** The digits, dot and start of the item of a match found at `p`. */
  lemma ItemAtFound(g: string, p: nat) returns (n: nat, t: nat)
    requires p <= |g| && ItemAt(g, p).Some?
    ensures p < n < |g| && (forall k :: p <= k < n ==> IsBanglaDigit(g[k])) && g[n] == '.'
    ensures ItemStart(g, n + 1) == Some(t)
    ensures ItemAt(g, p) == Some((g[t..LineEnd(g, t)], LineEnd(g, t)))
  {
    n := p + LeadingBangla(g[p..]);
    BanglaRun(g, p);
    t := ItemStart(g, n + 1).value;
    var e := LineEnd(g, t);
    assert ItemAt(g, p) == Some((g[t..e], e));
  }

  /** The run of Bengali digits from `p`, read in `g` itself. */
  lemma BanglaRun(g: string, p: nat)
    requires p <= |g|
    ensures forall k :: p <= k < p + LeadingBangla(g[p..]) ==> IsBanglaDigit(g[k])
  {
    forall k | p <= k < p + LeadingBangla(g[p..]) ensures IsBanglaDigit(g[k]) {
      assert g[k] == g[p..][k - p];
    }
  }

  /** Where the pattern can match at `p`, a match is found, and with the
      longest whitespace it is the one the regex engine returns. */
  lemma ItemAtComplete(g: string, p: nat, n: nat, t: nat)
    requires p <= |g| && ItemShape(g, p, n, t)
    ensures ItemAt(g, p).Some?
    ensures LongestSpace(g, p, n, t) ==> ItemAt(g, p).value == (g[t..LineEnd(g, t)], LineEnd(g, t))
  {
    var u := ItemAtStart(g, p, n, t);
    if LongestSpace(g, p, n, t) {
      assert u <= t;
    }
  }

  /** Where the pattern can match at `p`, the match found starts its item at
      the last possible start `u`. */
  lemma ItemAtStart(g: string, p: nat, n: nat, t: nat) returns (u: nat)
    requires p <= |g| && ItemShape(g, p, n, t)
    ensures t <= u && ItemShape(g, p, n, u)
    ensures ItemAt(g, p) == Some((g[u..LineEnd(g, u)], LineEnd(g, u)))
  {
    ItemShapeDigits(g, p, n, t);
    ItemStartSpec(g, n + 1);
    assert StartAfter(g, n + 1, t);
    u := ItemStart(g, n + 1).value;
    var e := LineEnd(g, u);
    assert ItemAt(g, p) == Some((g[u..e], e));
  }

  /** `re.findall(r'[০-৯]+\.\s*(.+)', g[p..])`. */
  function ItemsFrom(g: string, p: nat): (items: seq<string>)
    requires p <= |g|
    ensures forall k :: 0 <= k < |items| ==> |items[k]| > 0 && '\n' !in items[k]
    decreases |g| - p
  {
    if p == |g| then []
    else
      match ItemAt(g, p)
      case Some((item, e)) => [item] + ItemsFrom(g, e)
      case None => ItemsFrom(g, p + 1)
  }

  /** The search moves on from `p` to the leftmost place `q` where a match
      is found, takes that item and resumes where the match ends: no match is
      skipped and matches do not overlap. */
  lemma {:induction false} ItemsFromLeftmost(g: string, p: nat, q: nat)
    requires p <= q < |g| && ItemAt(g, q).Some?
    requires forall r :: p <= r < q ==> ItemAt(g, r).None?
    ensures ItemsFrom(g, p) == [ItemAt(g, q).value.0] + ItemsFrom(g, ItemAt(g, q).value.1)
    decreases q - p
  {
    if p < q {
      assert ItemAt(g, p).None?;
      assert ItemsFrom(g, p) == ItemsFrom(g, p + 1);
      ItemsFromLeftmost(g, p + 1, q);
    }
  }

  /** Where no match is found from `p` on, there are no items. */
  lemma {:induction false} ItemsFromNone(g: string, p: nat)
    requires p <= |g|
    requires forall r :: p <= r < |g| ==> ItemAt(g, r).None?
    ensures ItemsFrom(g, p) == []
    decreases |g| - p
  {
    if p < |g| {
      ItemsFromNone(g, p + 1);
    }
  }

  /** The `ITEMS:` section's numbered lines; none without that section. */
  function Items(c: string): (items: seq<string>)
    ensures FindFrom(c, "ITEMS:", 0).None? ==> items == []
    ensures forall k :: 0 <= k < |items| ==> |items[k]| > 0 && '\n' !in items[k]
  {
    assert "ITEMS" + ":" == "ITEMS:";
    match Group(c, "ITEMS", ItemsStop)
    case None => []
    case Some(g) => ItemsFrom(g, 0)
  }

  // ---------------------------------------------------------------- records

  /** The dictionary `parse_translation` builds for one page. */
  datatype PageData = PageData(
    pageNum: nat, heading: string, headingEn: string, quote: string,
    body: string, items: seq<string>, closing: string, raw: string)

  /** The text fields filled from a labelled section. */
  datatype FieldName = Heading | HeadingEn | Quote | Body | Closing

  /** One entry of the list of (field, pattern) pairs: the field, the label
      its pattern starts with, and what ends its group. */
  datatype FieldSpec = FieldSpec(name: FieldName, tag: string, stop: Terminator)

  const FieldSpecs: seq<FieldSpec> := [
    FieldSpec(Heading, "HEADING", HeadingStop),
    FieldSpec(HeadingEn, "HEADING_EN", HeadingEnStop),
    FieldSpec(Quote, "QUOTE", QuoteStop),
    FieldSpec(Body, "BODY", BodyStop),
    FieldSpec(Closing, "CLOSING", AtEnd)
  ]

  /** The position of a field's entry in `FieldSpecs`. */
  function Index(name: FieldName): (i: nat)
    ensures i < |FieldSpecs| && FieldSpecs[i].name == name
  {
    match name
    case Heading => 0
    case HeadingEn => 1
    case Quote => 2
    case Body => 3
    case Closing => 4
  }

  /** Each entry of `FieldSpecs` is at its field's position. */
  lemma IndexOfSpec(j: nat)
    requires j < |FieldSpecs|
    ensures Index(FieldSpecs[j].name) == j
  {
  }

  /** The value a field gets from its pattern: the stripped group, or `""`. */
  function FieldOf(content: string, spec: FieldSpec): string {
    Field(content, spec.tag, spec.stop)
  }

  function Get(pd: PageData, name: FieldName): string {
    match name
    case Heading => pd.heading
    case HeadingEn => pd.headingEn
    case Quote => pd.quote
    case Body => pd.body
    case Closing => pd.closing
  }

  /** `page_data[field] = v`: that field changes and nothing else does. */
  function SetField(pd: PageData, name: FieldName, v: string): (r: PageData)
    ensures Get(r, name) == v
    ensures forall n :: n != name ==> Get(r, n) == Get(pd, n)
    ensures r.pageNum == pd.pageNum && r.items == pd.items && r.raw == pd.raw
  {
    match name
    case Heading => pd.(heading := v)
    case HeadingEn => pd.(headingEn := v)
    case Quote => pd.(quote := v)
    case Body => pd.(body := v)
    case Closing => pd.(closing := v)
  }

  /** The record of a page whose cleaned text is `content`: each field holds
      its pattern's stripped group, or `""` when the pattern does not match,
      and `raw` holds the whole content. */
  function Record(pageNum: nat, content: string): PageData {
    PageData(
      pageNum,
      FieldOf(content, FieldSpecs[0]),
      FieldOf(content, FieldSpecs[1]),
      FieldOf(content, FieldSpecs[2]),
      FieldOf(content, FieldSpecs[3]),
      Items(content),
      FieldOf(content, FieldSpecs[4]),
      content)
  }

  /** `parse_translation`'s loop over the (field, pattern) list, then the
      items: builds the record of `content`. */
  method ExtractFields(pageNum: nat, content: string) returns (pd: PageData)
    ensures pd == Record(pageNum, content)
  {
    pd := PageData(pageNum, "", "", "", "", [], "", content);
    var j := 0;
    assert pd == Partial(pageNum, content, 0);
    while j < |FieldSpecs|
      invariant 0 <= j <= |FieldSpecs|
      invariant pd.pageNum == pageNum && pd.items == [] && pd.raw == content
      invariant pd == Partial(pageNum, content, j)
    {
      var spec := FieldSpecs[j];
      var m := Group(content, spec.tag, spec.stop);
      PartialStep(pageNum, content, j);
      if m.Some? {
        pd := SetField(pd, spec.name, Strip(m.value));
      }
      j := j + 1;
    }
    assert pd == Record(pageNum, content).(items := []);
    var itemsMatch := Group(content, "ITEMS", ItemsStop);
    if itemsMatch.Some? {
      pd := pd.(items := ItemsFrom(itemsMatch.value, 0));
    }
    assert pd.items == Items(content) by {
      assert "ITEMS" + ":" == "ITEMS:";
    }
  }

  /** The record while the field loop runs: the fields at positions before
      `j` of the list are filled, the others still `""`, and no items yet. */
  function Partial(pageNum: nat, content: string, j: nat): PageData {
    PageData(
      pageNum,
      if 0 < j then FieldOf(content, FieldSpecs[0]) else "",
      if 1 < j then FieldOf(content, FieldSpecs[1]) else "",
      if 2 < j then FieldOf(content, FieldSpecs[2]) else "",
      if 3 < j then FieldOf(content, FieldSpecs[3]) else "",
      [],
      if 4 < j then FieldOf(content, FieldSpecs[4]) else "",
      content)
  }

  /** One turn of the field loop: setting the field at position `j` when its
      pattern matches fills one more position. */
  lemma PartialStep(pageNum: nat, content: string, j: nat)
    requires j < |FieldSpecs|
    ensures var spec := FieldSpecs[j];
      Partial(pageNum, content, j + 1) ==
        match Group(content, spec.tag, spec.stop)
        case Some(v) => SetField(Partial(pageNum, content, j), spec.name, Strip(v))
        case None => Partial(pageNum, content, j)
  {
  }

  /** A marker's text with `---PAGE_END---` removed and whitespace stripped. */
  function Content(text: string): string {
    Strip(RemoveAll(text, EndTag))
  }

  function PieceRecord(pc: Piece): PageData
    requires WellFormed(pc.marker)
  {
    Record(Value(pc.marker.digits), Content(pc.text))
  }

  /** The single record of a reply without markers. */
  function Fallback(rawText: string): PageData {
    var t := Strip(rawText);
    PageData(0, "", "", "", t, [], "", t)
  }

  /** One record per marker, in the order of the markers. */
  function Records(ps: seq<Piece>): (pages: seq<PageData>)
    requires AllWellFormed(ps)
    ensures |pages| == |ps|
  {
    seq(|ps|, k requires 0 <= k < |ps| => PieceRecord(ps[k]))
  }

  /** What `parse_translation` returns. */
  function Parse(rawText: string): seq<PageData> {
    var ps := Scan(rawText).pieces;
    if |ps| > 0 then Records(ps)
    else if Strip(rawText) != "" then [Fallback(rawText)]
    else []
  }

  /** With a marker in the reply there is one record per marker, in order,
      numbered by the marker's digits and holding the text up to the next
      marker, `---PAGE_END---` removed and stripped; what precedes the first
      marker is dropped. */
  lemma ParseWithMarkers(rawText: string)
    requires HasMarker(rawText)
    ensures |Parse(rawText)| == |Scan(rawText).pieces| > 0
    ensures forall k :: 0 <= k < |Parse(rawText)| ==>
      Parse(rawText)[k] == Record(Value(Scan(rawText).pieces[k].marker.digits), Content(Scan(rawText).pieces[k].text))
  {
    HasMarkerIff(rawText);
    var ps := Scan(rawText).pieces;
    assert forall k :: 0 <= k < |ps| ==> Parse(rawText)[k] == PieceRecord(ps[k]);
  }

  /** Without a marker the reply is one page 0 whose body and raw text are
      the stripped reply, or nothing when the reply is only whitespace. */
  lemma ParseWithoutMarkers(rawText: string)
    requires !HasMarker(rawText)
    ensures Parse(rawText) == (if AllSpace(rawText) then [] else [Fallback(rawText)])
  {
    HasMarkerIff(rawText);
    StripSpec(rawText);
  }

  lemma TakeSnoc<T>(s: seq<T>, k: nat)
    requires k < |s|
    ensures s[..k + 1] == s[..k] + [s[k]]
  {
  }

  lemma RecordOfPiece(pc: Piece, digits: string, text: string)
    requires WellFormed(pc.marker) && digits == pc.marker.digits && text == pc.text
    ensures IsDigits(digits) && PieceRecord(pc) == Record(Value(digits), Strip(RemoveAll(text, EndTag)))
  {
  }

  /** `parse_translation`: walks the `re.split` list two entries at a time. */
  method ParseTranslation(rawText: string) returns (pages: seq<PageData>)
    ensures pages == Parse(rawText)
  {
    var pageBlocks := SplitBlocks(rawText);
    ghost var ps := Scan(rawText).pieces;
    ghost var k := 0;
    pages := [];
    var i := 1;
    while i < |pageBlocks| - 1
      invariant i == 2 * k + 1 && k <= |ps|
      invariant pages == Records(ps)[..k]
    {
      assert pageBlocks[i] == ps[k].marker.digits && pageBlocks[i + 1] == ps[k].text;
      var pageNum := Value(pageBlocks[i]);
      var content := Strip(RemoveAll(pageBlocks[i + 1], EndTag));
      var pageData := ExtractFields(pageNum, content);
      RecordOfPiece(ps[k], pageBlocks[i], pageBlocks[i + 1]);
      TakeSnoc(Records(ps), k);
      pages := pages + [pageData];
      i := i + 2;
      k := k + 1;
    }
    assert pages == Records(ps);
    if |pages| == 0 && Strip(rawText) != "" {
      pages := pages + [Fallback(rawText)];
    }
  }
}
