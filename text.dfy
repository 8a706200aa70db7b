/**
 * Sequence and string operations the translator is built from: literal search,
 * `str.split`, `str.join`, the literal `re.sub(pattern, '', s)`, and
 * `str.strip`, each with the property that pins it down.
 */
module Text {
  import opened Wrappers

  /** The characters for which Python's `str.isspace()` holds; the regex class
      `\s` on a `str` pattern matches exactly these. */
  predicate IsSpace(c: char) {
    || '\t' <= c <= '\r'
    || '\U{1C}' <= c <= ' '
    || c == '\U{85}' || c == '\U{A0}' || c == '\U{1680}'
    || '\U{2000}' <= c <= '\U{200A}'
    || c == '\U{2028}' || c == '\U{2029}' || c == '\U{202F}' || c == '\U{205F}' || c == '\U{3000}'
  }

  predicate AllIn(s: string, cs: char -> bool) {
    forall k :: 0 <= k < |s| ==> cs(s[k])
  }

  predicate AllSpace(s: string) {
    AllIn(s, IsSpace)
  }

  // ---------------------------------------------------------------- search

  /** `pat` occurs in `s` starting at position `p`. */
  predicate PrefixAt<T(==)>(s: seq<T>, p: nat, pat: seq<T>) {
    p + |pat| <= |s| && s[p..p + |pat|] == pat
  }

  /** No occurrence of `pat` starts anywhere in `s`. */
  predicate Free<T(==)>(s: seq<T>, pat: seq<T>) {
    forall j :: 0 <= j <= |s| ==> !PrefixAt(s, j, pat)
  }

  /** The leftmost occurrence of `pat` in `s` at or after `from` (`FindFromSpec`). */
  function FindFrom<T(==)>(s: seq<T>, pat: seq<T>, from: nat): (r: Option<nat>)
    ensures r.Some? ==> from <= r.value && PrefixAt(s, r.value, pat)
    decreases |s| - from
  {
    if PrefixAt(s, from, pat) then Some(from)
    else if from >= |s| then None
    else FindFrom(s, pat, from + 1)
  }

  /** No occurrence lies before the one found, and none at all when none is found. */
  lemma {:induction false} FindFromSpec<T>(s: seq<T>, pat: seq<T>, from: nat)
    ensures FindFrom(s, pat, from).Some? ==> forall j :: from <= j < FindFrom(s, pat, from).value ==> !PrefixAt(s, j, pat)
    ensures FindFrom(s, pat, from).None? ==> forall j :: from <= j ==> !PrefixAt(s, j, pat)
    decreases |s| - from
  {
    if !PrefixAt(s, from, pat) && from < |s| {
      FindFromSpec(s, pat, from + 1);
    }
  }

  /** A suffix of `t` that reads `x + y` holds `x` and then `y`. */
  lemma SuffixSplit<T>(t: seq<T>, i: nat, x: seq<T>, y: seq<T>)
    requires i <= |t| && t[i..] == x + y
    ensures i + |x| <= |t| && t[i..i + |x|] == x && t[i + |x|..] == y
  {
    assert t[i..i + |x|] == t[i..][..|x|];
    assert t[i + |x|..] == t[i..][|x|..];
  }

  lemma PrefixAtOfPrefix<T>(s: seq<T>, i: nat, j: nat, pat: seq<T>)
    requires i <= |s| && PrefixAt(s[..i], j, pat)
    ensures PrefixAt(s, j, pat)
  {
    assert s[..i][j..j + |pat|] == s[j..j + |pat|];
  }

  lemma PrefixAtOfSuffix<T>(s: seq<T>, i: nat, j: nat, pat: seq<T>)
    requires i <= |s| && PrefixAt(s[i..], j, pat)
    ensures PrefixAt(s, i + j, pat)
  {
    assert s[i..][j..j + |pat|] == s[i + j..i + j + |pat|];
  }

  // ---------------------------------------------------------------- split, join, concat

  /** Python's `s.split(sep)`: cut at every occurrence found by a left-to-right scan. */
  function SplitOn<T(==)>(s: seq<T>, sep: seq<T>): (parts: seq<seq<T>>)
    requires |sep| > 0
    ensures |parts| >= 1
    decreases |s|
  {
    match FindFrom(s, sep, 0)
    case None => [s]
    case Some(i) => [s[..i]] + SplitOn(s[i + |sep|..], sep)
  }

  /** Python's `sep.join(parts)`. */
  function Join<T>(parts: seq<seq<T>>, sep: seq<T>): seq<T>
    decreases |parts|
  {
    if |parts| == 0 then []
    else if |parts| == 1 then parts[0]
    else parts[0] + sep + Join(parts[1..], sep)
  }

  /** `''.join(parts)`. */
  function Concat<T>(parts: seq<seq<T>>): seq<T>
    decreases |parts|
  {
    if |parts| == 0 then [] else Concat(parts[..|parts| - 1]) + parts[|parts| - 1]
  }

  lemma JoinCons<T>(x: seq<T>, rest: seq<seq<T>>, sep: seq<T>)
    requires |rest| >= 1
    ensures Join([x] + rest, sep) == x + sep + Join(rest, sep)
  {
    assert ([x] + rest)[1..] == rest;
  }

  /** Joining the pieces of a split gives back the input. */
  lemma {:induction false} JoinSplit<T>(s: seq<T>, sep: seq<T>)
    requires |sep| > 0
    ensures Join(SplitOn(s, sep), sep) == s
    decreases |s|
  {
    var f := FindFrom(s, sep, 0);
    if f.Some? {
      var i := f.value;
      var rest := s[i + |sep|..];
      var tail := SplitOn(rest, sep);
      assert SplitOn(s, sep) == [s[..i]] + tail;
      JoinSplit(rest, sep);
      JoinCons(s[..i], tail, sep);
      CutThree(s, i, i + |sep|);
    }
  }

  /** Cutting a sequence at two points and gluing the three parts gives it back. */
  lemma CutThree<T>(s: seq<T>, i: nat, j: nat)
    requires i <= j <= |s|
    ensures s == s[..i] + s[i..j] + s[j..]
  {
    assert s[..j] == s[..i] + s[i..j];
    assert s == s[..j] + s[j..];
  }

  /** No piece of a split contains the separator. */
  lemma {:induction false} SplitPiecesFree<T>(s: seq<T>, sep: seq<T>)
    requires |sep| > 0
    ensures forall k :: 0 <= k < |SplitOn(s, sep)| ==> Free(SplitOn(s, sep)[k], sep)
    decreases |s|
  {
    var parts := SplitOn(s, sep);
    FindFromSpec(s, sep, 0);
    match FindFrom(s, sep, 0)
    case None =>
    case Some(i) =>
      var rest := s[i + |sep|..];
      SplitPiecesFree(rest, sep);
      forall j | 0 <= j <= i ensures !PrefixAt(s[..i], j, sep) {
        if PrefixAt(s[..i], j, sep) { PrefixAtOfPrefix(s, i, j, sep); }
      }
      assert parts == [s[..i]] + SplitOn(rest, sep);
      forall k | 0 <= k < |parts| ensures Free(parts[k], sep) {
        if k > 0 { assert parts[k] == SplitOn(rest, sep)[k - 1]; }
      }
  }

  /** Splitting at a one-element separator undoes a join, when no part holds it. */
  lemma {:induction false} SplitJoinSingle<T>(parts: seq<seq<T>>, x: T)
    requires |parts| >= 1
    requires forall k :: 0 <= k < |parts| ==> x !in parts[k]
    ensures SplitOn(Join(parts, [x]), [x]) == parts
    decreases |parts|
  {
    var s := Join(parts, [x]);
    var p := parts[0];
    FindFromSpec(s, [x], 0);
    forall j | 0 <= j < |p| ensures !PrefixAt(s, j, [x]) {
      if |parts| > 1 { assert s == p + [x] + Join(parts[1..], [x]); }
      assert s[j] == p[j];
      assert p[j] != x;
    }
    if |parts| == 1 {
      assert forall j :: 0 <= j ==> !PrefixAt(s, j, [x]);
      assert FindFrom(s, [x], 0) == None;
      assert parts == [p];
    } else {
      var tail := Join(parts[1..], [x]);
      assert s == p + [x] + tail;
      assert PrefixAt(s, |p|, [x]);
      assert FindFrom(s, [x], 0) == Some(|p|);
      assert s[|p| + 1..] == tail;
      assert s[..|p|] == p;
      assert SplitOn(s, [x]) == [s[..|p|]] + SplitOn(s[|p| + 1..], [x]);
      SplitJoinSingle(parts[1..], x);
      assert parts == [p] + parts[1..];
    }
  }

  lemma {:induction false} ConcatAppend<T>(a: seq<seq<T>>, b: seq<seq<T>>)
    ensures Concat(a + b) == Concat(a) + Concat(b)
    decreases |b|
  {
    if |b| == 0 {
      assert a + b == a;
    } else {
      var b' := b[..|b| - 1];
      assert (a + b)[..|a + b| - 1] == a + b';
      ConcatAppend(a, b');
    }
  }

  // ---------------------------------------------------------------- literal removal

  /** `re.sub(pat, '', s)` for a literal `pat`: one left-to-right pass deleting
      every occurrence it meets; what the deletions bring together is not rescanned. */
  function RemoveAll<T(==)>(s: seq<T>, pat: seq<T>): (r: seq<T>)
    requires |pat| > 0
    ensures |r| <= |s|
    decreases |s|
  {
    if |s| == 0 then []
    else if PrefixAt(s, 0, pat) then RemoveAll(s[|pat|..], pat)
    else [s[0]] + RemoveAll(s[1..], pat)
  }

  lemma {:induction false} RemoveAllUpTo<T>(s: seq<T>, pat: seq<T>, i: nat)
    requires |pat| > 0 && i <= |s|
    requires forall j :: 0 <= j < i ==> !PrefixAt(s, j, pat)
    ensures RemoveAll(s, pat) == s[..i] + RemoveAll(s[i..], pat)
    decreases i
  {
    if i == 0 {
      assert s[..0] == [] && s[0..] == s;
    } else {
      var t := s[1..];
      assert !PrefixAt(s, 0, pat);
      assert RemoveAll(s, pat) == [s[0]] + RemoveAll(t, pat);
      forall j | 0 <= j < i - 1 ensures !PrefixAt(t, j, pat) {
        if PrefixAt(t, j, pat) { PrefixAtOfSuffix(s, 1, j, pat); }
      }
      RemoveAllUpTo(t, pat, i - 1);
      assert t[i - 1..] == s[i..];
      assert s[..i] == [s[0]] + t[..i - 1];
    }
  }

  /** Concatenating parts after a first one puts that one in front. */
  lemma ConcatCons<T>(x: seq<T>, rest: seq<seq<T>>)
    ensures Concat([x] + rest) == x + Concat(rest)
  {
    ConcatAppend([x], rest);
    assert Concat([x]) == Concat([x][..0]) + x;
  }

  lemma RemoveAllAtOccurrence<T>(s: seq<T>, pat: seq<T>, i: nat)
    requires |pat| > 0 && PrefixAt(s, i, pat)
    requires forall j :: 0 <= j < i ==> !PrefixAt(s, j, pat)
    ensures RemoveAll(s, pat) == s[..i] + RemoveAll(s[i + |pat|..], pat)
  {
    RemoveAllUpTo(s, pat, i);
    var t := s[i..];
    assert t[0..|pat|] == s[i..i + |pat|];
    assert t[|pat|..] == s[i + |pat|..];
  }

  /** The removal is `''.join(s.split(pat))`: the input cut at each occurrence
      of `pat` and glued back without it. */
  lemma {:induction false} RemoveAllIsConcatOfSplit<T>(s: seq<T>, pat: seq<T>)
    requires |pat| > 0
    ensures RemoveAll(s, pat) == Concat(SplitOn(s, pat))
    decreases |s|
  {
    match FindFrom(s, pat, 0)
    case None =>
      RemoveAllNone(s, pat);
      ConcatCons(s, []);
    case Some(i) =>
      var rest := s[i + |pat|..];
      RemoveAllSome(s, pat, i);
      RemoveAllIsConcatOfSplit(rest, pat);
      ConcatCons(s[..i], SplitOn(rest, pat));
  }

  lemma RemoveAllNone<T>(s: seq<T>, pat: seq<T>)
    requires |pat| > 0 && FindFrom(s, pat, 0).None?
    ensures RemoveAll(s, pat) == s && SplitOn(s, pat) == [s]
  {
    FindFromSpec(s, pat, 0);
    RemoveAllUpTo(s, pat, |s|);
    assert s[..|s|] == s && s[|s|..] == [];
  }

  lemma RemoveAllSome<T>(s: seq<T>, pat: seq<T>, i: nat)
    requires |pat| > 0 && FindFrom(s, pat, 0) == Some(i)
    ensures i + |pat| <= |s|
    ensures RemoveAll(s, pat) == s[..i] + RemoveAll(s[i + |pat|..], pat)
    ensures SplitOn(s, pat) == [s[..i]] + SplitOn(s[i + |pat|..], pat)
  {
    FindFromSpec(s, pat, 0);
    RemoveAllAtOccurrence(s, pat, i);
  }

  // ---------------------------------------------------------------- strip

  lemma AllInAppend(a: string, b: string, cs: char -> bool)
    requires AllIn(a, cs) && AllIn(b, cs)
    ensures AllIn(a + b, cs)
  {
    assert forall k :: 0 <= k < |b| ==> (a + b)[|a| + k] == b[k];
  }

  /** How many characters at the start of `s` belong to `cs`. */
  function LeadingIn(s: string, cs: char -> bool): (n: nat)
    ensures n <= |s|
    decreases |s|
  {
    if |s| > 0 && cs(s[0]) then 1 + LeadingIn(s[1..], cs) else 0
  }

  /** The leading run is all in `cs` and the next character is not. */
  lemma {:induction false} LeadingInSpec(s: string, cs: char -> bool)
    ensures AllIn(s[..LeadingIn(s, cs)], cs)
    ensures LeadingIn(s, cs) < |s| ==> !cs(s[LeadingIn(s, cs)])
    decreases |s|
  {
    if |s| > 0 && cs(s[0]) {
      LeadingInSpec(s[1..], cs);
      var n := LeadingIn(s, cs);
      assert s[..n] == [s[0]] + s[1..][..n - 1];
    }
  }

  /** How many characters at the end of `s` belong to `cs`. */
  function TrailingIn(s: string, cs: char -> bool): (n: nat)
    ensures n <= |s|
    decreases |s|
  {
    if |s| > 0 && cs(s[|s| - 1]) then 1 + TrailingIn(s[..|s| - 1], cs) else 0
  }

  /** The trailing run is all in `cs` and the character before it is not. */
  lemma {:induction false} TrailingInSpec(s: string, cs: char -> bool)
    ensures AllIn(s[|s| - TrailingIn(s, cs)..], cs)
    ensures TrailingIn(s, cs) < |s| ==> !cs(s[|s| - TrailingIn(s, cs) - 1])
    decreases |s|
  {
    if |s| > 0 && cs(s[|s| - 1]) {
      var t := s[..|s| - 1];
      TrailingInSpec(t, cs);
      var m := TrailingIn(t, cs);
      assert TrailingIn(s, cs) == m + 1;
      assert s[|s| - (m + 1)..] == t[|t| - m..] + [s[|s| - 1]];
      AllInAppend(t[|t| - m..], [s[|s| - 1]], cs);
      if m + 1 < |s| {
        assert s[|s| - (m + 1) - 1] == t[|t| - m - 1];
      }
    }
  }

  /** Neither end of `s` is in `cs`. */
  predicate TrimmedOf(s: string, cs: char -> bool) {
    |s| == 0 || (!cs(s[0]) && !cs(s[|s| - 1]))
  }

  predicate IsStripped(s: string) {
    TrimmedOf(s, IsSpace)
  }

  /** Python's `s.strip(chars)` for the character set `cs`: what is left after
      removing the longest runs of `cs` at both ends (`StripCharsSpec`). */
  function StripChars(s: string, cs: char -> bool): (r: string)
    ensures TrimmedOf(r, cs)
  {
    var i := LeadingIn(s, cs);
    var t := s[i..];
    var j := TrailingIn(t, cs);
    LeadingInSpec(s, cs);
    TrailingInSpec(t, cs);
    t[..|t| - j]
  }

  /** Python's `s.strip()`. */
  function Strip(s: string): (r: string)
    ensures IsStripped(r)
  {
    StripChars(s, IsSpace)
  }

  /** Where the stripped text sits in `s`: it starts at `i` and only
      characters of `cs` lie before and after it. */
  lemma StripCharsAt(s: string, cs: char -> bool) returns (i: nat)
    ensures var r := StripChars(s, cs);
      && i + |r| <= |s| && s[i..i + |r|] == r && AllIn(s[..i], cs) && AllIn(s[i + |r|..], cs)
  {
    i := LeadingIn(s, cs);
    var t := s[i..];
    var j := TrailingIn(t, cs);
    LeadingInSpec(s, cs);
    TrailingInSpec(t, cs);
    StripCuts(s, i, j);
  }

  /** Where the kept middle of a strip sits inside `s`. */
  lemma StripCuts(s: string, i: nat, j: nat)
    requires i <= |s| && j <= |s| - i
    ensures var t := s[i..]; var r := t[..|t| - j];
      && s[i..i + |r|] == r && s[i + |r|..] == t[|t| - j..]
  {
  }

  /** The stripped text is a piece of `s` with only characters of `cs` around
      it, and it is empty exactly when all of `s` is in `cs`. */
  lemma StripCharsSpec(s: string, cs: char -> bool)
    ensures var r := StripChars(s, cs);
      && |r| <= |s|
      && (exists i :: 0 <= i <= |s| - |r| && s[i..i + |r|] == r && AllIn(s[..i], cs) && AllIn(s[i + |r|..], cs))
    ensures StripChars(s, cs) == [] <==> AllIn(s, cs)
  {
    var r := StripChars(s, cs);
    var i := StripCharsAt(s, cs);
    if r == [] {
      assert s == s[..i] + s[i..];
      AllInAppend(s[..i], s[i..], cs);
    } else {
      assert s[i] == r[0];
    }
  }

  /** `Strip`, as `StripCharsSpec` describes it for whitespace. */
  lemma StripSpec(s: string)
    ensures var r := Strip(s);
      && |r| <= |s|
      && (exists i :: 0 <= i <= |s| - |r| && s[i..i + |r|] == r && AllSpace(s[..i]) && AllSpace(s[i + |r|..]))
    ensures Strip(s) == [] <==> AllSpace(s)
  {
    StripCharsSpec(s, IsSpace);
  }

  lemma {:induction false} LeadingInRun(a: string, c: string, cs: char -> bool)
    requires AllIn(a, cs) && (c == [] || !cs(c[0]))
    ensures LeadingIn(a + c, cs) == |a|
    decreases |a|
  {
    if |a| == 0 {
      assert a + c == c;
    } else {
      assert (a + c)[0] == a[0];
      assert (a + c)[1..] == a[1..] + c;
      LeadingInRun(a[1..], c, cs);
    }
  }

  lemma {:induction false} TrailingInRun(c: string, b: string, cs: char -> bool)
    requires AllIn(b, cs) && (c == [] || !cs(c[|c| - 1]))
    ensures TrailingIn(c + b, cs) == |b|
    decreases |b|
  {
    if |b| == 0 {
      assert c + b == c;
    } else {
      var s := c + b;
      assert s[|s| - 1] == b[|b| - 1];
      assert s[..|s| - 1] == c + b[..|b| - 1];
      TrailingInRun(c, b[..|b| - 1], cs);
    }
  }

  /** Stripping keeps exactly the text between the two runs: any split of `s`
      into a run, a trimmed middle and a run gives that middle. */
  lemma StripCharsUnique(a: string, t: string, b: string, cs: char -> bool)
    requires AllIn(a, cs) && AllIn(b, cs) && TrimmedOf(t, cs)
    ensures StripChars(a + t + b, cs) == t
  {
    var s := a + t + b;
    if |t| == 0 {
      assert s == a + b;
      LeadingInRun(a + b, [], cs);
      assert a + b + [] == a + b;
      assert s[|s|..] == [];
    } else {
      assert s == a + (t + b);
      LeadingInRun(a, t + b, cs);
      assert s[|a|..] == t + b;
      TrailingInRun(t, b, cs);
      assert (t + b)[..|t|] == t;
    }
  }

  lemma StripUnique(a: string, t: string, b: string)
    requires AllSpace(a) && AllSpace(b) && IsStripped(t)
    ensures Strip(a + t + b) == t
  {
    StripCharsUnique(a, t, b, IsSpace);
  }

  /** Stripping twice is stripping once. */
  lemma StripIdempotent(s: string)
    ensures Strip(Strip(s)) == Strip(s)
  {
    var t := Strip(s);
    StripUnique([], t, []);
    assert [] + t + [] == t;
  }
}
