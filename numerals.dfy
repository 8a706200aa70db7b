/**
 * Decimal numerals in the two scripts the translator meets: ASCII digits and
 * Bengali digits (U+09E6 to U+09EF). `Value` is Python's `int()` on a digit
 * string, `Render` is `str()` (ASCII) or its Bengali counterpart, and
 * `ItemLabel` is the list numbering `build_docx` puts before each item.
 */
module Numerals {

  predicate IsAsciiDigit(c: char) {
    '0' <= c <= '9'
  }

  predicate IsBanglaDigit(c: char) {
    '\U{9E6}' <= c <= '\U{9EF}'
  }

  /** The digits `\d` and `int()` accept in this model. */
  predicate IsDigit(c: char) {
    IsAsciiDigit(c) || IsBanglaDigit(c)
  }

  predicate IsDigits(s: string) {
    forall k :: 0 <= k < |s| ==> IsDigit(s[k])
  }

  function DigitValue(c: char): (d: nat)
    requires IsDigit(c)
    ensures d < 10
  {
    if IsAsciiDigit(c) then c as int - '0' as int else c as int - 0x9E6
  }

  datatype Script = Ascii | Bangla

  predicate InScript(c: char, script: Script) {
    match script
    case Ascii => IsAsciiDigit(c)
    case Bangla => IsBanglaDigit(c)
  }

  /** The glyph of digit `d` in `script`. */
  function Glyph(d: nat, script: Script): (c: char)
    requires d < 10
    ensures IsDigit(c) && InScript(c, script) && DigitValue(c) == d
  {
    match script
    case Ascii => (d + '0' as int) as char
    case Bangla => (d + 0x9E6) as char
  }

  /** Each script holds one glyph per digit. */
  lemma GlyphOfValue(c: char, script: Script)
    requires InScript(c, script)
    ensures IsDigit(c) && Glyph(DigitValue(c), script) == c
  {
  }

  /** Python's `int(ds)` on a string of decimal digits. */
  function Value(ds: string): nat
    requires IsDigits(ds)
    decreases |ds|
  {
    if |ds| == 0 then 0 else 10 * Value(ds[..|ds| - 1]) + DigitValue(ds[|ds| - 1])
  }

  /** The decimal numeral of `n` in `script`, without leading zeros. */
  function Render(n: nat, script: Script): (ds: string)
    ensures |ds| >= 1 && IsDigits(ds)
    decreases n
  {
    if n < 10 then [Glyph(n, script)] else Render(n / 10, script) + [Glyph(n % 10, script)]
  }

  /** A numeral in one script, with no leading zero. */
  predicate Canonical(ds: string, script: Script) {
    && |ds| >= 1
    && (forall k :: 0 <= k < |ds| ==> InScript(ds[k], script))
    && (|ds| > 1 ==> ds[0] != Glyph(0, script))
  }

  /** `int(str(n)) == n`, in either script. */
  lemma {:induction false} ValueOfRender(n: nat, script: Script)
    ensures Value(Render(n, script)) == n
    decreases n
  {
    if n >= 10 {
      var ds := Render(n, script);
      var init := Render(n / 10, script);
      assert ds[..|ds| - 1] == init;
      ValueOfRender(n / 10, script);
    }
  }

  lemma {:induction false} RenderCanonical(n: nat, script: Script)
    ensures Canonical(Render(n, script), script)
    decreases n
  {
    if n >= 10 {
      RenderCanonical(n / 10, script);
      var init := Render(n / 10, script);
      assert Render(n, script)[0] == init[0];
      if |init| == 1 {
        assert init[0] == Glyph(n / 10, script);
        GlyphOfValue(Glyph(0, script), script);
      }
    }
  }

  lemma {:induction false} ValuePositive(ds: string, script: Script)
    requires Canonical(ds, script) && |ds| > 1
    ensures Value(ds) >= 1
    decreases |ds|
  {
    var init := ds[..|ds| - 1];
    if |init| == 1 {
      GlyphOfValue(ds[0], script);
      assert init[0] == ds[0];
    } else {
      assert init[0] == ds[0];
      ValuePositive(init, script);
    }
  }

  /** Every canonical numeral is the rendering of its value: `str(int(ds)) == ds`. */
  lemma {:induction false} RenderOfValue(ds: string, script: Script)
    requires Canonical(ds, script)
    ensures IsDigits(ds) && Render(Value(ds), script) == ds
    decreases |ds|
  {
    var last := ds[|ds| - 1];
    GlyphOfValue(last, script);
    if |ds| == 1 {
      assert ds == [last];
    } else {
      var init := ds[..|ds| - 1];
      assert init[0] == ds[0];
      ValuePositive(ds, script);
      RenderOfValue(init, script);
      var n := Value(ds);
      assert n == 10 * Value(init) + DigitValue(last);
      assert n / 10 == Value(init) && n % 10 == DigitValue(last);
      assert ds == init + [last];
    }
  }

  /** `bangla_nums` in `build_docx`: the labels of the first twenty items. */
  const BanglaNums: seq<string> := [
    "\U{9E7}", "\U{9E8}", "\U{9E9}", "\U{9EA}", "\U{9EB}",
    "\U{9EC}", "\U{9ED}", "\U{9EE}", "\U{9EF}", "\U{9E7}\U{9E6}",
    "\U{9E7}\U{9E7}", "\U{9E7}\U{9E8}", "\U{9E7}\U{9E9}", "\U{9E7}\U{9EA}", "\U{9E7}\U{9EB}",
    "\U{9E7}\U{9EC}", "\U{9E7}\U{9ED}", "\U{9E7}\U{9EE}", "\U{9E7}\U{9EF}", "\U{9E8}\U{9E6}"
  ]

  /** The table lists the Bengali numerals one to twenty, in order. */
  lemma BanglaNumsAreNumerals()
    ensures |BanglaNums| == 20
    ensures forall j :: 0 <= j < 20 ==> BanglaNums[j] == Render(j + 1, Bangla)
  {
    forall j | 0 <= j < 20 ensures BanglaNums[j] == Render(j + 1, Bangla) {
      if j >= 9 {
        assert Render(j + 1, Bangla) == Render((j + 1) / 10, Bangla) + [Glyph((j + 1) % 10, Bangla)];
      }
    }
  }

  /** The label of item `j` (counting from 0): the numeral for `j + 1`, in
      Bengali digits for the first twenty items and in ASCII digits after. */
  function ItemLabel(j: nat): string {
    Render(j + 1, if j < 20 then Bangla else Ascii)
  }

  /** The label is what the builder looks up, `bangla_nums[j]` for the first
      twenty items and `str(j + 1)` after them, and reads back as `j + 1`. */
  lemma ItemLabelSpec(j: nat)
    ensures ItemLabel(j) == if j < |BanglaNums| then BanglaNums[j] else Render(j + 1, Ascii)
    ensures IsDigits(ItemLabel(j)) && Value(ItemLabel(j)) == j + 1
  {
    BanglaNumsAreNumerals();
    ValueOfRender(j + 1, if j < 20 then Bangla else Ascii);
  }
}
