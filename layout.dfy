/**
 * Column layout for a terminal where a CJK ideograph (U+4E00..U+9FFF) takes
 * two cells and every other character one: measuring, padding and the
 * truncation of a meaning to the 38-cell column of the word list.
 */
module Layout {
  import opened Meanings

  /** Width of the meaning column in the word list. */
  const MeaningColumn := 38
  /** A meaning wider than the column is cut to at most this width before "...". */
  const TruncatedWidth := 35
  const Ellipsis := "..."

  predicate IsCjk(c: char) {
    '\U{4E00}' <= c <= '\U{9FFF}'
  }

  function CharWidth(c: char): nat {
    if IsCjk(c) then 2 else 1
  }

  /** Cells that `s` occupies on the terminal. */
  function Width(s: string): nat
    decreases |s|
  {
    if s == [] then 0 else Width(s[..|s| - 1]) + CharWidth(s[|s| - 1])
  }

  /** How many characters of `s` are CJK ideographs. */
  function CjkCount(s: string): nat
    decreases |s|
  {
    if s == [] then 0 else (if IsCjk(s[0]) then 1 else 0) + CjkCount(s[1..])
  }

  function Spaces(n: nat): (r: string)
    ensures |r| == n && forall i :: 0 <= i < n ==> r[i] == ' '
  {
    seq(n, _ => ' ')
  }

  lemma {:induction false} WidthAppend(a: string, b: string)
    ensures Width(a + b) == Width(a) + Width(b)
    decreases |b|
  {
    if b == [] {
      assert a + b == a;
    } else {
      var b' := b[..|b| - 1];
      WidthAppend(a, b');
      assert (a + b)[..|a + b| - 1] == a + b';
    }
  }

  lemma {:induction false} WidthOfSpaces(n: nat)
    ensures Width(Spaces(n)) == n
  {
    if n > 0 {
      WidthOfSpaces(n - 1);
      assert Spaces(n)[..n - 1] == Spaces(n - 1);
    }
  }

  /** The width is the length plus one per CJK ideograph. */
  lemma {:induction false} WidthIsLengthPlusCjk(s: string)
    ensures Width(s) == |s| + CjkCount(s)
    decreases |s|
  {
    if s != [] {
      WidthIsLengthPlusCjk(s[1..]);
      WidthAppend([s[0]], s[1..]);
      assert [s[0]] + s[1..] == s;
      assert [s[0]][..0] == [];
    }
  }

  /** A string is at least as wide as it is long and at most twice that. */
  lemma WidthBounds(s: string)
    ensures |s| <= Width(s) <= 2 * |s|
  {
    WidthIsLengthPlusCjk(s);
    CjkCountBound(s);
  }

  lemma {:induction false} CjkCountBound(s: string)
    ensures CjkCount(s) <= |s|
    decreases |s|
  {
    if s != [] {
      CjkCountBound(s[1..]);
    }
  }

  /** `get_display_width`: adds up the cells of `text` one character at a time. */
  method DisplayWidth(text: string) returns (width: nat)
    ensures width == Width(text)
    ensures width == |text| + CjkCount(text)
  {
    width := 0;
    var i := 0;
    while i < |text|
      invariant 0 <= i <= |text|
      invariant width == Width(text[..i])
    {
      assert text[..i + 1][..i] == text[..i];
      if '\U{4E00}' <= text[i] <= '\U{9FFF}' {
        width := width + 2;
      } else {
        width := width + 1;
      }
      i := i + 1;
    }
    assert text[..i] == text;
    WidthIsLengthPlusCjk(text);
  }

  /**
   * `pad_text`: text already as wide as the target is returned unchanged;
   * narrower text gets trailing blanks until it fills the target exactly.
   */
  function PadText(text: string, targetWidth: int): (r: string)
    ensures Width(text) >= targetWidth ==> r == text
    ensures Width(text) < targetWidth ==>
      |r| > |text| && r[..|text|] == text &&
      (forall i :: |text| <= i < |r| ==> r[i] == ' ') &&
      Width(r) == targetWidth
  {
    var current := Width(text);
    if current >= targetWidth then text
    else
      var pad := Spaces(targetWidth - current);
      WidthAppend(text, pad);
      WidthOfSpaces(targetWidth - current);
      assert (text + pad)[..|text|] == text;
      text + pad
  }

  lemma WidthOfEllipsis()
    ensures Width(Ellipsis) == 3
  {
    assert "."[..0] == [];
    assert Width(".") == 1;
    assert ".."[..1] == ".";
    assert Width("..") == 2;
    assert Ellipsis[..2] == "..";
  }

  /** What the truncation loop leaves behind when it stops at character `i`. */
  lemma TruncatedFits(meaning: string, i: nat)
    requires i < |meaning|
    requires Width(meaning[..i]) <= TruncatedWidth < Width(meaning[..i + 1])
    ensures var shown := meaning[..i] + Ellipsis;
      |shown| >= 3 && shown[|shown| - 3..] == Ellipsis && shown[..i] == meaning[..i] &&
      MeaningColumn - 1 <= Width(shown) <= MeaningColumn
  {
    assert meaning[..i + 1][..i] == meaning[..i];
    WidthAppend(meaning[..i], Ellipsis);
    WidthOfEllipsis();
    var shown := meaning[..i] + Ellipsis;
    assert shown[..i] == meaning[..i];
    assert shown[|shown| - 3..] == Ellipsis;
  }

  /**
   * The loop of the truncation step: takes characters of `meaning` while the
   * taken prefix stays within `limit` cells, and stops at the first one that
   * would overflow it. The result is the longest prefix that fits.
   */
  method FittingPrefix(meaning: string, limit: nat) returns (temp: string)
    ensures |temp| <= |meaning| && temp == meaning[..|temp|]
    ensures Width(temp) <= limit
    ensures |temp| < |meaning| ==> Width(meaning[..|temp| + 1]) > limit
  {
    temp := "";
    var i := 0;
    while i < |meaning|
      invariant 0 <= i <= |meaning|
      invariant temp == meaning[..i]
      invariant Width(temp) <= limit
    {
      var w := DisplayWidth(temp + [meaning[i]]);
      if w <= limit {
        temp := temp + [meaning[i]];
        i := i + 1;
      } else {
        assert temp + [meaning[i]] == meaning[..i + 1];
        break;
      }
    }
  }

  /**
   * The truncation step of the word list: a meaning wider than the column
   * keeps its longest prefix of width at most 35, followed by "...".
   */
  method Truncate(meaning: string) returns (shown: string)
    ensures Width(meaning) <= MeaningColumn ==> shown == meaning
    ensures Width(meaning) > MeaningColumn ==>
      |shown| >= 3 &&
      var kept := |shown| - 3;
      kept < |meaning| && shown == meaning[..kept] + Ellipsis &&
      Width(meaning[..kept]) <= TruncatedWidth < Width(meaning[..kept + 1])
    ensures Width(meaning) > MeaningColumn ==> MeaningColumn - 1 <= Width(shown) <= MeaningColumn
  {
    var full := DisplayWidth(meaning);
    if full > MeaningColumn {
      assert meaning[..|meaning|] == meaning;
      var temp := FittingPrefix(meaning, TruncatedWidth);
      assert |temp| < |meaning|;
      TruncatedFits(meaning, |temp|);
      shown := temp + Ellipsis;
    } else {
      shown := meaning;
    }
  }

  /**
   * Fits an already formatted meaning into the column: truncated when too
   * wide, then padded, so that it fills the column exactly.
   */
  method FitColumn(text: string) returns (cell: string)
    ensures Width(cell) == MeaningColumn
    ensures Width(text) <= MeaningColumn ==> cell == PadText(text, MeaningColumn)
    ensures Width(text) > MeaningColumn ==>
      exists kept :: 0 <= kept < |text| &&
        Width(text[..kept]) <= TruncatedWidth < Width(text[..kept + 1]) &&
        cell == PadText(text[..kept] + Ellipsis, MeaningColumn)
  {
    var shown := text;
    var width := DisplayWidth(text);
    if width > MeaningColumn {
      shown := Truncate(text);
      ghost var kept := |shown| - 3;
      assert Width(text[..kept]) <= TruncatedWidth < Width(text[..kept + 1]);
    }
    cell := PadText(shown, MeaningColumn);
  }

  /**
   * The meaning cell of one row of the word list: formatted, truncated when
   * too wide, then padded. It always fills the column exactly.
   */
  method MeaningCell(meaning: string) returns (cell: string)
    ensures Width(cell) == MeaningColumn
    ensures Width(FormatMeaning(meaning)) <= MeaningColumn ==>
      cell == PadText(FormatMeaning(meaning), MeaningColumn)
    ensures Width(FormatMeaning(meaning)) > MeaningColumn ==>
      exists kept :: 0 <= kept < |FormatMeaning(meaning)| &&
        Width(FormatMeaning(meaning)[..kept]) <= TruncatedWidth < Width(FormatMeaning(meaning)[..kept + 1]) &&
        cell == PadText(FormatMeaning(meaning)[..kept] + Ellipsis, MeaningColumn)
  {
    var formatted := FormatMeaning(meaning);
    cell := FitColumn(formatted);
  }
}
