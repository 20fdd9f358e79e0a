/** Column and whitespace helpers of the custom plain-text editor (the static
    members of PlainTextEdit that the Tab/Backtab handling is built from).

    A line of text is a `string`; a QString holds UTF-16 code units, and each
    `char` here stands for one of them. Columns are tab-expanded display
    columns, counted from 0. */
module EditorText {

  /** Width of a tab stop (mTabSize). */
  const TabSize: nat := 4
  /** Width of one indentation step (mIndentSize). */
  const IndentSize: nat := 2

  /** QChar::isSpace: the ASCII controls TAB..CR, the space, NEL, NBSP and the
      remaining Unicode space, line and paragraph separators. */
  predicate IsSpace(c: char)
  {
    c == ' ' || ('\t' <= c <= '\r') || c == '\U{85}' || c == '\U{A0}' || c == '\U{1680}'
    || ('\U{2000}' <= c <= '\U{200A}') || c == '\U{2028}' || c == '\U{2029}'
    || c == '\U{202F}' || c == '\U{205F}' || c == '\U{3000}'
  }

  predicate IsIndentStop(column: int)
  {
    column % IndentSize == 0
  }

  predicate IsTabStop(column: int)
  {
    column % TabSize == 0
  }

  function Max(a: int, b: int): int
  {
    if a < b then b else a
  }

  /** `n` copies of `c`. */
  function Repeat(c: char, n: nat): (r: string)
    ensures |r| == n
    ensures forall i :: 0 <= i < n ==> r[i] == c
  {
    if n == 0 then [] else Repeat(c, n - 1) + [c]
  }

  // ---------------------------------------------------------------------------
  // Tab-expanded columns

  /** The column reached after one character laid out at `column`: a tab jumps
      to the next tab stop strictly to the right, anything else takes one column. */
  function Advance(column: nat, c: char): (r: nat)
    ensures column < r <= column + TabSize
    ensures c != '\t' ==> r == column + 1
    ensures c == '\t' ==> IsTabStop(r) && forall m :: column < m < r ==> !IsTabStop(m)
  {
    if c == '\t' then column - column % TabSize + TabSize else column + 1
  }

  /** The column reached after laying `s` out starting at column `start`. */
  function EndColumn(start: nat, s: string): (r: nat)
    ensures r >= start + |s|
  {
    if s == [] then start else Advance(EndColumn(start, s[..|s| - 1]), s[|s| - 1])
  }

  /** Display column of position `position` of `text` (columnAt). */
  function Column(text: string, position: nat): nat
    requires position <= |text|
  {
    EndColumn(0, text[..position])
  }

  /** Laying out `a + b` is laying out `a` and then `b` from where `a` ended. */
  lemma {:induction false} EndColumnAppend(start: nat, a: string, b: string)
    ensures EndColumn(start, a + b) == EndColumn(EndColumn(start, a), b)
    decreases |b|
  {
    if b == [] {
      assert a + b == a;
    } else {
      var b' := b[..|b| - 1];
      assert (a + b)[..|a + b| - 1] == a + b';
      assert (a + b)[|a + b| - 1] == b[|b| - 1];
      EndColumnAppend(start, a, b');
    }
  }

  /** Column positions never decrease along a line, and grow by at least one per character. */
  lemma ColumnMonotone(text: string, p: nat, q: nat)
    requires p <= q <= |text|
    ensures Column(text, p) + (q - p) <= Column(text, q)
  {
    assert text[..q] == text[..p] + text[p..q];
    EndColumnAppend(0, text[..p], text[p..q]);
  }

  /** One more character at position `p` advances the column by that character. */
  lemma ColumnStep(text: string, p: nat)
    requires p < |text|
    ensures Column(text, p + 1) == Advance(Column(text, p), text[p])
  {
    assert text[..p + 1][..p] == text[..p];
  }

  /** A run of `n` spaces takes exactly `n` columns. */
  lemma {:induction false} EndColumnSpaces(start: nat, n: nat)
    ensures EndColumn(start, Repeat(' ', n)) == start + n
  {
    if n > 0 {
      assert Repeat(' ', n)[..n - 1] == Repeat(' ', n - 1);
      EndColumnSpaces(start, n - 1);
    }
  }

  /** From a tab stop, `n` tabs take exactly `n` tab widths and end on a tab stop. */
  lemma {:induction false} EndColumnTabs(start: nat, n: nat)
    requires IsTabStop(start)
    ensures EndColumn(start, Repeat('\t', n)) == start + n * TabSize
    ensures IsTabStop(EndColumn(start, Repeat('\t', n)))
  {
    if n > 0 {
      assert Repeat('\t', n)[..n - 1] == Repeat('\t', n - 1);
      EndColumnTabs(start, n - 1);
    }
  }

  /** columnAt: the tab-expanded column of `position` in `text`. */
  method ColumnAt(text: string, position: nat) returns (column: nat)
    requires position <= |text|
    ensures column == Column(text, position)
  {
    column := 0;
    for i := 0 to position
      invariant column == Column(text, i)
    {
      ColumnStep(text, i);
      if text[i] == '\t' {
        column := column - (column % TabSize) + TabSize;
      } else {
        column := column + 1;
      }
    }
  }

  // ---------------------------------------------------------------------------
  // Whitespace scanning

  /** Index of the first non-whitespace character of `text`, or |text| if there is none. */
  function FirstNonSpaceIndex(text: string): (r: nat)
    ensures r <= |text|
    ensures forall j :: 0 <= j < r ==> IsSpace(text[j])
    ensures r < |text| ==> !IsSpace(text[r])
  {
    if text == [] || !IsSpace(text[0]) then 0 else 1 + FirstNonSpaceIndex(text[1..])
  }

  /** firstNonSpace. */
  method FirstNonSpace(text: string) returns (i: nat)
    ensures i == FirstNonSpaceIndex(text)
  {
    i := 0;
    while i < |text|
      invariant i <= |text|
      invariant forall j :: 0 <= j < i ==> IsSpace(text[j])
    {
      if !IsSpace(text[i]) {
        return;
      }
      i := i + 1;
    }
  }

  /** Number of whitespace characters immediately to the left of `position`. */
  function SpacesBefore(text: string, position: nat): (k: nat)
    requires position <= |text|
    ensures k <= position
    ensures forall j :: position - k <= j < position ==> IsSpace(text[j])
    ensures position - k == 0 || !IsSpace(text[position - k - 1])
  {
    if position == 0 || !IsSpace(text[position - 1]) then 0 else 1 + SpacesBefore(text, position - 1)
  }

  /** spacesLeftFromPosition. */
  method SpacesLeftFromPosition(text: string, position: nat) returns (k: nat)
    requires position <= |text|
    ensures k == SpacesBefore(text, position)
  {
    var i: nat := position;
    while i > 0
      invariant i <= position
      invariant SpacesBefore(text, position) == (position - i) + SpacesBefore(text, i)
    {
      if !IsSpace(text[i - 1]) {
        break;
      }
      i := i - 1;
    }
    k := position - i;
  }

  /** lineIndentPosition: the first non-whitespace position, moved left by the
      column's distance past the previous indent stop. */
  function IndentPositionOf(text: string): (r: nat)
    ensures r <= FirstNonSpaceIndex(text) < r + IndentSize
  {
    var i := FirstNonSpaceIndex(text);
    assert i == 0 ==> text[..i] == [];
    i - Column(text, i) % IndentSize
  }

  /** The indent position lies on an indent stop: it is the first non-space
      column rounded down to a multiple of the indent width. */
  lemma IndentPositionAligned(text: string)
    ensures Column(text, IndentPositionOf(text))
            == Column(text, FirstNonSpaceIndex(text)) - Column(text, FirstNonSpaceIndex(text)) % IndentSize
    ensures IsIndentStop(Column(text, IndentPositionOf(text)))
  {
    var i := FirstNonSpaceIndex(text);
    var c := Column(text, i);
    assert IndentPositionOf(text) == i - c % IndentSize;
    if c % IndentSize != 0 {
      assert i != 0 by {
        assert text[..0] == [];
      }
      ColumnStep(text, i - 1);
      TabStopIsIndentStop(c);
      assert text[i - 1] != '\t';
      assert Column(text, i - 1) == c - 1;
      assert c % IndentSize == 1 && (c - 1) % IndentSize == 0;
    } else {
      assert IndentPositionOf(text) == i;
    }
  }

  /** A tab stop is also an indent stop (the indent width divides the tab width). */
  lemma TabStopIsIndentStop(column: nat)
    ensures IsTabStop(column) ==> IsIndentStop(column)
  {
    if IsTabStop(column) {
      var k := column / TabSize;
      assert column == TabSize * k;
      assert column == IndentSize * (2 * k);
    }
  }

  /** lineIndentPosition. */
  method LineIndentPosition(text: string) returns (r: nat)
    ensures r == IndentPositionOf(text)
  {
    var i := 0;
    while i < |text|
      invariant i <= |text|
      invariant forall j :: 0 <= j < i ==> IsSpace(text[j])
    {
      if !IsSpace(text[i]) {
        break;
      }
      i := i + 1;
    }
    assert i == FirstNonSpaceIndex(text);
    var column := ColumnAt(text, i);
    r := i - (column % IndentSize);
  }

  // ---------------------------------------------------------------------------
  // Indent stops and indentation strings

  /** indentedColumn: the next indent stop to the right of `column` (indent),
      or the previous one to its left, never below 0 (unindent). */
  function IndentedColumn(column: nat, doIndent: bool): (r: nat)
    ensures IsIndentStop(r)
    ensures doIndent ==> column < r && forall m: nat :: column < m && IsIndentStop(m) ==> r <= m
    ensures !doIndent && column == 0 ==> r == 0
    ensures !doIndent && column > 0 ==> r < column && forall m: nat :: m < column && IsIndentStop(m) ==> m <= r
  {
    var aligned := (column / IndentSize) * IndentSize;
    if doIndent then aligned + IndentSize
    else if aligned < column then aligned
    else Max(0, aligned - IndentSize)
  }

  /** `s` is `tabs` tabs followed by nothing but spaces. */
  predicate TabsThenSpaces(s: string, tabs: nat)
  {
    tabs <= |s|
    && (forall i :: 0 <= i < tabs ==> s[i] == '\t')
    && (forall i :: tabs <= i < |s| ==> s[i] == ' ')
  }

  /** indentationString: the tabs and spaces that take the layout from
      `startColumn` to `targetColumn` (nothing when the target is not to the right). */
  function IndentationString(startColumn: nat, targetColumn: nat): (r: string)
    ensures targetColumn <= startColumn ==> r == []
    ensures exists tabs: nat :: TabsThenSpaces(r, tabs) && |r| - tabs < TabSize
  {
    var target := Max(startColumn, targetColumn);
    var alignedStart := startColumn - startColumn % TabSize + TabSize;
    var leadTab := alignedStart > startColumn && alignedStart <= target;
    var from := if leadTab then alignedStart else startColumn;
    var columns := target - from;
    var tabs := columns / TabSize;
    var r := (if leadTab then "\t" else "") + Repeat('\t', tabs) + Repeat(' ', columns - tabs * TabSize);
    assert TabsThenSpaces(r, |r| - (columns - tabs * TabSize));
    r
  }

  /** Laid out from `startColumn`, the indentation string ends exactly at the
      larger of the two columns. */
  lemma IndentationStringReaches(startColumn: nat, targetColumn: nat)
    ensures EndColumn(startColumn, IndentationString(startColumn, targetColumn)) == Max(startColumn, targetColumn)
  {
    var target := Max(startColumn, targetColumn);
    var alignedStart := startColumn - startColumn % TabSize + TabSize;
    var leadTab := alignedStart > startColumn && alignedStart <= target;
    var from := if leadTab then alignedStart else startColumn;
    var columns := target - from;
    var tabs := columns / TabSize;
    var spaces := columns - tabs * TabSize;
    var runs := Repeat('\t', tabs) + Repeat(' ', spaces);
    if leadTab {
      assert IndentationString(startColumn, targetColumn) == "\t" + runs;
      EndColumnAppend(startColumn, "\t", runs);
      assert "\t"[..0] == [];
      assert EndColumn(startColumn, "\t") == from;
      RunsReach(from, tabs, spaces);
    } else {
      assert tabs == 0;
      assert IndentationString(startColumn, targetColumn) == runs;
      RunsReach(from, 0, spaces);
    }
  }

  /** Tabs from a tab stop, then spaces, end `tabs` tab widths plus `spaces` further on. */
  lemma RunsReach(from: nat, tabs: nat, spaces: nat)
    requires tabs == 0 || IsTabStop(from)
    ensures EndColumn(from, Repeat('\t', tabs) + Repeat(' ', spaces)) == from + tabs * TabSize + spaces
  {
    var afterTabs := EndColumn(from, Repeat('\t', tabs));
    assert afterTabs == from + tabs * TabSize by {
      if tabs == 0 {
        assert Repeat('\t', 0) == [];
      } else {
        EndColumnTabs(from, tabs);
      }
    }
    EndColumnAppend(from, Repeat('\t', tabs), Repeat(' ', spaces));
    EndColumnSpaces(afterTabs, spaces);
  }
}
