/** Tab / Backtab handling of the custom editor (PlainTextEdit::indentOrUnindent).

    The document is a sequence of lines (QTextDocument blocks, without their
    line separators), and a cursor is a block number and a position inside
    that block. */
module EditorIndent {
  import opened EditorText
  import opened Wrappers

  /** A cursor position: block number and position within the block. */
  datatype Cursor = Cursor(line: nat, column: nat)

  predicate Precedes(a: Cursor, b: Cursor)
  {
    a.line < b.line || (a.line == b.line && a.column < b.column)
  }

  predicate ValidCursor(lines: seq<string>, c: Cursor)
  {
    c.line < |lines| && c.column <= |lines[c.line]|
  }

  function MinCursor(a: Cursor, b: Cursor): Cursor
  {
    if Precedes(b, a) then b else a
  }

  function MaxCursor(a: Cursor, b: Cursor): Cursor
  {
    if Precedes(b, a) then a else b
  }

  // ---------------------------------------------------------------------------
  // Document positions

  /** The character QTextDocument keeps between two blocks. */
  const ParagraphSeparator: char := '\U{2029}'

  /** The document as one string: the blocks with a separator between each two. */
  function Join(lines: seq<string>): string
  {
    if lines == [] then [] else lines[0] + JoinRest(lines[1..])
  }

  /** Each of `lines` preceded by a separator. */
  function JoinRest(lines: seq<string>): string
  {
    if lines == [] then [] else [ParagraphSeparator] + lines[0] + JoinRest(lines[1..])
  }

  /** The position of block `k` (QTextBlock::position): each earlier block
      takes its length plus one for its separator. */
  function LineStart(lines: seq<string>, k: nat): nat
    requires k <= |lines|
  {
    if k == 0 then 0 else LineStart(lines, k - 1) + |lines[k - 1]| + 1
  }

  /** The first `k` blocks, each followed by its separator. */
  function Prefix(lines: seq<string>, k: nat): (r: string)
    requires k <= |lines|
    ensures |r| == LineStart(lines, k)
  {
    if k == 0 then [] else Prefix(lines, k - 1) + lines[k - 1] + [ParagraphSeparator]
  }

  /** In the joined document, block `k` starts right after the first `k`
      blocks and their separators. */
  lemma {:induction false} JoinAt(lines: seq<string>, k: nat)
    requires k < |lines|
    ensures Join(lines) == Prefix(lines, k) + lines[k] + JoinRest(lines[k + 1..])
    decreases k
  {
    if k > 0 {
      JoinAt(lines, k - 1);
      assert lines[k..][1..] == lines[k + 1..];
      assert JoinRest(lines[k..]) == [ParagraphSeparator] + lines[k] + JoinRest(lines[k + 1..]);
    }
  }

  /** Two documents that agree on their first `k` blocks agree on `Prefix(_, k)`. */
  lemma {:induction false} PrefixAgree(a: seq<string>, b: seq<string>, k: nat)
    requires k <= |a| && k <= |b| && a[..k] == b[..k]
    ensures Prefix(a, k) == Prefix(b, k)
    decreases k
  {
    if k > 0 {
      assert a[..k - 1] == a[..k][..k - 1] == b[..k][..k - 1] == b[..k - 1];
      assert a[k - 1] == a[..k][k - 1] == b[..k][k - 1] == b[k - 1];
      PrefixAgree(a, b, k - 1);
    }
  }

  /** The document position of a cursor (QTextCursor::position). */
  function Offset(lines: seq<string>, c: Cursor): (r: nat)
    requires ValidCursor(lines, c)
    ensures LineStart(lines, c.line) <= r <= LineStart(lines, c.line) + |lines[c.line]|
    ensures r <= |Join(lines)|
  {
    JoinAt(lines, c.line);
    LineStart(lines, c.line) + c.column
  }

  /** Block `j` and its separator end no later than block `k` starts. */
  lemma {:induction false} LineStartGrows(lines: seq<string>, j: nat, k: nat)
    requires j < k <= |lines|
    ensures LineStart(lines, j) + |lines[j]| < LineStart(lines, k)
    decreases k
  {
    if j < k - 1 {
      LineStartGrows(lines, j, k - 1);
    }
  }

  /** Document positions follow the order of cursors. */
  lemma OffsetOrdered(lines: seq<string>, a: Cursor, b: Cursor)
    requires ValidCursor(lines, a) && ValidCursor(lines, b) && Precedes(a, b)
    ensures Offset(lines, a) < Offset(lines, b)
  {
    if a.line < b.line {
      LineStartGrows(lines, a.line, b.line);
    }
  }

  /** QTextBlock::position of block `k`; past the last block `findBlock(..).next()`
      is the invalid block, whose position is 0. */
  function BlockPosition(lines: seq<string>, k: nat): nat
    requires k <= |lines|
  {
    if k < |lines| then LineStart(lines, k) else 0
  }

  /** One past the block that holds the last selected character
      (`findBlock(end - 1).next()`); `end` is past the start of the document.
      Block `k` holds the positions from its start up to and including its
      separator. */
  function EndBlock(lines: seq<string>, end: Cursor): (r: nat)
    requires ValidCursor(lines, end) && (end.line > 0 || end.column > 0)
    ensures 0 < r <= |lines|
    ensures LineStart(lines, r - 1) <= Offset(lines, end) - 1 < LineStart(lines, r)
  {
    if end.column > 0 then end.line + 1 else end.line
  }

  /** The selection from `start` to `end` lies inside one block without
      covering all of it: `startBlock.next() == endBlock && (start >
      startBlock.position() || end < endBlock.position() - 1)`. In cursor
      terms: the start is inside its block, or the end is before the end of
      the same block; because the invalid block's position is 0, the second
      alternative never holds in the last block. */
  predicate PartiallySelectsOneLine(lines: seq<string>, start: Cursor, end: Cursor)
    requires ValidCursor(lines, start) && ValidCursor(lines, end) && Precedes(start, end)
    ensures PartiallySelectsOneLine(lines, start, end) <==>
              EndBlock(lines, end) == start.line + 1
              && (start.column > 0
                  || (EndBlock(lines, end) < |lines| && end.line == start.line && end.column < |lines[start.line]|))
  {
    var endBlock := EndBlock(lines, end);
    endBlock == start.line + 1
    && (Offset(lines, start) > BlockPosition(lines, start.line)
        || Offset(lines, end) < BlockPosition(lines, endBlock) - 1)
  }

  /** The document after removing the text between `start` and `end`
      (line separators included). */
  function RemoveSelection(lines: seq<string>, start: Cursor, end: Cursor): (r: seq<string>)
    requires ValidCursor(lines, start) && ValidCursor(lines, end) && Precedes(start, end)
    ensures |r| == |lines| - (end.line - start.line)
    ensures r[..start.line] == lines[..start.line]
    ensures r[start.line] == lines[start.line][..start.column] + lines[end.line][end.column..]
    ensures r[start.line + 1..] == lines[end.line + 1..]
  {
    lines[..start.line] + [lines[start.line][..start.column] + lines[end.line][end.column..]] + lines[end.line + 1..]
  }

  /** Where a cut at `|p| + j` falls in `p + x + t`, for `j` inside `x`. */
  lemma SliceAt(p: string, x: string, t: string, j: nat)
    requires j <= |x|
    ensures (p + x + t)[..|p| + j] == p + x[..j]
    ensures (p + x + t)[|p| + j..] == x[j..] + t
  {
  }

  /** The joined document before and after the position of cursor `c`. */
  lemma JoinAround(lines: seq<string>, c: Cursor)
    requires ValidCursor(lines, c)
    ensures Join(lines)[..Offset(lines, c)] == Prefix(lines, c.line) + lines[c.line][..c.column]
    ensures Join(lines)[Offset(lines, c)..] == lines[c.line][c.column..] + JoinRest(lines[c.line + 1..])
  {
    JoinAt(lines, c.line);
    SliceAt(Prefix(lines, c.line), lines[c.line], JoinRest(lines[c.line + 1..]), c.column);
  }

  /** A document that keeps the blocks before `start` and after `end` and joins
      the text left of `start` with the text right of `end`, as one string. */
  lemma JoinAfterRemoval(lines: seq<string>, r: seq<string>, start: Cursor, end: Cursor)
    requires ValidCursor(lines, start) && ValidCursor(lines, end) && start.line <= end.line
    requires start.line < |r| && r[..start.line] == lines[..start.line]
    requires r[start.line] == lines[start.line][..start.column] + lines[end.line][end.column..]
    requires r[start.line + 1..] == lines[end.line + 1..]
    ensures Join(r) == (Prefix(lines, start.line) + lines[start.line][..start.column])
                       + (lines[end.line][end.column..] + JoinRest(lines[end.line + 1..]))
  {
    JoinAt(r, start.line);
    PrefixAgree(r, lines, start.line);
  }

  /** removeSelectedText: as one string, the document loses exactly the
      characters from the start position up to the end position, which is a
      non-empty range. */
  lemma RemoveSelectionDeletesRange(lines: seq<string>, start: Cursor, end: Cursor)
    requires ValidCursor(lines, start) && ValidCursor(lines, end) && Precedes(start, end)
    ensures Offset(lines, start) < Offset(lines, end)
    ensures Join(RemoveSelection(lines, start, end))
            == Join(lines)[..Offset(lines, start)] + Join(lines)[Offset(lines, end)..]
  {
    OffsetOrdered(lines, start, end);
    JoinAround(lines, start);
    JoinAround(lines, end);
    JoinAfterRemoval(lines, RemoveSelection(lines, start, end), start, end);
  }

  // ---------------------------------------------------------------------------
  // Whole selected lines

  /** Where the indentation of a selected line is cut: its indent position, or,
      when unindenting a line whose indent position is 0, its first non-space. */
  function SelectedLineCut(text: string, doIndent: bool): (p: nat)
    ensures p <= FirstNonSpaceIndex(text)
  {
    var indentPosition := IndentPositionOf(text);
    if !doIndent && indentPosition == 0 then FirstNonSpaceIndex(text) else indentPosition
  }

  /** The column a selected line's indentation is moved to. */
  function SelectedLineTarget(text: string, doIndent: bool): nat
  {
    IndentedColumn(Column(text, SelectedLineCut(text, doIndent)), doIndent)
  }

  /** A selected line after Tab (`doIndent`) or Backtab: fresh indentation from
      column 0 to the target column, then the line from the cut onwards. */
  function IndentLine(text: string, doIndent: bool): (r: string)
    ensures |text| - SelectedLineCut(text, doIndent) <= |r|
    ensures r[|r| - (|text| - SelectedLineCut(text, doIndent))..] == text[SelectedLineCut(text, doIndent)..]
  {
    IndentationString(0, SelectedLineTarget(text, doIndent)) + text[SelectedLineCut(text, doIndent)..]
  }

  /** The rewritten line keeps everything from the cut on (so all of its
      non-blank text), its new indentation ends exactly at the target column,
      and that column is one indent step right of the cut for Tab, one indent
      step left of it for Backtab on a line whose indent position is not 0. */
  lemma IndentLineEffect(text: string, doIndent: bool)
    ensures var cut := SelectedLineCut(text, doIndent);
            var r := IndentLine(text, doIndent);
            var n := |IndentationString(0, SelectedLineTarget(text, doIndent))|;
            cut <= FirstNonSpaceIndex(text)
            && n <= |r| && r[n..] == text[cut..]
            && Column(r, n) == SelectedLineTarget(text, doIndent)
            && (forall j :: 0 <= j < n ==> r[j] == '\t' || r[j] == ' ')
            && (doIndent ==> SelectedLineTarget(text, doIndent) == Column(text, cut) + IndentSize)
            && (!doIndent && IndentPositionOf(text) > 0 ==>
                  SelectedLineTarget(text, doIndent) + IndentSize == Column(text, cut))
  {
    var cut := SelectedLineCut(text, doIndent);
    var target := SelectedLineTarget(text, doIndent);
    var ind := IndentationString(0, target);
    var r := IndentLine(text, doIndent);
    assert r == ind + text[cut..];
    assert r[..|ind|] == ind;
    IndentationBlank(0, target);
    IndentationStringReaches(0, target);
    SelectedLineStep(text, doIndent);
  }

  /** The target is one indent step right of the cut's column for Tab, and
      one step left of it for Backtab when the line's indent position is not 0. */
  lemma SelectedLineStep(text: string, doIndent: bool)
    ensures var cut := SelectedLineCut(text, doIndent);
            (doIndent ==> SelectedLineTarget(text, doIndent) == Column(text, cut) + IndentSize)
            && (!doIndent && IndentPositionOf(text) > 0 ==>
                  SelectedLineTarget(text, doIndent) + IndentSize == Column(text, cut))
  {
    var cut := SelectedLineCut(text, doIndent);
    if doIndent || IndentPositionOf(text) > 0 {
      IndentPositionAligned(text);
      assert cut == IndentPositionOf(text);
    }
    if !doIndent && IndentPositionOf(text) > 0 {
      ColumnMonotone(text, 0, cut);
      assert text[..0] == [];
    }
  }

  // ---------------------------------------------------------------------------
  // Cursor without a selection

  /** The line after Tab/Backtab at `position`: the blanks left of the cursor
      are replaced by the indentation from their start column to the target. */
  function IndentAtCursor(text: string, position: nat, doIndent: bool): (r: string)
    requires position <= |text|
    ensures var from := position - SpacesBefore(text, position);
            from + (|text| - position) <= |r|
            && r[..from] == text[..from]
            && r[|r| - (|text| - position)..] == text[position..]
  {
    var from := position - SpacesBefore(text, position);
    var target := IndentedColumn(Column(text, position), doIndent);
    text[..from] + IndentationString(Column(text, from), target) + text[position..]
  }

  /** The cursor's position in the line after IndentAtCursor (the end of the inserted text). */
  function CursorAfterIndent(text: string, position: nat, doIndent: bool): (r: nat)
    requires position <= |text|
    ensures position - SpacesBefore(text, position) <= r <= |IndentAtCursor(text, position, doIndent)|
    ensures IndentAtCursor(text, position, doIndent)[r..] == text[position..]
  {
    var from := position - SpacesBefore(text, position);
    var target := IndentedColumn(Column(text, position), doIndent);
    from + |IndentationString(Column(text, from), target)|
  }

  /** What the cursor leaves between the start of the blanks and its new
      position is blanks only. */
  lemma IndentAtCursorBlanks(text: string, position: nat, doIndent: bool)
    requires position <= |text|
    ensures var from := position - SpacesBefore(text, position);
            var r := IndentAtCursor(text, position, doIndent);
            forall j :: from <= j < CursorAfterIndent(text, position, doIndent) ==> r[j] == '\t' || r[j] == ' '
  {
    var from := position - SpacesBefore(text, position);
    var target := IndentedColumn(Column(text, position), doIndent);
    var startColumn := Column(text, from);
    var ind := IndentationString(startColumn, target);
    assert IndentAtCursor(text, position, doIndent) == text[..from] + ind + text[position..];
    assert CursorAfterIndent(text, position, doIndent) == from + |ind|;
    IndentationSpliced(text[..from], ind, text[position..], startColumn, target);
  }

  /** The cursor ends up after the new indentation, at the larger of the
      blanks' start column and the target column; for Tab that is exactly the
      next indent stop after the cursor's old column, for Backtab it is never
      right of the old column. */
  lemma IndentAtCursorColumn(text: string, position: nat, doIndent: bool)
    requires position <= |text|
    ensures var r := IndentAtCursor(text, position, doIndent);
            var after := CursorAfterIndent(text, position, doIndent);
            var target := IndentedColumn(Column(text, position), doIndent);
            Column(r, after) == Max(Column(text, position - SpacesBefore(text, position)), target)
            && (doIndent ==> Column(r, after) == target)
            && (!doIndent ==> Column(r, after) <= Column(text, position))
  {
    var from := position - SpacesBefore(text, position);
    var target := IndentedColumn(Column(text, position), doIndent);
    var startColumn := Column(text, from);
    var ind := IndentationString(startColumn, target);
    assert IndentAtCursor(text, position, doIndent) == text[..from] + ind + text[position..];
    assert CursorAfterIndent(text, position, doIndent) == from + |ind|;
    IndentationSpliced(text[..from], ind, text[position..], startColumn, target);
    ColumnMonotone(text, from, position);
  }

  /** An indentation string put between `a` and `b`, where `a` ends at
      `startColumn`: the pieces keep their places, the inserted characters are
      blanks, and after them the column is the larger of start and target. */
  lemma IndentationSpliced(a: string, ind: string, b: string, startColumn: nat, target: nat)
    requires EndColumn(0, a) == startColumn && ind == IndentationString(startColumn, target)
    ensures (a + ind + b)[..|a|] == a
    ensures (a + ind + b)[|a| + |ind|..] == b
    ensures forall j :: |a| <= j < |a| + |ind| ==> (a + ind + b)[j] == '\t' || (a + ind + b)[j] == ' '
    ensures Column(a + ind + b, |a| + |ind|) == Max(startColumn, target)
  {
    Splice(a, ind, b);
    IndentationBlank(startColumn, target);
    IndentationStringReaches(startColumn, target);
  }

  /** An indentation string holds only tabs and spaces. */
  lemma IndentationBlank(startColumn: nat, targetColumn: nat)
    ensures forall j :: 0 <= j < |IndentationString(startColumn, targetColumn)| ==>
              IndentationString(startColumn, targetColumn)[j] in {'\t', ' '}
  {
    var ind := IndentationString(startColumn, targetColumn);
    var tabs :| TabsThenSpaces(ind, tabs) && |ind| - tabs < TabSize;
  }

  /** Where the pieces of `a + ind + b` sit. */
  lemma Splice(a: string, ind: string, b: string)
    ensures (a + ind + b)[..|a|] == a
    ensures (a + ind + b)[..|a| + |ind|] == a + ind
    ensures (a + ind + b)[|a| + |ind|..] == b
    ensures forall j :: |a| <= j < |a| + |ind| ==> (a + ind + b)[j] == ind[j - |a|]
    ensures Column(a + ind + b, |a| + |ind|) == EndColumn(EndColumn(0, a), ind)
  {
    assert (a + ind + b)[..|a| + |ind|] == a + ind;
    EndColumnAppend(0, a, ind);
  }

  /** The body of the loop over the selected blocks, for one block's text. */
  method IndentSelectedText(text: string, doIndent: bool) returns (rewritten: string)
    ensures rewritten == IndentLine(text, doIndent)
  {
    var indentPosition := LineIndentPosition(text);
    if !doIndent && indentPosition == 0 {
      indentPosition := FirstNonSpace(text);
    }
    assert indentPosition == SelectedLineCut(text, doIndent);
    var indentColumn := ColumnAt(text, indentPosition);
    var targetColumn := IndentedColumn(indentColumn, doIndent);
    rewritten := IndentationString(0, targetColumn) + text[indentPosition..];
  }

  /** Tab/Backtab at `indentPosition` of a block's text: the new text and the
      cursor's position in it. */
  method IndentTextAtCursor(text: string, indentPosition: nat, doIndent: bool) returns (rewritten: string, cursor: nat)
    requires indentPosition <= |text|
    ensures rewritten == IndentAtCursor(text, indentPosition, doIndent)
    ensures cursor == CursorAfterIndent(text, indentPosition, doIndent)
  {
    var spaces := SpacesLeftFromPosition(text, indentPosition);
    var startColumn := ColumnAt(text, indentPosition - spaces);
    var cursorColumn := ColumnAt(text, indentPosition);
    var targetColumn := IndentedColumn(cursorColumn, doIndent);
    var indentation := IndentationString(startColumn, targetColumn);
    rewritten := text[..indentPosition - spaces] + indentation + text[indentPosition..];
    cursor := indentPosition - spaces + |indentation|;
  }

  // ---------------------------------------------------------------------------
  // The document

  class TextDocument {
    var lines: seq<string>

    /** A document always has at least one block. */
    ghost predicate Valid()
      reads this
    {
      |lines| > 0
    }

    constructor (text: seq<string>)
      requires |text| > 0
      ensures Valid() && lines == text
    {
      lines := text;
    }

    /** indentOrUnindent: Tab (`doIndent`) or Backtab with the text cursor at
        `position` and its anchor at `anchor`. Returns the cursor the editor is
        left with when the method sets it, None when it leaves it alone. */
    method IndentOrUnindent(anchor: Cursor, position: Cursor, doIndent: bool) returns (moved: Option<Cursor>)
      requires Valid() && ValidCursor(lines, anchor) && ValidCursor(lines, position)
      modifies this
      ensures Valid()
      // no selection: indent at the cursor
      ensures anchor == position ==>
        var text := old(lines)[position.line];
        lines == old(lines)[position.line := IndentAtCursor(text, position.column, doIndent)]
        && moved == Some(Cursor(position.line, CursorAfterIndent(text, position.column, doIndent)))
      // part of one line selected: the selection is removed, then indent at its start
      ensures anchor != position
              && PartiallySelectsOneLine(old(lines), MinCursor(anchor, position), MaxCursor(anchor, position)) ==>
        var start := MinCursor(anchor, position);
        var removed := RemoveSelection(old(lines), start, MaxCursor(anchor, position));
        lines == removed[start.line := IndentAtCursor(removed[start.line], start.column, doIndent)]
        && moved == Some(Cursor(start.line, CursorAfterIndent(removed[start.line], start.column, doIndent)))
      // whole lines selected: each selected line is rewritten, the others are untouched
      ensures anchor != position
              && !PartiallySelectsOneLine(old(lines), MinCursor(anchor, position), MaxCursor(anchor, position)) ==>
        var first := MinCursor(anchor, position).line;
        var endBlock := EndBlock(old(lines), MaxCursor(anchor, position));
        |lines| == |old(lines)|
        && (forall l :: 0 <= l < |lines| && first <= l < endBlock ==> lines[l] == IndentLine(old(lines)[l], doIndent))
        && (forall l :: 0 <= l < |lines| && !(first <= l < endBlock) ==> lines[l] == old(lines)[l])
        && moved == None
    {
      if anchor == position {
        moved := IndentAtCursorLine(position.line, position.column, doIndent);
        return;
      }
      var start := MinCursor(anchor, position);
      var end := MaxCursor(anchor, position);
      var endBlock := EndBlock(lines, end);
      if PartiallySelectsOneLine(lines, start, end) {
        // the selection is removed, then the code below the selection
        // handling indents at the cursor, which is now at `start`
        lines := RemoveSelection(lines, start, end);
        moved := IndentAtCursorLine(start.line, start.column, doIndent);
      } else {
        IndentSelectedLines(start.line, endBlock, doIndent);
        moved := None;
      }
    }

    /** The loop over the selected blocks `first` .. `endBlock - 1`. */
    method IndentSelectedLines(first: nat, endBlock: nat, doIndent: bool)
      requires Valid() && first <= endBlock <= |lines|
      modifies this
      ensures Valid() && |lines| == |old(lines)|
      ensures forall l :: 0 <= l < |lines| && first <= l < endBlock ==> lines[l] == IndentLine(old(lines)[l], doIndent)
      ensures forall l :: 0 <= l < |lines| && !(first <= l < endBlock) ==> lines[l] == old(lines)[l]
    {
      var block := first;
      while block != endBlock
        invariant first <= block <= endBlock <= |lines|
        invariant |lines| == |old(lines)|
        invariant forall l :: 0 <= l < |lines| && first <= l < block ==>
                    lines[l] == IndentLine(old(lines)[l], doIndent)
        invariant forall l :: 0 <= l < |lines| && !(first <= l < block) ==> lines[l] == old(lines)[l]
        decreases endBlock - block
      {
        var rewritten := IndentSelectedText(lines[block], doIndent);
        lines := lines[block := rewritten];
        block := block + 1;
      }
    }

    /** Tab/Backtab at a cursor without a selection; returns the cursor after it. */
    method IndentAtCursorLine(line: nat, column: nat, doIndent: bool) returns (moved: Option<Cursor>)
      requires Valid() && line < |lines| && column <= |lines[line]|
      modifies this
      ensures Valid()
      ensures lines == old(lines)[line := IndentAtCursor(old(lines)[line], column, doIndent)]
      ensures moved == Some(Cursor(line, CursorAfterIndent(old(lines)[line], column, doIndent)))
    {
      var rewritten, cursor := IndentTextAtCursor(lines[line], column, doIndent);
      lines := lines[line := rewritten];
      moved := Some(Cursor(line, cursor));
    }
  }
}
