# Verified model of the editor's indentation kernel and Scintilla's lexer catalogue

This project models, in Dafny, the two pieces of the QtStudy repository that
hold logic of their own:

- The text kernel of the custom plain-text editor (`PlainTextEdit` in
  `Custom/CutomEditor/CutomEditor/Editor.cpp`). It covers tab-expanded
  columns, the whitespace scans, snapping to indent stops and building
  indentation strings. It also covers Tab/Backtab (`indentOrUnindent`) over a
  document of lines, the digit count of the line-number gutter, and the
  comment/string state machine of the syntax highlighter
  (`TextHighlighter::highlightMultiLine`).
- Scintilla's lexer catalogue (`Catalogue.cpp`). This is an append-only list of
  lexer modules that hands out fresh language ids to modules registered as
  `SCLEX_AUTOMATIC`. It is searched by language id or by name, first match
  first, and it is filled once by `Scintilla_LinkLexers`.

Files, one module each:

- `editor_text.dfy` (`EditorText`): `mTabSize` = 4 and `mIndentSize` = 2 as
  constants, plus `columnAt`, `firstNonSpace`, `spacesLeftFromPosition`,
  `lineIndentPosition`, `indentedColumn` and `indentationString`. Each loop of
  the source is a method proved equal to a specification function. The
  properties are proved about those functions.
- `editor_indent.dfy` (`EditorIndent`): a `TextDocument` class whose `lines`
  field is rewritten in place by `IndentOrUnindent`. The lemmas state what a
  rewritten line looks like, and what removing a selection does to the
  document seen as one string.
- `line_number_area.dfy` (`LineNumberArea`): the digit loop of `lineNumberAreaWidth`.
- `text_highlighter.dfy` (`TextHighlighter`): the highlighting loop, proved
  equal to a step function run to the end of the line. Each `setFormat` call is
  returned as a `Span`.
- `catalogue.dfy` (`Catalogue`): a `LexerCatalogue` class with the static
  `lexerCatalogue`, `nextLanguage` and `initialised` as fields.
- `wrappers.dfy` (`Wrappers`): `Option`, which stands for a null pointer or an absent result.

Modelling choices, each following the code:

- A cursor is a (block, position-in-block) pair. `Offset` turns it into the
  absolute document position Qt uses, in which each block takes its length
  plus one position for the separator after it. `Join` is the document as one
  string, with U+2029 (the paragraph separator QTextDocument keeps between
  blocks) between each two blocks.
- `findBlock(end - 1).next()` becomes `EndBlock`. Its contract says that the
  block before it holds position `end - 1`.
- Past the last block, `next()` yields the invalid block, and its `position()`
  is 0 (`BlockPosition`). So in the last line, "one line partially selected" only holds when the
  selection starts after the line's first character. A selection from column 0
  to the middle of the last line takes the whole-line path.
  `PartiallySelectsOneLine` is written with positions, as in the source, and
  its contract gives the same test in block and column terms.
- When part of one line is selected, the source removes the selection and then
  falls through to the code for a cursor without a selection.
  `IndentOrUnindent` calls that code from the branch instead.
- `highlightBlock` sets the block state to 0 before `highlightMultiLine`
  runs (Editor.cpp:703). As a result, a line ending inside `//` or inside an
  open string carries state 0. Only an unterminated block comment carries 2.
- `SCLEX_AUTOMATIC` is 1000, the value in Scintilla's `SciLexer.h`. That
  header is not part of this model.

## Model

| member | source | states |
|---|---|---|
| `EditorText.Advance` | Custom/CutomEditor/CutomEditor/Editor.cpp:337-344 | a non-tab character takes one column; a tab moves to the next tab stop strictly to the right (no tab stop in between) |
| `EditorText.EndColumn` | Custom/CutomEditor/CutomEditor/Editor.cpp:333-348 | laying out `s` from a column ends at least as many columns further as `s` has characters |
| `EditorText.EndColumnAppend` | Custom/CutomEditor/CutomEditor/Editor.cpp:333-348 | laying out `a + b` equals laying out `b` from where `a` ended |
| `EditorText.ColumnMonotone` | Custom/CutomEditor/CutomEditor/Editor.cpp:333-348 | `columnAt(text, q) >= columnAt(text, p) + (q - p)` for `p <= q`, so `columnAt(text, p) >= p` |
| `EditorText.ColumnStep` | Custom/CutomEditor/CutomEditor/Editor.cpp:337-344 | the column of `p + 1` is the column of `p` advanced by `text[p]` |
| `EditorText.EndColumnTabs` | Custom/CutomEditor/CutomEditor/Editor.cpp:339-340 | from a tab stop, `n` tabs take exactly `n * mTabSize` columns and end on a tab stop |
| `EditorText.EndColumnSpaces` | Custom/CutomEditor/CutomEditor/Editor.cpp:342-343 | `n` spaces take exactly `n` columns |
| `EditorText.ColumnAt` | Custom/CutomEditor/CutomEditor/Editor.cpp:333-348 | the loop computes the tab-expanded column of `position` |
| `EditorText.FirstNonSpaceIndex` | Custom/CutomEditor/CutomEditor/Editor.cpp:290-302 | the index of the first non-whitespace character, or the length of `text` when there is none; every earlier character is whitespace |
| `EditorText.FirstNonSpace` | Custom/CutomEditor/CutomEditor/Editor.cpp:290-302 | the scanning loop returns that index |
| `EditorText.SpacesBefore` | Custom/CutomEditor/CutomEditor/Editor.cpp:319-331 | `0 <= k <= p`; the `k` characters before `p` are whitespace; `p - k` is 0 or follows a non-whitespace character |
| `EditorText.SpacesLeftFromPosition` | Custom/CutomEditor/CutomEditor/Editor.cpp:319-331 | the backward scanning loop returns that count |
| `EditorText.IndentPositionOf` | Custom/CutomEditor/CutomEditor/Editor.cpp:304-317 | the indent position is at most the first non-space index and less than one indent width before it |
| `EditorText.IndentPositionAligned` | Custom/CutomEditor/CutomEditor/Editor.cpp:304-317 | the indent position's column is the first non-space column rounded down to an indent stop |
| `EditorText.LineIndentPosition` | Custom/CutomEditor/CutomEditor/Editor.cpp:304-317 | the scan plus `columnAt` computes that indent position |
| `EditorText.IndentedColumn` | Custom/CutomEditor/CutomEditor/Editor.cpp:350-362 | indent: the smallest indent stop strictly right of the column; unindent: the largest indent stop strictly left of it, or 0 at column 0 |
| `EditorText.IndentationString` | Custom/CutomEditor/CutomEditor/Editor.cpp:364-381 | empty when the target is not right of the start; otherwise tabs followed by fewer than `mTabSize` spaces |
| `EditorText.IndentationStringReaches` | Custom/CutomEditor/CutomEditor/Editor.cpp:364-381 | laid out from the start column, the string ends exactly at `max(start, target)` |
| `EditorIndent.Offset` | Custom/CutomEditor/CutomEditor/Editor.cpp:542-545 | a cursor's document position lies inside its block (between the block's position and the block's end) and inside the document |
| `EditorIndent.OffsetOrdered` | Custom/CutomEditor/CutomEditor/Editor.cpp:544-545 | a cursor before another has the smaller document position, so `start < end` for a selection |
| `EditorIndent.JoinAt` | Custom/CutomEditor/CutomEditor/Editor.cpp:547-548 | in the document as one string, block `k` starts at the position of block `k` (the earlier blocks plus one separator each) |
| `EditorIndent.EndBlock` | Custom/CutomEditor/CutomEditor/Editor.cpp:548 | `findBlock(end - 1).next()`: the block before the result holds position `end - 1`; the result is at most the block count |
| `EditorIndent.PartiallySelectsOneLine` | Custom/CutomEditor/CutomEditor/Editor.cpp:547-550 | the source's position test equals: the selection ends in the start block, and it starts inside that block or ends before that block's end, the latter never in the last block |
| `EditorIndent.RemoveSelection` | Custom/CutomEditor/CutomEditor/Editor.cpp:552 | as blocks: the blocks before the start and after the end are kept, and the start block's text left of the start is joined with the end block's text right of the end |
| `EditorIndent.RemoveSelectionDeletesRange` | Custom/CutomEditor/CutomEditor/Editor.cpp:552 | as one string, the document loses exactly the characters from the start position up to the end position, separators included, and that range is not empty |
| `EditorIndent.SelectedLineCut` | Custom/CutomEditor/CutomEditor/Editor.cpp:559-563 | the cut of a selected line never passes its first non-space character |
| `EditorIndent.SelectedLineStep` | Custom/CutomEditor/CutomEditor/Editor.cpp:559-564 | the target column is one indent step right of the cut's column for Tab, one step left for Backtab when the indent position is not 0 |
| `EditorIndent.IndentLine` | Custom/CutomEditor/CutomEditor/Editor.cpp:565-569 | a selected line ends with its text from the cut on |
| `EditorIndent.IndentLineEffect` | Custom/CutomEditor/CutomEditor/Editor.cpp:556-570 | a selected line keeps its text from the cut on, and its new blank prefix ends at the target column; Tab moves it one indent step right, Backtab one step left when the indent position is not 0 |
| `EditorIndent.IndentSelectedText` | Custom/CutomEditor/CutomEditor/Editor.cpp:558-569 | the body of the loop over the selected blocks yields `IndentLine` of the block's text |
| `EditorIndent.IndentAtCursor` | Custom/CutomEditor/CutomEditor/Editor.cpp:579-585 | the text left of the blanks before the cursor and the text from the cursor on are kept |
| `EditorIndent.CursorAfterIndent` | Custom/CutomEditor/CutomEditor/Editor.cpp:582-587 | the cursor ends up no further left than the blanks' start, and right before the text that followed it |
| `EditorIndent.IndentAtCursorBlanks` | Custom/CutomEditor/CutomEditor/Editor.cpp:579-585 | between the blanks' start and the new cursor there are only tabs and spaces |
| `EditorIndent.IndentAtCursorColumn` | Custom/CutomEditor/CutomEditor/Editor.cpp:580-585 | the cursor lands on `max(start column, target)`, which for Tab is the next indent stop and for Backtab is never right of the old column |
| `EditorIndent.IndentTextAtCursor` | Custom/CutomEditor/CutomEditor/Editor.cpp:576-585 | the code for a cursor without a selection yields `IndentAtCursor` and `CursorAfterIndent` of the block's text |
| `EditorIndent.TextDocument.IndentOrUnindent` | Custom/CutomEditor/CutomEditor/Editor.cpp:534-588 | no selection: indent at the cursor; one line partly selected: remove the selection, then indent at its start; otherwise rewrite each selected line and leave every other line untouched |
| `EditorIndent.TextDocument.IndentSelectedLines` | Custom/CutomEditor/CutomEditor/Editor.cpp:556-570 | lines in `[first, endBlock)` are rewritten, all others unchanged |
| `EditorIndent.TextDocument.IndentAtCursorLine` | Custom/CutomEditor/CutomEditor/Editor.cpp:575-587 | only the cursor's line changes, and the cursor is set after the inserted indentation |
| `LineNumberArea.DecimalDigits` | Custom/CutomEditor/CutomEditor/Editor.cpp:65-69 | `d` digits means `10^(d-1) <= n < 10^d` |
| `LineNumberArea.LineNumberDigits` | Custom/CutomEditor/CutomEditor/Editor.cpp:61-70 | the loop yields `max(2, digits of max(1, blockCount))` |
| `LineNumberArea.LineNumberDigitsFit` | Custom/CutomEditor/CutomEditor/Editor.cpp:61-70 | that count is the fewest digits, at least two, that `max(1, blockCount)` fits in |
| `TextHighlighter.Step` | Custom/CutomEditor/CutomEditor/Editor.cpp:726-774 | one iteration moves the index forward by one or two |
| `TextHighlighter.Run` | Custom/CutomEditor/CutomEditor/Editor.cpp:724-775 | the loop runs until the index reaches the end of the line |
| `TextHighlighter.HighlightLine` | Custom/CutomEditor/CutomEditor/Editor.cpp:776-782 | the carried state is 0 or 2; spans are ordered without overlap and are closed comments or strings, except for an open block comment reaching the line end when 2 is carried |
| `TextHighlighter.HighlightMultiLine` | Custom/CutomEditor/CutomEditor/Editor.cpp:719-783 | the loop yields the spans and carried state of the step function run over the line |
| `TextHighlighter.StepKeepsInv` | Custom/CutomEditor/CutomEditor/Editor.cpp:726-774 | one iteration keeps the spans ordered and closed, with the start index behind the index |
| `TextHighlighter.CarriedComment` | Custom/CutomEditor/CutomEditor/Editor.cpp:776-782 | 2 is carried only for an unterminated block comment: the last span starts at a slash-star with no star-slash after it, or it is the comment carried in, starting at 0, in a line with no star-slash |
| `TextHighlighter.CommentContinues` | Custom/CutomEditor/CutomEditor/Editor.cpp:736-782 | inside a block comment, a line without star-slash is one comment span, and the comment goes on |
| `TextHighlighter.CommentOpens` | Custom/CutomEditor/CutomEditor/Editor.cpp:736-782 | outside comments and strings, a line opening a block comment at its start and never closing it is one comment span and carries 2 |
| `TextHighlighter.StringLeftOpen` | Custom/CutomEditor/CutomEditor/Editor.cpp:744-782 | outside comments and strings, a line opening a string at its start and never closing it gets no span and carries 0 |
| `TextHighlighter.PlainLineResets` | Custom/CutomEditor/CutomEditor/Editor.cpp:755-772 | outside comments and strings, a line with no slash or quote gets no span and carries 0 |
| `TextHighlighter.LineCommentLine` | Custom/CutomEditor/CutomEditor/Editor.cpp:757-762 | a line starting with `//` is one single-line comment span and carries 0 |
| `Catalogue.Registered` | Study/thirdPlugin/Qscintilla/QScintilla_src-2.13.1/scintilla/src/Catalogue.cpp:52-55 | a stored module keeps its name; it keeps its id unless that is `SCLEX_AUTOMATIC`, which is replaced by the counter |
| `Catalogue.RegisterAll` | Study/thirdPlugin/Qscintilla/QScintilla_src-2.13.1/scintilla/src/Catalogue.cpp:51-57 | registering modules in order appends one entry per module |
| `Catalogue.RegisterAllAssigns` | Study/thirdPlugin/Qscintilla/QScintilla_src-2.13.1/scintilla/src/Catalogue.cpp:51-57 | names and explicit ids are kept; the k-th automatic module gets `next + k` |
| `Catalogue.RegisterAllAppend` | Study/thirdPlugin/Qscintilla/QScintilla_src-2.13.1/scintilla/src/Catalogue.cpp:51-57 | registering `a` then `b` is registering `a + b` with the counter carried over |
| `Catalogue.AutomaticIdsIncrease` | Study/thirdPlugin/Qscintilla/QScintilla_src-2.13.1/scintilla/src/Catalogue.cpp:27-55 | automatic ids are above `SCLEX_AUTOMATIC` and below the counter left afterwards; they strictly increase along the catalogue, so they are distinct |
| `Catalogue.FirstWithLanguage` | Study/thirdPlugin/Qscintilla/QScintilla_src-2.13.1/scintilla/src/Catalogue.cpp:29-37 | the first entry with that language id, or none if no entry has it |
| `Catalogue.FirstWithName` | Study/thirdPlugin/Qscintilla/QScintilla_src-2.13.1/scintilla/src/Catalogue.cpp:39-49 | none for a null name; otherwise the first entry with a non-null equal name; null-named entries never match |
| `Catalogue.LexerCatalogue.constructor` | Study/thirdPlugin/Qscintilla/QScintilla_src-2.13.1/scintilla/src/Catalogue.cpp:26-27 | an empty catalogue, counter `SCLEX_AUTOMATIC + 1`, not initialised |
| `Catalogue.LexerCatalogue.AddLexerModule` | Study/thirdPlugin/Qscintilla/QScintilla_src-2.13.1/scintilla/src/Catalogue.cpp:51-57 | appends at the end and keeps the earlier entries; an automatic module takes the counter, which then advances; an explicit id is kept and the counter stays |
| `Catalogue.LexerCatalogue.LinkLexers` | Study/thirdPlugin/Qscintilla/QScintilla_src-2.13.1/scintilla/src/Catalogue.cpp:63-82 | the first call registers the linked modules in order and returns 1; later calls return 0 and change nothing |
| `Catalogue.LexerCatalogue.AddAll` | Study/thirdPlugin/Qscintilla/QScintilla_src-2.13.1/scintilla/src/Catalogue.cpp:71-78 | the `LINK_LEXER` lines add the modules one after another |
| `Catalogue.LexerCatalogue.Find` | Study/thirdPlugin/Qscintilla/QScintilla_src-2.13.1/scintilla/src/Catalogue.cpp:29-37 | links the lexers once (catalogue, counter and registered modules as `LinkLexers` leaves them), then returns the first entry with the language id |
| `Catalogue.LexerCatalogue.FindByName` | Study/thirdPlugin/Qscintilla/QScintilla_src-2.13.1/scintilla/src/Catalogue.cpp:39-49 | links the lexers once (catalogue, counter and registered modules as `LinkLexers` leaves them), then returns the first entry with that non-null name, or none for a null name |

## Left out

- Painting, resizing, scrolling and wheel handling, the line-number painting
  loop and the gutter's pixel width. These need `QPainter`, font metrics and
  widget geometry. Only the digit count is modelled.
- Zooming (`zoomIn`, `zoomOut`, `resetZoom`): these work on floating-point font sizes.
- The completer, `keyPressEvent`, `insertCompletionItem`, `wordUnderCursor`,
  `cursorIsAtBeginningOfLine` and `CompleterItem`: model/view and popup plumbing.
- The regular-expression rules of `highlightBlock` and `initializeSettings`.
  They depend on the `QRegExp` engine. Only the block-state reset at
  Editor.cpp:703 is modelled. Spans are returned as written; Qt's clipping of
  spans to the line (the `//` span's length is the whole line's length) is not modelled.
- `MainWindow`, `QwBatteryPlugin` and `DiceThread`: GUI wiring, Designer
  plugin metadata and a thread demo.
- The `LINK_LEXER` extern declarations. The linked modules are a sequence given to the constructor.
- `EditorIndent.TextDocument.IndentOrUnindent`: on the whole-line path the
  editor's own cursor is left to Qt's adjustment, which is not modelled. The
  method returns None there.
- `Catalogue.LexerCatalogue.AddLexerModule`: a module is a value, not an
  object. Writing the assigned id into the caller's `LexerModule` and
  registering one object twice (the second time with its already assigned id)
  are not modelled. Lookups return the entry's index in place of a pointer.
- Integer width: columns, positions, the block count and `nextLanguage` are
  unbounded integers. 32-bit overflow is not modelled, since it needs lines or
  catalogues of about two billion entries.
- Text outside the Basic Multilingual Plane is not modelled. Text is a
  sequence of characters, each standing for one UTF-16 code unit of a
  `QString`. But a Dafny `char` is a Unicode scalar value, so no surrogate code
  unit, paired or alone, has a `char`. A line holding a character outside the
  BMP therefore cannot be represented. In the editor, such a character is two
  positions and two columns for `columnAt` (Editor.cpp:336-345).
