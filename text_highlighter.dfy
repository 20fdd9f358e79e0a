/** The per-line comment and string state machine of the editor's syntax
    highlighter (TextHighlighter::highlightMultiLine, and the block-state
    reset at the top of highlightBlock).

    Block states: 1 inside a `//` comment, 2 inside a block comment (slash-star to star-slash),
    3 inside a `"..."` string with backslash escapes, anything else normal
    (0, or -1 for the first line). Only state 2 is carried to the next line.
    Each `setFormat` call is returned as a span; Qt clips spans to the line. */
module TextHighlighter {

  datatype Format = SingleLineComment | MultiLineComment | Quotation

  /** One `setFormat(start, length, format)` call. */
  datatype Span = Span(start: int, length: int, format: Format)

  /** The loop variables of the scan between two iterations. */
  datatype Scan = Scan(index: nat, startIndex: nat, blockState: int, spans: seq<Span>)

  /** `text` holds `a` then `b` at position `i`. */
  predicate PairAt(text: string, i: nat, a: char, b: char)
  {
    i + 1 < |text| && text[i] == a && text[i + 1] == b
  }

  /** One iteration of the loop, the final `index++` included. */
  function Step(text: string, s: Scan): (r: Scan)
    requires s.index < |text|
    ensures s.index < r.index <= s.index + 2
  {
    var i := s.index;
    if s.blockState == 1 then
      if PairAt(text, i, '/', '/') then s.(index := i + 2) else s.(index := i + 1)
    else if s.blockState == 2 then
      if PairAt(text, i, '*', '/') then
        Scan(i + 2, s.startIndex, 0, s.spans + [Span(s.startIndex, i + 2 - s.startIndex, MultiLineComment)])
      else s.(index := i + 1)
    else if s.blockState == 3 then
      if text[i] == '\\' then s.(index := i + 2)
      else if text[i] == '"' then
        Scan(i + 1, s.startIndex, 0, s.spans + [Span(s.startIndex, i + 1 - s.startIndex, Quotation)])
      else s.(index := i + 1)
    else
      if PairAt(text, i, '/', '/') then
        Scan(i + 2, i, 1, s.spans + [Span(i, |text|, SingleLineComment)])
      else if PairAt(text, i, '/', '*') then Scan(i + 2, i, 2, s.spans)
      else if text[i] == '"' then Scan(i + 1, i, 3, s.spans)
      else s.(index := i + 1)
  }

  /** The loop run to its end from scan state `s`. */
  function Run(text: string, s: Scan): (r: Scan)
    ensures r.index >= |text|
    decreases |text| - s.index
  {
    if s.index < |text| then Run(text, Step(text, s)) else s
  }

  /** The spans highlighted in `text` and the block state carried to the next
      line, when the previous line carried `previousBlockState`: the loop,
      then the final switch that formats a block comment still open at the
      end of the line and carries state 2. The carried state is 0 or 2; the
      spans are in order without overlap; every span is a closed comment or
      string, except that when state 2 is carried the last span is the still
      open block comment, reaching the end of the line. */
  function HighlightLine(previousBlockState: int, text: string): (r: (seq<Span>, int))
    ensures r.1 == 0 || r.1 == 2
    ensures Ordered(r.0)
    ensures r.1 == 0 ==> forall k :: 0 <= k < |r.0| ==> Closed(text, r.0[k])
    ensures r.1 == 2 ==>
              |r.0| > 0
              && r.0[|r.0| - 1].format == MultiLineComment
              && 0 <= r.0[|r.0| - 1].start
              && r.0[|r.0| - 1].start + r.0[|r.0| - 1].length == |text|
              && forall k :: 0 <= k < |r.0| - 1 ==> Closed(text, r.0[k])
  {
    var s0 := Scan(0, 0, previousBlockState, []);
    RunKeepsInv(text, s0);
    var s := Run(text, s0);
    if s.blockState == 2 then
      var open := Span(s.startIndex, |text| - s.startIndex, MultiLineComment);
      AppendSpan(s.spans, open);
      (s.spans + [open], 2)
    else (s.spans, 0)
  }

  /** highlightMultiLine, with the block state that highlightBlock has just
      reset to 0. */
  method HighlightMultiLine(text: string, previousBlockState: int) returns (spans: seq<Span>, currentBlockState: int)
    ensures (spans, currentBlockState) == HighlightLine(previousBlockState, text)
  {
    currentBlockState := 0;
    spans := [];
    var index: nat, startIndex: nat := 0, 0;
    var blockState := previousBlockState;
    while index < |text|
      invariant Run(text, Scan(index, startIndex, blockState, spans)) == Run(text, Scan(0, 0, previousBlockState, []))
      decreases |text| - index
    {
      if blockState == 1 {
        if text[index] == '/' && index + 1 < |text| && text[index + 1] == '/' {
          index := index + 1;
          blockState := 1;
        }
      } else if blockState == 2 {
        if text[index] == '*' && index + 1 < |text| && text[index + 1] == '/' {
          index := index + 1;
          spans := spans + [Span(startIndex, index - startIndex + 1, MultiLineComment)];
          blockState := 0;
        }
      } else if blockState == 3 {
        if text[index] == '\\' {
          index := index + 1;
        } else if text[index] == '"' {
          spans := spans + [Span(startIndex, index - startIndex + 1, Quotation)];
          blockState := 0;
        }
      } else {
        if text[index] == '/' && index + 1 < |text| && text[index + 1] == '/' {
          startIndex := index;
          index := index + 1;
          spans := spans + [Span(startIndex, |text|, SingleLineComment)];
          blockState := 1;
        } else if text[index] == '/' && index + 1 < |text| && text[index + 1] == '*' {
          startIndex := index;
          index := index + 1;
          blockState := 2;
        } else if text[index] == '"' {
          startIndex := index;
          blockState := 3;
        }
      }
      index := index + 1;
    }
    if blockState == 2 {
      spans := spans + [Span(startIndex, |text| - startIndex, MultiLineComment)];
      currentBlockState := 2;
    }
  }

  // ---------------------------------------------------------------------------
  // Properties of the highlighted spans

  /** A span the scan closed: a `//` comment to the end of the line, a
      block comment ending in star-slash, or a string ending in `"`. */
  predicate Closed(text: string, sp: Span)
  {
    0 <= sp.start
    && match sp.format
       case SingleLineComment =>
         sp.length == |text| && PairAt(text, sp.start, '/', '/')
       case MultiLineComment =>
         2 <= sp.length && sp.start + sp.length <= |text|
         && text[sp.start + sp.length - 2] == '*' && text[sp.start + sp.length - 1] == '/'
       case Quotation =>
         1 <= sp.length && sp.start + sp.length <= |text| && text[sp.start + sp.length - 1] == '"'
  }

  /** Each span ends before the next one starts. */
  predicate Ordered(spans: seq<Span>)
  {
    forall k :: 0 <= k < |spans| - 1 ==> spans[k].start + spans[k].length <= spans[k + 1].start
  }

  predicate EndsBy(spans: seq<Span>, position: int)
  {
    forall k :: 0 <= k < |spans| ==> spans[k].start + spans[k].length <= position
  }

  /** What holds of the scan variables between iterations. */
  predicate ScanInv(text: string, s: Scan)
  {
    s.startIndex <= s.index && s.startIndex <= |text|
    && (forall k :: 0 <= k < |s.spans| ==> Closed(text, s.spans[k]))
    && Ordered(s.spans)
    && (s.blockState == 2 || s.blockState == 3 ==> EndsBy(s.spans, s.startIndex))
    && (s.blockState != 1 && s.blockState != 2 && s.blockState != 3 ==> EndsBy(s.spans, s.index))
  }

  lemma StepKeepsInv(text: string, s: Scan)
    requires s.index < |text| && ScanInv(text, s)
    ensures ScanInv(text, Step(text, s))
  {
    var r := Step(text, s);
    if |r.spans| > |s.spans| {
      assert r.spans[..|s.spans|] == s.spans;
      assert |r.spans| == |s.spans| + 1;
      forall k | 0 <= k < |r.spans|
        ensures Closed(text, r.spans[k])
      {
        if k < |s.spans| {
          assert r.spans[k] == s.spans[k];
        }
      }
    }
  }

  lemma {:induction false} RunKeepsInv(text: string, s: Scan)
    requires ScanInv(text, s)
    ensures ScanInv(text, Run(text, s))
    decreases |text| - s.index
  {
    if s.index < |text| {
      StepKeepsInv(text, s);
      RunKeepsInv(text, Step(text, s));
    }
  }

  /** A span appended after all the others keeps them in order and unchanged. */
  lemma AppendSpan(spans: seq<Span>, sp: Span)
    requires Ordered(spans) && EndsBy(spans, sp.start)
    ensures Ordered(spans + [sp])
    ensures forall k :: 0 <= k < |spans| ==> (spans + [sp])[k] == spans[k]
  {
  }

  // ---------------------------------------------------------------------------
  // When state 2 is carried

  /** No star-slash pair begins at a position in `[from, to)`. */
  predicate NoCloserIn(text: string, from: nat, to: int)
  {
    forall i :: from <= i < to ==> !PairAt(text, i, '*', '/')
  }

  /** A block comment that starts at `start` is still open at `to`: it was
      opened there by a slash-star pair, or it is the comment carried in from
      the previous line, and no star-slash pair has begun since. */
  predicate OpenComment(text: string, start: nat, to: int, previousBlockState: int)
  {
    (PairAt(text, start, '/', '*') && NoCloserIn(text, start + 2, to))
    || (previousBlockState == 2 && start == 0 && NoCloserIn(text, 0, to))
  }

  predicate CommentInv(text: string, previousBlockState: int, s: Scan)
  {
    s.blockState == 2 ==> OpenComment(text, s.startIndex, s.index, previousBlockState)
  }

  lemma {:induction false} RunTracksComment(text: string, previousBlockState: int, s: Scan)
    requires CommentInv(text, previousBlockState, s)
    ensures CommentInv(text, previousBlockState, Run(text, s))
    decreases |text| - s.index
  {
    if s.index < |text| {
      assert CommentInv(text, previousBlockState, Step(text, s));
      RunTracksComment(text, previousBlockState, Step(text, s));
    }
  }

  /** State 2 is carried only for an unterminated block comment: the last
      span then starts at a slash-star pair with no star-slash pair after it,
      or it is the comment carried in from the previous line, starting at 0,
      and the line holds no star-slash pair at all. */
  lemma CarriedComment(previousBlockState: int, text: string)
    ensures var (spans, next) := HighlightLine(previousBlockState, text);
            next == 2 ==>
              |spans| > 0
              && spans[|spans| - 1].format == MultiLineComment
              && 0 <= spans[|spans| - 1].start
              && spans[|spans| - 1].start + spans[|spans| - 1].length == |text|
              && OpenComment(text, spans[|spans| - 1].start, |text|, previousBlockState)
  {
    var s0 := Scan(0, 0, previousBlockState, []);
    RunTracksComment(text, previousBlockState, s0);
  }

  // ---------------------------------------------------------------------------
  // Lines of one kind

  lemma {:induction false} RunInsideComment(text: string, s: Scan)
    requires s.blockState == 2 && NoCloserIn(text, s.index, |text|)
    ensures var r := Run(text, s);
            r.blockState == 2 && r.startIndex == s.startIndex && r.spans == s.spans
    decreases |text| - s.index
  {
    if s.index < |text| {
      assert !PairAt(text, s.index, '*', '/');
      RunInsideComment(text, Step(text, s));
    }
  }

  /** A line inside a block comment that has no star-slash is comment from
      start to end, and the comment goes on into the next line. */
  lemma CommentContinues(text: string)
    requires NoCloserIn(text, 0, |text|)
    ensures HighlightLine(2, text) == ([Span(0, |text|, MultiLineComment)], 2)
  {
    RunInsideComment(text, Scan(0, 0, 2, []));
    var r := Run(text, Scan(0, 0, 2, []));
    assert r.spans + [Span(r.startIndex, |text| - r.startIndex, MultiLineComment)] == [Span(0, |text|, MultiLineComment)];
  }

  /** A line that opens a block comment at its start (outside any comment or
      string) and never closes it is comment from start to end and carries 2. */
  lemma CommentOpens(previousBlockState: int, text: string)
    requires PairAt(text, 0, '/', '*') && NoCloserIn(text, 2, |text|)
    requires previousBlockState != 1 && previousBlockState != 2 && previousBlockState != 3
    ensures HighlightLine(previousBlockState, text) == ([Span(0, |text|, MultiLineComment)], 2)
  {
    var s1 := Step(text, Scan(0, 0, previousBlockState, []));
    assert s1 == Scan(2, 0, 2, []);
    RunInsideComment(text, s1);
    var r := Run(text, s1);
    assert r.spans + [Span(r.startIndex, |text| - r.startIndex, MultiLineComment)] == [Span(0, |text|, MultiLineComment)];
  }

  lemma {:induction false} RunInString(text: string, s: Scan)
    requires s.blockState == 3
    requires forall i :: s.index <= i < |text| ==> text[i] != '"'
    ensures Run(text, s).spans == s.spans && Run(text, s).blockState == 3
    decreases |text| - s.index
  {
    if s.index < |text| {
      RunInString(text, Step(text, s));
    }
  }

  /** A line that opens a string at its start (outside any comment or string)
      and never closes it gets no span and carries 0: an open string is not
      continued on the next line. */
  lemma StringLeftOpen(previousBlockState: int, text: string)
    requires |text| > 0 && text[0] == '"'
    requires forall i :: 1 <= i < |text| ==> text[i] != '"'
    requires previousBlockState != 1 && previousBlockState != 2 && previousBlockState != 3
    ensures HighlightLine(previousBlockState, text) == ([], 0)
  {
    var s1 := Step(text, Scan(0, 0, previousBlockState, []));
    assert s1 == Scan(1, 0, 3, []);
    RunInString(text, s1);
  }

  /** The line contains none of the characters that start a comment or a string. */
  predicate Plain(text: string)
  {
    forall i :: 0 <= i < |text| ==> text[i] != '/' && text[i] != '"'
  }

  lemma {:induction false} RunPlain(text: string, s: Scan)
    requires Plain(text) && s.spans == []
    requires s.blockState != 1 && s.blockState != 2 && s.blockState != 3
    ensures Run(text, s).spans == [] && Run(text, s).blockState == s.blockState
    decreases |text| - s.index
  {
    if s.index < |text| {
      RunPlain(text, Step(text, s));
    }
  }

  /** Outside comments and strings, a line without `/` or `"` gets no span
      and carries state 0. */
  lemma PlainLineResets(previousBlockState: int, text: string)
    requires Plain(text)
    requires previousBlockState != 1 && previousBlockState != 2 && previousBlockState != 3
    ensures HighlightLine(previousBlockState, text) == ([], 0)
  {
    RunPlain(text, Scan(0, 0, previousBlockState, []));
  }

  lemma {:induction false} RunInLineComment(text: string, s: Scan)
    requires s.blockState == 1
    ensures Run(text, s).spans == s.spans && Run(text, s).blockState == 1
    decreases |text| - s.index
  {
    if s.index < |text| {
      RunInLineComment(text, Step(text, s));
    }
  }

  /** A line that starts a `//` comment (outside any comment or string) is one
      single-line comment span, and nothing is carried. */
  lemma LineCommentLine(previousBlockState: int, text: string)
    requires PairAt(text, 0, '/', '/')
    requires previousBlockState != 1 && previousBlockState != 2 && previousBlockState != 3
    ensures HighlightLine(previousBlockState, text) == ([Span(0, |text|, SingleLineComment)], 0)
  {
    var s1 := Step(text, Scan(0, 0, previousBlockState, []));
    assert s1 == Scan(2, 0, 1, [Span(0, |text|, SingleLineComment)]);
    RunInLineComment(text, s1);
  }
}
