/** The digit count behind the width of the editor's line-number gutter
    (PlainTextEdit::lineNumberAreaWidth). The pixel width built from it needs
    font metrics and is not part of this model. */
module LineNumberArea {
  import opened EditorText

  function Pow10(k: nat): (p: nat)
    ensures p >= 1
  {
    if k == 0 then 1 else 10 * Pow10(k - 1)
  }

  /** Number of decimal digits of a positive number. */
  function DecimalDigits(n: nat): (d: nat)
    requires n >= 1
    ensures d >= 1
    ensures Pow10(d - 1) <= n < Pow10(d)
  {
    if n < 10 then 1 else 1 + DecimalDigits(n / 10)
  }

  /** The digits reserved in the gutter for `blockCount` lines: never fewer
      than two, otherwise as many as the largest line number has. */
  method LineNumberDigits(blockCount: int) returns (digits: nat)
    ensures digits == Max(2, DecimalDigits(Max(1, blockCount)))
  {
    digits := 2;
    var max: nat := Max(1, blockCount);
    while max >= 100
      invariant max >= 1 && digits >= 2
      invariant digits - 2 + Max(2, DecimalDigits(max)) == Max(2, DecimalDigits(Max(1, blockCount)))
    {
      max := max / 10;
      digits := digits + 1;
    }
  }

  /** The gutter digit count is the smallest count of at least two digits
      that every line number up to `blockCount` fits in. */
  lemma LineNumberDigitsFit(blockCount: int)
    ensures var d := Max(2, DecimalDigits(Max(1, blockCount)));
            Max(1, blockCount) < Pow10(d) && (d > 2 ==> Pow10(d - 1) <= Max(1, blockCount))
  {
    var n := Max(1, blockCount);
    if DecimalDigits(n) < 2 {
      assert Pow10(DecimalDigits(n)) <= Pow10(2) by {
        assert Pow10(1) == 10;
        assert Pow10(2) == 100;
      }
    }
  }
}
