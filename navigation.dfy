/**
  Where the cursor goes when an item is chosen: ripgrep's line numbers count
  from 1, editor positions from 0, and the extension passes the number
  through `~~` before subtracting one; the column is always 0.
 */
module Navigation {
  import opened Numbers
  import opened OutputParser

  /** An editor position: 0-based line and character. */
  datatype Position = Position(line: int, character: int)

  /** The cursor position for an item's line number. */
  function CursorFor(linenumber: Number): (p: Position)
    ensures p.character == 0
    ensures linenumber.Finite? && 1 <= linenumber.value < TwoTo31 ==>
      p.line == linenumber.value - 1 && p.line >= 0
    ensures linenumber.NaN? ==> p.line == -1
    ensures p.line >= 0 <==> ToInt32(linenumber) >= 1
  {
    Position(ToInt32(linenumber) - 1, 0)
  }

  /** A match reported on line `n` (1-based, within the signed 32-bit range)
      is kept by the parser and puts the cursor at line `n - 1`, column 0. */
  lemma NavigateToParsedLine(filepath: string, n: nat, text: string, cwd: string)
    requires Sep !in filepath && text != ""
    requires 1 <= n < TwoTo31
    ensures var r := ParseLine(filepath + [Sep] + DecimalString(n) + [Sep] + text, cwd);
      && r.Some?
      && r.value.filepath == filepath && r.value.text == text
      && CursorFor(r.value.linenumber) == Position(n - 1, 0)
  {
    var digits := DecimalString(n);
    assert Sep !in digits by {
      forall k | 0 <= k < |digits| ensures digits[k] != Sep {
        assert IsDigit(digits[k]);
      }
    }
    var f := RawFields(filepath, digits, text);
    SplitFieldsRoundTrip(f);
    ParseLineSpec(filepath + [Sep] + digits + [Sep] + text, cwd);
    DecimalRoundTrip(n);
  }
}
