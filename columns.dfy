/**
 * Column letters (download_Luchia.py:61-76): the acceptance test of
 * `get_valid_column_letter` and the mapping of a letter to a zero-based
 * column index.
 */
module Columns {
  import opened Wrappers
  import opened Text

  /** The letter an answer stands for after `strip().upper()`, when it is accepted. */
  function AcceptLetter(answer: string): (r: Option<char>)
    ensures r.Some? <==> |Strip(answer)| == 1 && IsAsciiLetter(Strip(answer)[0])
    ensures r.Some? ==> 'A' <= r.value <= 'Z'
  {
    var letter := Upper(Strip(answer));
    if |letter| == 1 && IsAsciiLetter(letter[0]) then Some(letter[0]) else None
  }

  /** `ord(letter) - ord('A')`. */
  function LetterIndex(letter: char): int
  {
    letter as int - 'A' as int
  }

  /** The upper-case letter of column `i`: the partner of `LetterIndex`. */
  function ColumnName(i: nat): char
    requires i < 26
  {
    ('A' as int + i) as char
  }

  /** An accepted answer names one of the 26 columns A..Z, and its index names it back. */
  lemma AcceptedIndexInRange(answer: string)
    requires AcceptLetter(answer).Some?
    ensures var i := LetterIndex(AcceptLetter(answer).value);
      0 <= i < 26 && ColumnName(i) == AcceptLetter(answer).value
  {
  }

  /**
   * Column `i` is reached by its letter in either case, with any whitespace
   * around it, and by nothing else: the accepted answers for index `i` are
   * exactly these.
   */
  lemma AcceptLetterIndexIff(answer: string, i: nat)
    requires i < 26
    ensures (AcceptLetter(answer).Some? && LetterIndex(AcceptLetter(answer).value) == i)
      <==> (Strip(answer) == [ColumnName(i)] || Strip(answer) == [(ColumnName(i) as int + 32) as char])
  {
  }
}
