/**
 * GeneralFormatStatistics: how many newlines are `\r\n` and how many are a bare `\n`,
 * counted over every whitespace prefix of a source file, and the line-ending style
 * chosen from the two counts.
 */
module LineFormat {
  import opened AutodetectText

  /** GeneralFormatStyle: whether lines end with `\r\n`. */
  datatype GeneralFormatStyle = GeneralFormatStyle(useCRLF: bool)

  class GeneralFormatStatistics {
    var linesWithCRLFNewLines: nat
    var linesWithLFNewLines: nat

    constructor ()
      ensures linesWithCRLFNewLines == 0 && linesWithLFNewLines == 0
    {
      linesWithCRLFNewLines := 0;
      linesWithLFNewLines := 0;
    }

    /** isIndentedWithLFNewLines: a tie goes to LF. */
    predicate IsIndentedWithLFNewLines()
      reads this
      ensures IsIndentedWithLFNewLines() <==> !(linesWithCRLFNewLines > linesWithLFNewLines)
      ensures linesWithCRLFNewLines == linesWithLFNewLines ==> IsIndentedWithLFNewLines()
    {
      linesWithLFNewLines >= linesWithCRLFNewLines
    }

    /** getFormatStyle: CRLF only when CRLF lines strictly outnumber LF lines. */
    method GetFormatStyle() returns (style: GeneralFormatStyle)
      ensures style.useCRLF <==> linesWithCRLFNewLines > linesWithLFNewLines
    {
      var useCRLF := !IsIndentedWithLFNewLines();
      style := GeneralFormatStyle(useCRLF);
    }

    /** FindLineFormatJavaVisitor.visitSpace: every newline of the whitespace is counted as CRLF or as LF. */
    method VisitSpace(prefix: string)
      modifies this
      ensures linesWithCRLFNewLines == old(linesWithCRLFNewLines) + CountNewlines(prefix).crlf
      ensures linesWithLFNewLines == old(linesWithLFNewLines) + CountNewlines(prefix).lf
    {
      for i := 0 to |prefix|
        invariant linesWithCRLFNewLines == old(linesWithCRLFNewLines) + CountNewlines(prefix[..i]).crlf
        invariant linesWithLFNewLines == old(linesWithLFNewLines) + CountNewlines(prefix[..i]).lf
      {
        assert prefix[..i + 1][..i] == prefix[..i];
        var c := prefix[i];
        if c == '\n' || c == '\r' {
          if c == '\n' {
            if i == 0 || prefix[i - 1] != '\r' {
              linesWithLFNewLines := linesWithLFNewLines + 1;
            } else {
              linesWithCRLFNewLines := linesWithCRLFNewLines + 1;
            }
          }
        }
      }
      assert prefix[..|prefix|] == prefix;
    }
  }
}
