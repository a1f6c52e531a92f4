// Inline styles, styled characters and block kinds of the rich-text editor
// (crates/key-editor-core/src/lib.rs).
module Styles {

  /** The three inline flags; the source keeps them as bits of one byte. */
  datatype Flag = Bold | Italic | Code

  datatype InlineStyle = InlineStyle(bold: bool, italic: bool, code: bool) {

    predicate Has(flag: Flag) {
      match flag
      case Bold => bold
      case Italic => italic
      case Code => code
    }

    /** Enabling code drops bold and italic; enabling either of those drops code. */
    function WithFlag(flag: Flag, enabled: bool): InlineStyle {
      if enabled then
        match flag
        case Bold => InlineStyle(true, italic, false)
        case Italic => InlineStyle(bold, true, false)
        case Code => InlineStyle(false, false, true)
      else
        match flag
        case Bold => InlineStyle(false, italic, code)
        case Italic => InlineStyle(bold, false, code)
        case Code => InlineStyle(bold, italic, false)
    }

    /** Code excludes bold and italic. */
    predicate Exclusive() {
      code ==> !bold && !italic
    }
  }

  const PLAIN := InlineStyle(false, false, false)
  const CODE := InlineStyle(false, false, true)

  datatype BlockKind = Paragraph | Heading1 | Heading2 | Heading3 | Bulleted | Numbered | Quote

  /** One visible character with its style. */
  datatype Cell = Cell(c: char, style: InlineStyle)

  function Styled(s: string, style: InlineStyle): (cells: seq<Cell>)
    ensures |cells| == |s|
    ensures forall i :: 0 <= i < |s| ==> cells[i] == Cell(s[i], style)
  {
    seq(|s|, i requires 0 <= i < |s| => Cell(s[i], style))
  }

  function Chars(cells: seq<Cell>): (s: string)
    ensures |s| == |cells|
    ensures forall i :: 0 <= i < |cells| ==> s[i] == cells[i].c
  {
    seq(|cells|, i requires 0 <= i < |cells| => cells[i].c)
  }

  ghost predicate AllExclusive(cells: seq<Cell>) {
    forall i :: 0 <= i < |cells| ==> cells[i].style.Exclusive()
  }

  lemma CharsConcat(a: seq<Cell>, b: seq<Cell>)
    ensures Chars(a + b) == Chars(a) + Chars(b)
  {
  }
}
