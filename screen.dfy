/**
 * What the dashboard hands to the terminal: one `Cell` per text placement
 * (row, column, text, attribute). The terminal itself is not modelled.
 */
module Screen {
  /** The three colour pairs set up at start: 1 green, 2 yellow, 3 red (all on black). */
  datatype Color = Green | Yellow | Red

  /** Colour pair number of a colour. */
  function PairNumber(c: Color): (n: nat)
    ensures 1 <= n <= 3
  {
    match c
    case Green => 1
    case Yellow => 2
    case Red => 3
  }

  /** How a text is written: default attribute, a colour pair, or a colour pair in bold. */
  datatype Style = Plain | Colored(color: Color) | ColoredBold(color: Color)

  /** One placement of text on the screen. */
  datatype Cell = Cell(row: int, col: int, text: string, style: Style)
}
