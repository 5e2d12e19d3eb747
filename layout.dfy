/** Screen geometry of the memory game: the window, the card size and the
    margin that separates neighbouring cards. All values are pixels. */
module Layout {

  const ScreenWidth: int := 800
  const ScreenHeight: int := 600
  const GridSize: int := 4
  const CardWidth: int := 100
  const CardHeight: int := 100
  const CardMargin: int := 10

  /** Distance between the left edges of two horizontally neighbouring cards. */
  const ColumnPitch: int := CardWidth + CardMargin
  /** Distance between the top edges of two vertically neighbouring cards. */
  const RowPitch: int := CardHeight + CardMargin

  /** Left edge of the cards in column `col`. */
  function CardX(col: int): int {
    col * (CardWidth + CardMargin) + CardMargin
  }

  /** Top edge of the cards in row `row`. */
  function CardY(row: int): int {
    row * (CardHeight + CardMargin) + CardMargin
  }

  /** An axis-aligned rectangle of pixels: columns x .. x+width-1 and
      rows y .. y+height-1, as a filled rectangle is drawn. */
  datatype Rect = Rect(x: int, y: int, width: int, height: int)

  /** The rectangle a card at (row, col) is drawn into. */
  function CardRect(row: int, col: int): Rect {
    Rect(CardX(col), CardY(row), CardWidth, CardHeight)
  }

  /** The two rectangles share at least one pixel. */
  predicate Overlap(a: Rect, b: Rect) {
    a.x < b.x + b.width && b.x < a.x + a.width &&
    a.y < b.y + b.height && b.y < a.y + a.height
  }

  /** Every pixel of the rectangle lies inside the window. */
  predicate OnScreen(r: Rect) {
    0 <= r.x && r.x + r.width <= ScreenWidth &&
    0 <= r.y && r.y + r.height <= ScreenHeight
  }

  /** Neighbouring cards start exactly one pitch apart, and the gap between
      them is exactly the margin. */
  lemma NeighbourPitch(row: int, col: int)
    ensures CardX(col + 1) - CardX(col) == ColumnPitch
    ensures CardY(row + 1) - CardY(row) == RowPitch
    ensures CardRect(row, col + 1).x - (CardRect(row, col).x + CardWidth) == CardMargin
    ensures CardRect(row + 1, col).y - (CardRect(row, col).y + CardHeight) == CardMargin
  {
  }

  /** Cards at different positions never share a pixel: the positive margin
      leaves a gap between every two of them. */
  lemma CardsDoNotOverlap(r1: int, c1: int, r2: int, c2: int)
    requires (r1, c1) != (r2, c2)
    ensures !Overlap(CardRect(r1, c1), CardRect(r2, c2))
  {
  }
}
