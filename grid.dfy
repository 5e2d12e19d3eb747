/** The cards of the memory game and the grid builder that lays them out.
    A card's position and pixel origin are fixed when it is made; only its
    face-up flag changes afterwards. */
module Grid {
  import opened Layout
  import opened BoardOrder

  class Card {
    const row: int
    const col: int
    /** Pixel origin, worked out once from the position. */
    const x: int
    const y: int
    var isFaceUp: bool

    /** A new card lies face-down at (row, col), with its origin given by
        the layout's pitch and margin. */
    constructor (row: int, col: int)
      ensures this.row == row && this.col == col
      ensures x == col * (CardWidth + CardMargin) + CardMargin
      ensures y == row * (CardHeight + CardMargin) + CardMargin
      ensures !isFaceUp
    {
      this.row := row;
      this.col := col;
      x := CardX(col);
      y := CardY(row);
      isFaceUp := false;
    }

    /** Turns the card over; the frame allows only the face-up flag to change,
        and position and origin are constants. */
    method Flip()
      modifies this`isFaceUp
      ensures isFaceUp == !old(isFaceUp)
    {
      isFaceUp := !isFaceUp;
    }
  }

  /** Turning a card over twice leaves it as it was. */
  method FlipTwice(card: Card)
    modifies card`isFaceUp
    ensures card.isFaceUp == old(card.isFaceUp)
  {
    card.Flip();
    card.Flip();
  }

  /** The board cells the cards occupy, in list order. */
  function Positions(cards: seq<Card>): seq<Position> {
    seq(|cards|, i requires 0 <= i < |cards| => Position(cards[i].row, cards[i].col))
  }

  /** Appending a card appends its cell. */
  lemma PositionsAppend(cards: seq<Card>, card: Card)
    ensures Positions(cards + [card]) == Positions(cards) + [Position(card.row, card.col)]
  {
  }

  /** A card's origin is the one the layout gives its position. */
  predicate PlacedByLayout(card: Card) {
    card.x == CardX(card.col) && card.y == CardY(card.row)
  }

  /** Builds the grid row by row, each row column by column: gridSize*gridSize
      new, distinct, face-down cards, the one at index i in row i / gridSize
      and column i % gridSize; no cards when gridSize is not positive. */
  method CreateGrid(gridSize: int) returns (cards: seq<Card>)
    ensures Positions(cards) == RowMajor(gridSize)
    ensures |cards| == if gridSize <= 0 then 0 else gridSize * gridSize
    ensures forall i :: 0 <= i < |cards| ==>
      cards[i].row == i / gridSize && cards[i].col == i % gridSize
    ensures forall i :: 0 <= i < |cards| ==>
      fresh(cards[i]) && !cards[i].isFaceUp && PlacedByLayout(cards[i])
    ensures forall i, j :: 0 <= i < j < |cards| ==> cards[i] != cards[j]
  {
    cards := [];
    var row := 0;
    while row < gridSize
      invariant 0 <= row && (row == 0 || row <= gridSize)
      invariant Positions(cards) == Rows(row, gridSize)
      invariant forall i :: 0 <= i < |cards| ==>
        fresh(cards[i]) && !cards[i].isFaceUp && PlacedByLayout(cards[i])
      invariant forall i, j :: 0 <= i < j < |cards| ==> cards[i] != cards[j]
    {
      var col := 0;
      while col < gridSize
        invariant 0 <= col <= gridSize
        invariant Positions(cards) == Rows(row, gridSize) + RowPrefix(row, col)
        invariant forall i :: 0 <= i < |cards| ==>
          fresh(cards[i]) && !cards[i].isFaceUp && PlacedByLayout(cards[i])
        invariant forall i, j :: 0 <= i < j < |cards| ==> cards[i] != cards[j]
      {
        var card := new Card(row, col);
        PositionsAppend(cards, card);
        cards := cards + [card];
        col := col + 1;
      }
      assert Rows(row + 1, gridSize) == Rows(row, gridSize) + RowPrefix(row, gridSize);
      row := row + 1;
    }
    assert RowMajor(gridSize) == Rows(row, gridSize);
    RowMajorAt(gridSize);
    assert |Positions(cards)| == |cards|;
    forall i | 0 <= i < |cards|
      ensures cards[i].row == i / gridSize && cards[i].col == i % gridSize
    {
      assert Positions(cards)[i] == RowMajor(gridSize)[i];
    }
  }

  /** Every card of the game's 4-by-4 grid is drawn entirely inside the
      800-by-600 window; the furthest right and bottom edges, those of the
      last card, are at pixel 440. */
  lemma GridFitsScreen()
    ensures forall p :: p in RowMajor(GridSize) ==> OnScreen(CardRect(p.row, p.col))
    ensures forall p :: p in RowMajor(GridSize) ==>
      CardX(p.col) + CardWidth <= 440 && CardY(p.row) + CardHeight <= 440
    ensures Position(GridSize - 1, GridSize - 1) in RowMajor(GridSize)
    ensures CardX(GridSize - 1) + CardWidth == 440 && CardY(GridSize - 1) + CardHeight == 440
  {
    forall p | p in RowMajor(GridSize)
      ensures OnScreen(CardRect(p.row, p.col))
      ensures CardX(p.col) + CardWidth <= 440 && CardY(p.row) + CardHeight <= 440
    {
      RowMajorCovers(GridSize, p);
    }
    RowMajorCovers(GridSize, Position(GridSize - 1, GridSize - 1));
  }

  /** The cards the game starts with: the grid for the configured size, all
      face-down, each drawn inside the window and apart from every other. */
  method StartingCards() returns (cards: seq<Card>)
    ensures |cards| == GridSize * GridSize
    ensures forall i :: 0 <= i < |cards| ==> !cards[i].isFaceUp
    ensures forall i :: 0 <= i < |cards| ==> OnScreen(CardRect(cards[i].row, cards[i].col))
    ensures forall i :: 0 <= i < |cards| ==> cards[i].x == CardX(cards[i].col) && cards[i].y == CardY(cards[i].row)
    ensures forall i, j :: 0 <= i < j < |cards| ==>
      !Overlap(CardRect(cards[i].row, cards[i].col), CardRect(cards[j].row, cards[j].col))
  {
    cards := CreateGrid(GridSize);
    GridFitsScreen();
    RowMajorDistinct(GridSize);
    forall i | 0 <= i < |cards|
      ensures OnScreen(CardRect(cards[i].row, cards[i].col))
    {
      assert Positions(cards)[i] in RowMajor(GridSize);
    }
    forall i, j | 0 <= i < j < |cards|
      ensures !Overlap(CardRect(cards[i].row, cards[i].col), CardRect(cards[j].row, cards[j].col))
    {
      assert Positions(cards)[i] != Positions(cards)[j];
      CardsDoNotOverlap(cards[i].row, cards[i].col, cards[j].row, cards[j].col);
    }
  }
}
