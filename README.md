# Memory game card grid

This project models the card grid of a small memory-game program. The program
lays out square cards on a window. Each card stays at one grid position and
is either face-up or face-down. The model covers three parts:

- the layout constants: an 800×600 window, a 4×4 grid, 100×100 cards and a
  10-pixel margin (module `Layout`);
- the `Card` object: a position that never changes, a pixel origin worked out
  from that position, and a face-up flag that `Flip` toggles in place (class
  `Grid.Card`);
- the grid builder: two nested loops that append one new card per cell in
  row-major order (method `Grid.CreateGrid`).

The builder is proved equal to `BoardOrder.RowMajor(n)`, a recursive
definition that appends cells the same way the two loops do. Lemmas then
prove what that order means:

- the grid has n·n cells, or none when n ≤ 0;
- the cell at index i is row i / n, column i % n;
- every cell of the n×n board appears exactly once, and no other cell appears.

A lemma in `Layout` adds that cards at different positions never share a
pixel, and a lemma in `Grid` that every card of the 4×4 grid fits inside the
window.

Files:
- `layout.dfy`: the constants, the pixel origin, card rectangles and geometry lemmas;
- `board_order.dfy`: the row-major order of the cells and its lemmas;
- `grid.dfy`: the `Card` class, the grid builder and the game's starting grid.

## Model

| member | source | states |
|---|---|---|
| `Grid.Card.constructor` | main.py:14-19 | A new card keeps the given row and column. Its origin is `x = col*(CARD_WIDTH+CARD_MARGIN)+CARD_MARGIN`, `y = row*(CARD_HEIGHT+CARD_MARGIN)+CARD_MARGIN`. It starts face-down. |
| `Grid.Card.Flip` | main.py:27-28 | The face-up flag becomes its negation. The frame allows only that flag to change, and row, column, x and y are constants. |
| `Grid.FlipTwice` | main.py:27-28 | Flipping a card twice restores its original face-up state. |
| `Grid.CreateGrid` | main.py:30-36 | Returns gridSize² cards, or none when gridSize ≤ 0. Their cells are exactly `RowMajor(gridSize)`. The card at index i is in row i / gridSize and column i % gridSize. All cards are new, pairwise distinct objects. All start face-down with the origin the layout gives their cell. |
| `BoardOrder.RowPrefixAt` | main.py:33-35 | The inner loop over `range(cols)` appends `max(cols, 0)` cells of one row, and the j-th is column j. |
| `BoardOrder.RowsAt` | main.py:32-35 | After `rows` complete rows of n columns, there are rows·n cells, and cell i is (i / n, i % n). |
| `BoardOrder.RowMajorAt` | main.py:32-35 | The full grid has n·n cells, or none when n ≤ 0. Cell i is (i / n, i % n), which is row-major order. |
| `BoardOrder.RowMajorIndexOf` | main.py:32-35 | Each cell (r, c) of the board is at index r·n + c, and that index is within the grid. |
| `BoardOrder.RowMajorCovers` | main.py:32-35 | A cell appears in the grid if and only if 0 ≤ row < n and 0 ≤ col < n. |
| `BoardOrder.RowMajorDistinct` | main.py:32-35 | No two indices of the grid hold the same cell. |
| `BoardOrder.RowMajorExactlyOnce` | main.py:32-35 | Each cell of the n×n board appears exactly once, and any other cell appears zero times. |
| `Layout.NeighbourPitch` | main.py:17-18 | Neighbouring columns and rows start exactly `CARD_WIDTH+CARD_MARGIN` (or `CARD_HEIGHT+CARD_MARGIN`) apart. The gap between them is exactly `CARD_MARGIN`. |
| `Layout.CardsDoNotOverlap` | main.py:17-18 | Card rectangles at two different positions share no pixel, because the margin is positive. |
| `Grid.GridFitsScreen` | main.py:3-8 | With `GRID_SIZE = 4`, every card rectangle lies inside the 800×600 window. The largest right and bottom edges are at 440, reached by cell (3, 3). |
| `Grid.StartingCards` | main.py:45 | The starting grid has 16 face-down cards. Each has the layout's origin, lies inside the window, and overlaps no other card. |

## Left out

- Drawing: `Card.draw` and the colour constants (main.py:9-11, 21-25) only pass values to the graphics library and contain no logic.
- Window and library setup and teardown (main.py:39-41, 63) are calls into the graphics library.
- The frame loop (main.py:47-61) is not modelled. It covers event polling, the quit event, clearing the screen, redrawing every card, swapping buffers and the 60 Hz clock, all of which are I/O driven by the library.
- The mouse-button branch (main.py:54-55) is `pass`, so the program has no game logic beyond the grid, and neither does the model.
- Grid.CreateGrid takes an integer. The program would raise a type error for a non-integer grid size, and that error path is not modelled.
- Grid.Card.Flip: "nothing else changes" follows from the `const` declarations and the `modifies this`isFaceUp` frame, not from a separate postcondition. The program could in principle reassign a card's other attributes, but no code does.
