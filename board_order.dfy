/** The order in which the card grid is built: row by row, and inside a row
    column by column. `RowMajor(n)` is the sequence of positions the two
    nested loops of the grid builder visit, defined the way those loops
    append; the lemmas give its closed form and show that it lists every
    cell of the n-by-n board exactly once. */
module BoardOrder {

  /** A cell of the board. */
  datatype Position = Position(row: int, col: int)

  /** The cell lies on an n-by-n board. */
  predicate OnBoard(p: Position, n: int) {
    0 <= p.row < n && 0 <= p.col < n
  }

  /** The first `cols` cells of row `row`, as the inner loop appends them. */
  function RowPrefix(row: int, cols: int): seq<Position>
    decreases cols
  {
    if cols <= 0 then [] else RowPrefix(row, cols - 1) + [Position(row, cols - 1)]
  }

  /** The first `rows` complete rows of an n-column board, as the outer loop
      appends them. */
  function Rows(rows: int, n: int): seq<Position>
    decreases rows
  {
    if rows <= 0 then [] else Rows(rows - 1, n) + RowPrefix(rows - 1, n)
  }

  /** All cells of an n-by-n board in the order the grid builder creates
      them; empty when n is not positive, as a loop over an empty range. */
  function RowMajor(n: int): seq<Position> {
    Rows(n, n)
  }

  /** The row holds `cols` cells (none if `cols` is not positive), and the
      j-th of them is column j. */
  lemma {:induction false} RowPrefixAt(row: int, cols: int)
    ensures |RowPrefix(row, cols)| == if cols <= 0 then 0 else cols
    ensures forall j :: 0 <= j < |RowPrefix(row, cols)| ==> RowPrefix(row, cols)[j] == Position(row, j)
  {
    if cols > 0 {
      RowPrefixAt(row, cols - 1);
    }
  }

  /** A positive multiple of n is at least n. */
  lemma MulAtLeast(k: int, n: int)
    requires 0 < k && 0 < n
    ensures k * n >= n
  {
    assert k * n == (k - 1) * n + n;
  }

  /** Division by a positive n recovers row and column from r*n + c. */
  lemma DivModOfRowMajorIndex(r: int, c: int, n: int)
    requires 0 < n && 0 <= r && 0 <= c < n
    ensures (r * n + c) / n == r && (r * n + c) % n == c
  {
    var i := r * n + c;
    var q, m := i / n, i % n;
    assert i == q * n + m && 0 <= m < n;
    if q > r {
      MulAtLeast(q - r, n);
    } else if q < r {
      MulAtLeast(r - q, n);
    }
  }

  /** The first `rows` rows hold rows*n cells, the i-th being
      (i / n, i % n). */
  lemma {:induction false} RowsAt(rows: int, n: int)
    requires 0 < n
    ensures |Rows(rows, n)| == if rows <= 0 then 0 else rows * n
    ensures forall i :: 0 <= i < |Rows(rows, n)| ==> Rows(rows, n)[i] == Position(i / n, i % n)
  {
    if rows > 0 {
      RowsAt(rows - 1, n);
      RowPrefixAt(rows - 1, n);
      var before := Rows(rows - 1, n);
      var row := RowPrefix(rows - 1, n);
      assert |before| == (rows - 1) * n;
      forall i | 0 <= i < |Rows(rows, n)|
        ensures Rows(rows, n)[i] == Position(i / n, i % n)
      {
        if i >= |before| {
          var j := i - |before|;
          assert Rows(rows, n)[i] == row[j] == Position(rows - 1, j);
          DivModOfRowMajorIndex(rows - 1, j, n);
        }
      }
    }
  }

  /** The board holds n*n cells (none when n is not positive), and the cell
      at index i is row i / n, column i % n. */
  lemma RowMajorAt(n: int)
    ensures |RowMajor(n)| == if n <= 0 then 0 else n * n
    ensures forall i :: 0 <= i < |RowMajor(n)| ==> RowMajor(n)[i] == Position(i / n, i % n)
  {
    if n > 0 {
      RowsAt(n, n);
    }
  }

  /** Cell (r, c) of the board sits at index r*n + c. */
  lemma RowMajorIndexOf(n: int, p: Position)
    requires OnBoard(p, n)
    ensures 0 <= p.row * n + p.col < |RowMajor(n)|
    ensures RowMajor(n)[p.row * n + p.col] == p
  {
    RowMajorAt(n);
    assert p.row * n + p.col < (p.row + 1) * n;
    if p.row + 1 < n {
      MulAtLeast(n - (p.row + 1), n);
      assert n * n == (p.row + 1) * n + (n - (p.row + 1)) * n;
    }
    DivModOfRowMajorIndex(p.row, p.col, n);
  }

  /** An index below n*n lies in one of the first n rows. */
  lemma RowOfIndexOnBoard(i: int, n: int)
    requires 0 < n && 0 <= i < n * n
    ensures 0 <= i / n < n
  {
    var q := i / n;
    assert i == q * n + i % n;
    if q >= n {
      assert q * n == (q - n) * n + n * n;
      if q > n {
        MulAtLeast(q - n, n);
      }
    }
  }

  /** A cell is listed iff it lies on the board. */
  lemma RowMajorCovers(n: int, p: Position)
    ensures p in RowMajor(n) <==> OnBoard(p, n)
  {
    RowMajorAt(n);
    if p in RowMajor(n) {
      var i :| 0 <= i < |RowMajor(n)| && RowMajor(n)[i] == p;
      RowOfIndexOnBoard(i, n);
    }
    if OnBoard(p, n) {
      RowMajorIndexOf(n, p);
    }
  }

  /** No cell is listed twice. */
  lemma RowMajorDistinct(n: int)
    ensures forall i, j :: 0 <= i < j < |RowMajor(n)| ==> RowMajor(n)[i] != RowMajor(n)[j]
  {
    RowMajorAt(n);
    forall i, j | 0 <= i < j < |RowMajor(n)|
      ensures RowMajor(n)[i] != RowMajor(n)[j]
    {
      assert i == n * (i / n) + i % n && j == n * (j / n) + j % n;
    }
  }

  /** In a sequence without repetitions every value occurs once or not at all. */
  lemma {:induction false} DistinctMultiplicity<T>(s: seq<T>, x: T)
    requires forall i, j :: 0 <= i < j < |s| ==> s[i] != s[j]
    ensures multiset(s)[x] == if x in s then 1 else 0
  {
    if s != [] {
      var init, last := s[..|s| - 1], s[|s| - 1];
      assert s == init + [last];
      DistinctMultiplicity(init, x);
    }
  }

  /** Every cell of the n-by-n board is listed exactly once, and nothing
      else is listed. */
  lemma RowMajorExactlyOnce(n: int, p: Position)
    ensures multiset(RowMajor(n))[p] == if OnBoard(p, n) then 1 else 0
  {
    RowMajorDistinct(n);
    RowMajorCovers(n, p);
    DistinctMultiplicity(RowMajor(n), p);
  }
}
