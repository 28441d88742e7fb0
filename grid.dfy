/** The 3x3 grid both rule families play on, as a mutable `array2<int>` (the
    numpy array of one family, the list of lists of the other) and as the value
    `Cells(a)` read from it. Also the notions both families share: a move, the
    row-major list of empty cells, full boards and completed lines. */
module Grid {

  /** A move `(row, column)`, the source's tuple `(x, y)`. */
  type Move = (int, int)

  /** The value of a board, row by row. */
  type Board = seq<seq<int>>

  predicate IsGrid(g: Board)
  {
    |g| == 3 && forall r :: 0 <= r < 3 ==> |g[r]| == 3
  }

  predicate IsSquare(a: array2<int>)
  {
    a.Length0 == 3 && a.Length1 == 3
  }

  predicate InRange(m: Move)
  {
    0 <= m.0 < 3 && 0 <= m.1 < 3
  }

  /** The current value of a board array. */
  function Cells(a: array2<int>): (g: Board)
    reads a
    requires IsSquare(a)
    ensures IsGrid(g)
    ensures forall r, c :: 0 <= r < 3 && 0 <= c < 3 ==> g[r][c] == a[r, c]
  {
    seq(3, r reads a requires 0 <= r < 3 => seq(3, c reads a requires 0 <= c < 3 => a[r, c]))
  }

  /** The all-zero board. */
  function Zeros(): (g: Board)
    ensures IsGrid(g)
    ensures forall r, c :: 0 <= r < 3 && 0 <= c < 3 ==> g[r][c] == 0
  {
    [[0, 0, 0], [0, 0, 0], [0, 0, 0]]
  }

  /** `g` with the cell at `m` set to `v` and every other cell as it was. */
  function Place(g: Board, m: Move, v: int): (h: Board)
    requires IsGrid(g) && InRange(m)
    ensures IsGrid(h)
    ensures h[m.0][m.1] == v
    ensures forall r, c :: 0 <= r < 3 && 0 <= c < 3 && (r, c) != m ==> h[r][c] == g[r][c]
  {
    g[m.0 := g[m.0][m.1 := v]]
  }

  /** Every cell holds one of the `Player` values +1, -1, 0. */
  predicate Signed(g: Board)
    requires IsGrid(g)
  {
    forall r, c :: 0 <= r < 3 && 0 <= c < 3 ==> g[r][c] in {-1, 0, 1}
  }

  /** No cell holds 0. */
  predicate Full(g: Board)
    requires IsGrid(g)
  {
    forall r, c :: 0 <= r < 3 && 0 <= c < 3 ==> g[r][c] != 0
  }

  /** Boards with the same cells are equal. */
  lemma BoardsEqual(g: Board, h: Board)
    requires IsGrid(g) && IsGrid(h)
    requires forall r, c :: 0 <= r < 3 && 0 <= c < 3 ==> g[r][c] == h[r][c]
    ensures g == h
  {
    assert g[0] == h[0] && g[1] == h[1] && g[2] == h[2];
  }

  /** A fresh array holding the same cells as `a` (numpy `copy()`, `copy.deepcopy`). */
  method Copy(a: array2<int>) returns (c: array2<int>)
    requires IsSquare(a)
    ensures fresh(c) && IsSquare(c)
    ensures Cells(c) == Cells(a)
  {
    c := new int[3, 3]((r, k) reads a requires 0 <= r < 3 && 0 <= k < 3 => a[r, k]);
    BoardsEqual(Cells(c), Cells(a));
  }

  /** A fresh all-zero board array. */
  method NewZeros() returns (c: array2<int>)
    ensures fresh(c) && IsSquare(c)
    ensures Cells(c) == Zeros()
  {
    c := new int[3, 3]((r, k) => 0);
    BoardsEqual(Cells(c), Zeros());
  }

  // ---------------------------------------------------------------------------
  // Row-major enumeration of the empty cells: every cell holding 0, rows from
  // top to bottom and, within a row, columns from left to right.

  /** The position of a cell in row-major order. */
  function Index(m: Move): int
  {
    3 * m.0 + m.1
  }

  /** The cell at row-major position `k`. */
  function CellAt(k: nat): (m: Move)
    requires k < 9
    ensures InRange(m) && Index(m) == k
  {
    if k < 3 then (0, k) else if k < 6 then (1, k - 3) else (2, k - 6)
  }

  /** Distinct cells have distinct row-major positions. */
  lemma IndexInjective(m: Move, n: Move)
    requires InRange(m) && InRange(n) && Index(m) == Index(n)
    ensures m == n
  {
  }

  /** The empty cells whose row-major position is `k` or later, in row-major order. */
  function EmptyFrom(g: Board, k: nat): (s: seq<Move>)
    requires IsGrid(g) && k <= 9
    ensures forall m :: m in s <==> InRange(m) && k <= Index(m) && g[m.0][m.1] == 0
    ensures forall i, j :: 0 <= i < j < |s| ==> Index(s[i]) < Index(s[j])
    decreases 9 - k
  {
    if k == 9 then []
    else
      var rest := EmptyFrom(g, k + 1);
      var here := CellAt(k);
      assert forall m :: InRange(m) && Index(m) == k ==> m == here by {
        forall m | InRange(m) && Index(m) == k { IndexInjective(m, here); }
      }
      if g[here.0][here.1] == 0 then [here] + rest else rest
  }

  /** All empty cells of `g`, in row-major order. */
  function EmptyCells(g: Board): (s: seq<Move>)
    requires IsGrid(g)
    ensures forall m :: m in s <==> InRange(m) && g[m.0][m.1] == 0
    ensures forall i, j :: 0 <= i < j < |s| ==> Index(s[i]) < Index(s[j])
  {
    EmptyFrom(g, 0)
  }

  /** A board has no empty cell exactly when it is full. */
  lemma NoEmptyCellsIffFull(g: Board)
    requires IsGrid(g)
    ensures EmptyCells(g) == [] <==> Full(g)
  {
    if !Full(g) {
      NotFullHasEmptyCell(g);
    } else {
      FullHasNoEmptyCells(g);
    }
  }

  lemma NotFullHasEmptyCell(g: Board)
    requires IsGrid(g) && !Full(g)
    ensures EmptyCells(g) != []
  {
    var r, c :| 0 <= r < 3 && 0 <= c < 3 && g[r][c] == 0;
    ListedCellExists(g, EmptyCells(g), (r, c));
  }

  lemma ListedCellExists(g: Board, s: seq<Move>, m: Move)
    requires IsGrid(g) && InRange(m) && g[m.0][m.1] == 0
    requires forall n :: n in s <==> InRange(n) && g[n.0][n.1] == 0
    ensures s != []
  {
    assert m in s;
  }

  lemma FullHasNoEmptyCells(g: Board)
    requires IsGrid(g) && Full(g)
    ensures EmptyCells(g) == []
  {
    if EmptyCells(g) != [] {
      ListedMeansNotFull(g, EmptyCells(g));
      assert false;
    }
  }

  lemma ListedMeansNotFull(g: Board, s: seq<Move>)
    requires IsGrid(g) && s != []
    requires forall n :: n in s ==> InRange(n) && g[n.0][n.1] == 0
    ensures !Full(g)
  {
    assert s[0] in s;
  }

  /** Filling an empty cell removes exactly that cell from the enumeration. */
  lemma {:induction false} PlaceShrinksFrom(g: Board, m: Move, v: int, k: nat)
    requires IsGrid(g) && InRange(m) && g[m.0][m.1] == 0 && v != 0 && k <= 9
    ensures |EmptyFrom(Place(g, m, v), k)| == if k <= Index(m) then |EmptyFrom(g, k)| - 1 else |EmptyFrom(g, k)|
    decreases 9 - k
  {
    if k < 9 {
      PlaceShrinksFrom(g, m, v, k + 1);
      var here := CellAt(k);
      if here == m {
      } else {
        assert Place(g, m, v)[here.0][here.1] == g[here.0][here.1];
      }
    }
  }

  /** After an empty cell is filled with a nonzero value, the empty cells are the
      old ones without that cell, still in row-major order, one fewer. */
  lemma PlaceRemovesMove(g: Board, m: Move, v: int)
    requires IsGrid(g) && InRange(m) && g[m.0][m.1] == 0 && v != 0
    ensures |EmptyCells(Place(g, m, v))| == |EmptyCells(g)| - 1
    ensures forall n :: n in EmptyCells(Place(g, m, v)) <==> n in EmptyCells(g) && n != m
  {
    PlaceShrinksFrom(g, m, v, 0);
  }

  lemma ZerosStep(k: nat)
    requires k < 9
    ensures EmptyFrom(Zeros(), k) == [CellAt(k)] + EmptyFrom(Zeros(), k + 1)
  {
    var here := CellAt(k);
    assert Zeros()[here.0][here.1] == 0;
  }

  /** Every cell, in row-major order. */
  function AllCells(): seq<Move>
  {
    [(0, 0), (0, 1), (0, 2), (1, 0), (1, 1), (1, 2), (2, 0), (2, 1), (2, 2)]
  }

  lemma {:induction false} ZerosFrom(k: nat)
    requires k <= 9
    ensures EmptyFrom(Zeros(), k) == AllCells()[k..]
    decreases 9 - k
  {
    if k < 9 {
      ZerosFrom(k + 1);
      ZerosStep(k);
      AllCellsStep(k);
    }
  }

  lemma AllCellsStep(k: nat)
    requires k < 9
    ensures AllCells()[k..] == [CellAt(k)] + AllCells()[k + 1..]
  {
    assert AllCells()[k] == CellAt(k);
  }

  /** On the all-zero board every cell is empty: (0,0), (0,1), ..., (2,2). */
  lemma EmptyCellsOfZeros()
    ensures EmptyCells(Zeros()) == AllCells()
  {
    ZerosFrom(0);
  }

  // ---------------------------------------------------------------------------
  // Completed lines.

  predicate RowAll(g: Board, r: int, x: int)
    requires IsGrid(g) && 0 <= r < 3
  {
    forall c :: 0 <= c < 3 ==> g[r][c] == x
  }

  predicate ColAll(g: Board, c: int, x: int)
    requires IsGrid(g) && 0 <= c < 3
  {
    forall r :: 0 <= r < 3 ==> g[r][c] == x
  }

  predicate DiagAll(g: Board, x: int)
    requires IsGrid(g)
  {
    forall i :: 0 <= i < 3 ==> g[i][i] == x
  }

  predicate AntiDiagAll(g: Board, x: int)
    requires IsGrid(g)
  {
    forall i :: 0 <= i < 3 ==> g[i][2 - i] == x
  }

  /** Some row, column or diagonal holds `x` in all three cells. */
  predicate HasLine(g: Board, x: int)
    requires IsGrid(g)
  {
    || (exists r :: 0 <= r < 3 && RowAll(g, r, x))
    || (exists c :: 0 <= c < 3 && ColAll(g, c, x))
    || DiagAll(g, x)
    || AntiDiagAll(g, x)
  }
}
