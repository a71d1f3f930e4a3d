/**
  The split-prevention checks. Before a block or pixel at (i, j) moves to a
  neighbouring superpixel, its 3 x 3 neighbourhood is inspected; a move is
  refused when removing the centre could cut its superpixel in two.

  Neighbourhood cells are named lRC by row R and column C, the centre being
  l22. Cells beyond the image border are masked to -1 before the test; the
  border is tested against the image's height and width at every level.
 */
module Split {
  import opened Grids

  datatype Window = Window(l11: int, l12: int, l13: int,
                           l21: int, l22: int, l23: int,
                           l31: int, l32: int, l33: int)

  /** The labels around (i, j), with the neighbour rows and columns already
      clamped to the working grid by the caller. */
  function ReadWindow(labels: seq<seq<int>>, rows: int, cols: int,
                      i: int, j: int, iPlus: int, iMinus: int, jPlus: int, jMinus: int): (w: Window)
    requires IsGrid(labels, rows, cols)
    requires 0 <= iMinus < rows && 0 <= i < rows && 0 <= iPlus < rows
    requires 0 <= jMinus < cols && 0 <= j < cols && 0 <= jPlus < cols
    ensures w.l22 == labels[i][j]
    ensures w.l12 == labels[iMinus][j] && w.l32 == labels[iPlus][j]
    ensures w.l21 == labels[i][jMinus] && w.l23 == labels[i][jPlus]
  {
    Window(labels[iMinus][jMinus], labels[iMinus][j], labels[iMinus][jPlus],
           labels[i][jMinus], labels[i][j], labels[i][jPlus],
           labels[iPlus][jMinus], labels[iPlus][j], labels[iPlus][jPlus])
  }

  /** The neighbourhood mirrored about its main diagonal. */
  function Transpose(w: Window): Window {
    Window(w.l11, w.l21, w.l31, w.l12, w.l22, w.l32, w.l13, w.l23, w.l33)
  }

  /** The neighbourhood turned upside down. */
  function FlipRows(w: Window): Window {
    Window(w.l31, w.l32, w.l33, w.l21, w.l22, w.l23, w.l11, w.l12, w.l13)
  }

  // ---------------------------------------------------------------------
  // Vertical forward: the move to the cell below, reading rows i - 1 and i.
  // ---------------------------------------------------------------------

  function MaskVerticalForward(w: Window, i: int, j: int, height: int, width: int): Window {
    var w := if i == 0 then w.(l11 := -1, l12 := -1, l13 := -1) else w;
    var w := if j == 0 then w.(l11 := -1, l21 := -1) else w;
    if j == width - 1 then w.(l13 := -1, l23 := -1) else w
  }

  predicate SplitsVerticalForward(w: Window, i: int, j: int, height: int, width: int) {
    var m := MaskVerticalForward(w, i, j, height, width);
    || (m.l12 != m.l22 && m.l21 == m.l22 && m.l23 == m.l22)
    || (m.l11 != m.l22 && m.l12 == m.l22 && m.l21 == m.l22)
    || (m.l13 != m.l22 && m.l12 == m.l22 && m.l23 == m.l22)
  }

  // ---------------------------------------------------------------------
  // Vertical backward: the move to the cell above, reading rows i and i + 1.
  // ---------------------------------------------------------------------

  function MaskVerticalBackward(w: Window, i: int, j: int, height: int, width: int): Window {
    var w := if i == height - 1 then w.(l31 := -1, l32 := -1, l33 := -1) else w;
    var w := if j == 0 then w.(l21 := -1, l31 := -1) else w;
    if j == width - 1 then w.(l23 := -1, l33 := -1) else w
  }

  predicate SplitsVerticalBackward(w: Window, i: int, j: int, height: int, width: int) {
    var m := MaskVerticalBackward(w, i, j, height, width);
    || (m.l32 != m.l22 && m.l21 == m.l22 && m.l23 == m.l22)
    || (m.l31 != m.l22 && m.l21 == m.l22 && m.l32 == m.l22)
    || (m.l33 != m.l22 && m.l32 == m.l22 && m.l23 == m.l22)
  }

  // ---------------------------------------------------------------------
  // Horizontal forward: the move to the right, reading columns j - 1 and j.
  // ---------------------------------------------------------------------

  function MaskHorizontalForward(w: Window, i: int, j: int, height: int, width: int): Window {
    var w := if i == 0 then w.(l11 := -1, l12 := -1) else w;
    var w := if i == height - 1 then w.(l31 := -1, l32 := -1) else w;
    if j == 0 then w.(l11 := -1, l21 := -1, l31 := -1) else w
  }

  predicate SplitsHorizontalForward(w: Window, i: int, j: int, height: int, width: int) {
    var m := MaskHorizontalForward(w, i, j, height, width);
    || (m.l21 != m.l22 && m.l12 == m.l22 && m.l32 == m.l22)
    || (m.l11 != m.l22 && m.l12 == m.l22 && m.l21 == m.l22)
    || (m.l31 != m.l22 && m.l21 == m.l22 && m.l32 == m.l22)
  }

  // ---------------------------------------------------------------------
  // Horizontal backward: the move to the left, reading columns j and j + 1.
  // ---------------------------------------------------------------------

  function MaskHorizontalBackward(w: Window, i: int, j: int, height: int, width: int): Window {
    var w := if i == 0 then w.(l12 := -1, l13 := -1) else w;
    var w := if i == height - 1 then w.(l32 := -1, l33 := -1) else w;
    if j == width - 1 then w.(l13 := -1, l23 := -1, l33 := -1) else w
  }

  predicate SplitsHorizontalBackward(w: Window, i: int, j: int, height: int, width: int) {
    var m := MaskHorizontalBackward(w, i, j, height, width);
    || (m.l23 != m.l22 && m.l12 == m.l22 && m.l32 == m.l22)
    || (m.l13 != m.l22 && m.l12 == m.l22 && m.l23 == m.l22)
    || (m.l33 != m.l22 && m.l23 == m.l22 && m.l32 == m.l22)
  }

  // ---------------------------------------------------------------------
  // Properties.
  // ---------------------------------------------------------------------

  /** Every neighbour the checks look at carries the centre's label. */
  predicate Uniform(w: Window) {
    && w.l11 == w.l22 && w.l12 == w.l22 && w.l13 == w.l22
    && w.l21 == w.l22 && w.l23 == w.l22
    && w.l31 == w.l22 && w.l32 == w.l22 && w.l33 == w.l22
  }

  /** Away from the image border a cell whose whole neighbourhood shares its
      label never blocks a move in any of the four directions. */
  lemma UniformNeverSplits(w: Window, i: int, j: int, height: int, width: int)
    requires Uniform(w) && 0 < i < height - 1 && 0 < j < width - 1
    ensures !SplitsVerticalForward(w, i, j, height, width)
    ensures !SplitsVerticalBackward(w, i, j, height, width)
    ensures !SplitsHorizontalForward(w, i, j, height, width)
    ensures !SplitsHorizontalBackward(w, i, j, height, width)
  {
  }

  /** The backward vertical check is the forward one on the neighbourhood
      turned upside down, the row counted from the other border. */
  lemma BackwardIsFlippedForward(w: Window, i: int, j: int, height: int, width: int)
    ensures SplitsVerticalBackward(w, i, j, height, width)
        == SplitsVerticalForward(FlipRows(w), height - 1 - i, j, height, width)
  {
  }

  /** The horizontal forward check is the vertical forward one on the
      transposed neighbourhood, rows and columns exchanged. */
  lemma HorizontalForwardIsTransposed(w: Window, i: int, j: int, height: int, width: int)
    ensures SplitsHorizontalForward(w, i, j, height, width)
        == SplitsVerticalForward(Transpose(w), j, i, width, height)
  {
  }

  /** The horizontal backward check is the vertical backward one on the
      transposed neighbourhood, rows and columns exchanged. */
  lemma HorizontalBackwardIsTransposed(w: Window, i: int, j: int, height: int, width: int)
    ensures SplitsHorizontalBackward(w, i, j, height, width)
        == SplitsVerticalBackward(Transpose(w), j, i, width, height)
  {
  }

  /** Reading the neighbourhood of the transposed grid gives the transposed
      neighbourhood, so the transposition lemmas apply to label grids. */
  lemma ReadTransposed(labels: seq<seq<int>>, t: seq<seq<int>>, rows: int, cols: int,
                       i: int, j: int, iPlus: int, iMinus: int, jPlus: int, jMinus: int)
    requires IsGrid(labels, rows, cols) && IsGrid(t, cols, rows)
    requires forall r, c :: 0 <= r < rows && 0 <= c < cols ==> t[c][r] == labels[r][c]
    requires 0 <= iMinus < rows && 0 <= i < rows && 0 <= iPlus < rows
    requires 0 <= jMinus < cols && 0 <= j < cols && 0 <= jPlus < cols
    ensures ReadWindow(t, cols, rows, j, i, jPlus, jMinus, iPlus, iMinus)
         == Transpose(ReadWindow(labels, rows, cols, i, j, iPlus, iMinus, jPlus, jMinus))
  {
  }
}
