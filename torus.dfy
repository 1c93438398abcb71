/** The reference semantics of one generation on grids of states: every
    cell sees the eight cells around it, rows and columns both wrapping
    around. A rank's band is stepped with two borrowed rows standing in for
    the rows above and below it; the whole grid is stepped as a torus. */
module Torus {
  import opened CellRule

  type Row = seq<char>
  type Grid = seq<Row>

  /** Every row of g has `cols` entries. */
  predicate Rectangular<T>(g: seq<seq<T>>, cols: nat)
  {
    forall i :: 0 <= i < |g| ==> |g[i]| == cols
  }

  /** The index before i on a cycle of n positions. */
  function Pred(i: nat, n: nat): nat
    requires i < n
  {
    if i == 0 then n - 1 else i - 1
  }

  /** The index after i on a cycle of n positions. */
  function Succ(i: nat, n: nat): nat
    requires i < n
  {
    if i == n - 1 then 0 else i + 1
  }

  /** The source's `mod(j - 1, n)` and `mod(j + 1, n)` are the positions
      before and after j on a cycle of n, also at both ends of the row. */
  lemma ModIsCyclic(j: nat, n: nat)
    requires j < n
    ensures Mod(j - 1, n) == Pred(j, n)
    ensures Mod(j + 1, n) == Succ(j, n)
  {
    ModIsEuclidean(j - 1, n);
    ModIsEuclidean(j + 1, n);
    if j == 0 {
      DivModFromWitness(-1, n, -1, n - 1);
    } else {
      DivModFromWitness(j - 1, n, 0, j - 1);
    }
    if j == n - 1 {
      DivModFromWitness(n, n, 1, 0);
    } else {
      DivModFromWitness(j + 1, n, 0, j + 1);
    }
  }

  /** Column j of `row`, with its neighbour fields holding the states of the
      eight cells around it: `above` and `below` are the rows over and under
      `row`, and columns wrap around. */
  function Neighbourhood(above: Row, row: Row, below: Row, j: nat): Cell
    requires |above| == |row| == |below| && j < |row|
  {
    var n := |row|;
    var l, r := Pred(j, n), Succ(j, n);
    Cell(row[j], above[j], below[j], row[l], row[r], above[l], above[r], below[l], below[r])
  }

  /** The next states of `row`, given the current rows around it. */
  function NextRow(above: Row, row: Row, below: Row): (next: Row)
    requires |above| == |row| == |below|
    ensures |next| == |row|
  {
    seq(|row|, j requires 0 <= j < |row| => DetermineState(Neighbourhood(above, row, below, j)).state)
  }

  /** The row above row i of a band: the borrowed `top` row for the first. */
  function Above(g: Grid, top: Row, i: nat): Row
    requires i < |g|
  {
    if i == 0 then top else g[i - 1]
  }

  /** The row below row i of a band: the borrowed `bottom` row for the last. */
  function Below(g: Grid, bottom: Row, i: nat): Row
    requires i < |g|
  {
    if i == |g| - 1 then bottom else g[i + 1]
  }

  /** One generation of a band of rows whose surroundings are the rows `top`
      (above its first row) and `bottom` (below its last); no cell is created
      or dropped. */
  function LocalStep(g: Grid, top: Row, bottom: Row): (next: Grid)
    requires Rectangular(g, |top|) && |bottom| == |top|
    ensures |next| == |g| && Rectangular(next, |top|)
  {
    seq(|g|, i requires 0 <= i < |g| => NextRow(Above(g, top, i), g[i], Below(g, bottom, i)))
  }

  /** One generation of the whole grid as a torus; no cell is created or
      dropped. */
  function TorusStep(g: Grid, cols: nat): (next: Grid)
    requires |g| > 0 && Rectangular(g, cols)
    ensures |next| == |g| && Rectangular(next, cols)
  {
    var n := |g|;
    seq(n, i requires 0 <= i < n => NextRow(g[Pred(i, n)], g[i], g[Succ(i, n)]))
  }

  /** `generations` torus steps, one after the other. */
  function TorusRun(g: Grid, cols: nat, generations: nat): (last: Grid)
    requires |g| > 0 && Rectangular(g, cols)
    ensures |last| == |g| && Rectangular(last, cols)
    decreases generations
  {
    if generations == 0 then g else TorusRun(TorusStep(g, cols), cols, generations - 1)
  }

  /** On a 1 x 1 torus every neighbour of the cell is the cell itself: a live
      cell sees eight live neighbours and dies, a dead one sees none and
      stays dead. */
  lemma SingleCellTorus(s: char)
    requires s == Alive || s == Dead
    ensures TorusStep([[s]], 1) == [[Dead]]
  {
    var c := Neighbourhood([s], [s], [s], 0);
    assert c == Cell(s, s, s, s, s, s, s, s, s);
    assert AliveCount(c) == if s == Alive then 8 else 0;
    assert NextRow([s], [s], [s]) == [Dead];
  }

  const Block: Grid := [
    "DDDD",
    "DAAD",
    "DAAD",
    "DDDD"]

  /** A 2 x 2 block on a 4 x 4 torus is a still life under this rule too:
      the dead cells around it see at most two live neighbours. */
  lemma BlockIsStillLife()
    ensures TorusStep(Block, 4) == Block
  {
    NextRowIs(Block[3], Block[0], Block[1], Block[0]);
    NextRowIs(Block[0], Block[1], Block[2], Block[1]);
    NextRowIs(Block[1], Block[2], Block[3], Block[2]);
    NextRowIs(Block[2], Block[3], Block[0], Block[3]);
  }

  const Checkerboard: Grid := [
    "ADAD",
    "DADA",
    "ADAD",
    "DADA"]

  const CheckerboardInverse: Grid := [
    "DADA",
    "ADAD",
    "DADA",
    "ADAD"]

  /** On a 4 x 4 checkerboard torus every cell has four live neighbours (its
      diagonals are alive around a live cell, its sides around a dead one):
      live cells die and, because birth needs only 3 or more, every dead cell
      is born, so the board inverts instead of dying out. */
  lemma CheckerboardInverts()
    ensures TorusStep(Checkerboard, 4) == CheckerboardInverse
  {
    NextRowIs(Checkerboard[3], Checkerboard[0], Checkerboard[1], CheckerboardInverse[0]);
    NextRowIs(Checkerboard[0], Checkerboard[1], Checkerboard[2], CheckerboardInverse[1]);
    NextRowIs(Checkerboard[1], Checkerboard[2], Checkerboard[3], CheckerboardInverse[2]);
    NextRowIs(Checkerboard[2], Checkerboard[3], Checkerboard[0], CheckerboardInverse[3]);
  }

  const FullSquare: Grid := [
    "DDDDD",
    "DAAAD",
    "DAAAD",
    "DAAAD",
    "DDDDD"]

  /** A fully live 3 x 3 square, isolated on a 5 x 5 torus, is not a still
      life: its centre sees eight live neighbours and dies, while its corners
      (three live neighbours) survive. */
  lemma FullSquareChanges()
    ensures TorusStep(FullSquare, 5)[2][2] == Dead
    ensures TorusStep(FullSquare, 5)[1][1] == Alive
    ensures TorusStep(FullSquare, 5) != FullSquare
  {
  }

  /** NextRow computed column by column for rows of four. */
  lemma NextRowIs(above: Row, row: Row, below: Row, expected: Row)
    requires |above| == |row| == |below| == |expected| == 4
    requires DetermineState(Neighbourhood(above, row, below, 0)).state == expected[0]
    requires DetermineState(Neighbourhood(above, row, below, 1)).state == expected[1]
    requires DetermineState(Neighbourhood(above, row, below, 2)).state == expected[2]
    requires DetermineState(Neighbourhood(above, row, below, 3)).state == expected[3]
    ensures NextRow(above, row, below) == expected
  {
  }
}
