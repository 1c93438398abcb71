/** A rank's local partition, `CELL localRow[rows][cols]`, and what one rank
    does to it in a generation: copy its boundary rows out for the exchange,
    fill every cell's neighbour fields in two passes (up/down/left/right,
    then the diagonals), and overwrite every cell in place with the rule.
    Each pass is a method over the array, proved equal to a function on the
    array's contents; lemmas connect the functions to the torus semantics. */
module Partition {
  import opened CellRule
  import opened Torus

  /** Capacity of the row buffers `top`, `bottom`, `rTop` and `rBottom`. */
  const BufferSize: nat := 255

  /** The cells of a partition, row by row. */
  type Band = seq<seq<Cell>>

  /** The states of a band's cells. */
  function StatesOf(b: Band): Grid
  {
    seq(|b|, i requires 0 <= i < |b| => seq(|b[i]|, j requires 0 <= j < |b[i]| => b[i][j].state))
  }

  ghost function Contents(a: array2<Cell>): Band
    reads a
  {
    seq(a.Length0, i requires 0 <= i < a.Length0 reads a =>
      seq(a.Length1, j requires 0 <= j < a.Length1 reads a => a[i, j]))
  }

  ghost function States(a: array2<Cell>): Grid
    reads a
  {
    StatesOf(Contents(a))
  }

  /** Two bands of the same shape whose cells agree are equal. */
  lemma BandsEqual(x: Band, y: Band, cols: nat)
    requires |x| == |y| && Rectangular(x, cols) && Rectangular(y, cols)
    requires forall i, j :: 0 <= i < |x| && 0 <= j < cols ==> x[i][j] == y[i][j]
    ensures x == y
  {
    forall i | 0 <= i < |x|
      ensures x[i] == y[i]
    {
      assert forall j :: 0 <= j < cols ==> x[i][j] == y[i][j];
    }
  }

  /** Cell (i, j) after pass 1 of a generation, as the source writes it: it
      gets its up and down neighbours' states (the received row `rTop` above
      the first row, `rBottom` below the last) and its left and right
      neighbours' states, columns wrapping with `Mod`. */
  function OrthogonalCell(b: Band, rTop: Row, rBottom: Row, i: nat, j: nat): Cell
    requires |b| >= 2 && |rTop| >= 1 && |rBottom| == |rTop| && Rectangular(b, |rTop|)
    requires i < |b| && j < |rTop|
  {
    var rows, cols := |b|, |rTop|;
    var c := b[i][j];
    var vertical :=
      if i == 0 then c.(up := rTop[j], down := b[1][j].state)
      else if i == rows - 1 then c.(down := rBottom[j], up := b[rows - 2][j].state)
      else c.(up := b[i - 1][j].state, down := b[i + 1][j].state);
    vertical.(left := b[i][Mod(j - 1, cols)].state, right := b[i][Mod(j + 1, cols)].state)
  }

  /** Pass 1 over the whole band; it leaves every state as it was. */
  function OrthogonalPass(b: Band, rTop: Row, rBottom: Row): (r: Band)
    requires |b| >= 2 && |rTop| >= 1 && |rBottom| == |rTop| && Rectangular(b, |rTop|)
    ensures |r| == |b| && Rectangular(r, |rTop|)
  {
    seq(|b|, i requires 0 <= i < |b| =>
      seq(|rTop|, j requires 0 <= j < |rTop| => OrthogonalCell(b, rTop, rBottom, i, j)))
  }

  /** Cell (i, j) after pass 2: its diagonals are taken from the up and down
      fields of its left and right neighbours. */
  function DiagonalCell(b: Band, cols: nat, i: nat, j: nat): Cell
    requires cols >= 1 && Rectangular(b, cols) && i < |b| && j < cols
  {
    var l, r := Mod(j - 1, cols), Mod(j + 1, cols);
    b[i][j].(upLeft := b[i][l].up, upRight := b[i][r].up,
             downLeft := b[i][l].down, downRight := b[i][r].down)
  }

  /** Pass 2 over the whole band. */
  function DiagonalPass(b: Band, cols: nat): (r: Band)
    requires cols >= 1 && Rectangular(b, cols)
    ensures |r| == |b| && Rectangular(r, cols)
  {
    seq(|b|, i requires 0 <= i < |b| => seq(cols, j requires 0 <= j < cols => DiagonalCell(b, cols, i, j)))
  }

  /** Pass 3: every cell is replaced by the rule applied to it. */
  function RulePass(b: Band): (r: Band)
    ensures |r| == |b| && forall i :: 0 <= i < |b| ==> |r[i]| == |b[i]|
  {
    seq(|b|, i requires 0 <= i < |b| => seq(|b[i]|, j requires 0 <= j < |b[i]| => DetermineState(b[i][j])))
  }

  /** The cells of a band as they should be just before the rule is applied:
      each with its own state and the states of its eight torus neighbours,
      `top` and `bottom` standing in for the rows around the band. */
  function Snapshot(g: Grid, top: Row, bottom: Row): (b: Band)
    requires Rectangular(g, |top|) && |bottom| == |top|
    ensures |b| == |g| && Rectangular(b, |top|)
  {
    seq(|g|, i requires 0 <= i < |g| =>
      seq(|top|, j requires 0 <= j < |top| => Neighbourhood(Above(g, top, i), g[i], Below(g, bottom, i), j)))
  }

  /** Pass 1 leaves states and diagonals alone and fills up, down, left and
      right with the old states of the cells above, below and beside each
      cell. */
  lemma OrthogonalPassNeighbours(b: Band, top: Row, bottom: Row, i: nat, j: nat)
    requires |b| >= 2 && |top| >= 1 && |bottom| == |top| && Rectangular(b, |top|)
    requires i < |b| && j < |top|
    ensures var c, g := OrthogonalPass(b, top, bottom)[i][j], StatesOf(b);
      c.state == g[i][j] && c.up == Above(g, top, i)[j] && c.down == Below(g, bottom, i)[j]
      && c.left == g[i][Pred(j, |top|)] && c.right == g[i][Succ(j, |top|)]
      && c.(up := b[i][j].up, down := b[i][j].down, left := b[i][j].left, right := b[i][j].right) == b[i][j]
  {
    var cols, g := |top|, StatesOf(b);
    ModIsCyclic(j, cols);
    var c := OrthogonalPass(b, top, bottom)[i][j];
    assert g[i][j] == b[i][j].state;
    assert c.left == g[i][Pred(j, cols)] && c.right == g[i][Succ(j, cols)];
    if i == 0 {
      assert c.down == g[1][j];
    } else if i == |b| - 1 {
      assert c.up == g[i - 1][j];
    } else {
      assert c.up == g[i - 1][j] && c.down == g[i + 1][j];
    }
  }

  /** The two-pass trick: pass 2 run after pass 1 over the whole band gives
      every cell the old states of all eight of its torus neighbours, the
      diagonals included, although pass 2 only reads neighbours' up and down
      fields. */
  lemma {:induction false} TwoPassesFillNeighbourhood(b: Band, top: Row, bottom: Row)
    requires |b| >= 2 && |top| >= 1 && |bottom| == |top| && Rectangular(b, |top|)
    ensures DiagonalPass(OrthogonalPass(b, top, bottom), |top|) == Snapshot(StatesOf(b), top, bottom)
  {
    var cols := |top|;
    var o := OrthogonalPass(b, top, bottom);
    var d := DiagonalPass(o, cols);
    var s := Snapshot(StatesOf(b), top, bottom);
    forall i, j | 0 <= i < |b| && 0 <= j < cols
      ensures d[i][j] == s[i][j]
    {
      ModIsCyclic(j, cols);
      var l, r := Pred(j, cols), Succ(j, cols);
      OrthogonalPassNeighbours(b, top, bottom, i, j);
      OrthogonalPassNeighbours(b, top, bottom, i, l);
      OrthogonalPassNeighbours(b, top, bottom, i, r);
    }
    BandsEqual(d, s, cols);
  }

  /** Applying the rule to the snapshot cells gives exactly the band's next
      states: the in-place overwrite of pass 3 is a double-buffered step,
      since each cell's new state depends only on its own snapshot. */
  lemma {:induction false} RuleOnSnapshotIsLocalStep(g: Grid, top: Row, bottom: Row)
    requires Rectangular(g, |top|) && |bottom| == |top|
    ensures StatesOf(RulePass(Snapshot(g, top, bottom))) == LocalStep(g, top, bottom)
  {
    var x, y := StatesOf(RulePass(Snapshot(g, top, bottom))), LocalStep(g, top, bottom);
    forall i | 0 <= i < |g|
      ensures x[i] == y[i]
    {
      assert |x[i]| == |y[i]|;
      forall j | 0 <= j < |top|
        ensures x[i][j] == y[i][j]
      {
      }
    }
  }

  /** Copies row 0 and row rows-1 of the partition into the send buffers
      `top` and `bottom`; the rest of each buffer is left as it was. */
  method ExtractBoundaryRows(a: array2<Cell>, top: array<char>, bottom: array<char>)
    requires a.Length0 >= 1 && a.Length1 <= top.Length && a.Length1 <= bottom.Length
    requires top != bottom
    modifies top, bottom
    ensures top[..a.Length1] == States(a)[0]
    ensures bottom[..a.Length1] == States(a)[a.Length0 - 1]
    ensures top[a.Length1..] == old(top[a.Length1..])
    ensures bottom[a.Length1..] == old(bottom[a.Length1..])
  {
    var rows, cols := a.Length0, a.Length1;
    for i := 0 to cols
      invariant forall j :: 0 <= j < i ==> top[j] == a[0, j].state && bottom[j] == a[rows - 1, j].state
      invariant top[cols..] == old(top[cols..]) && bottom[cols..] == old(bottom[cols..])
    {
      top[i] := a[0, i].state;
      bottom[i] := a[rows - 1, i].state;
    }
  }

  /** The body of pass 1 for cell (i, j): the cell with its up, down, left
      and right fields set from the received rows and the states around it,
      while every state in the array is still the one in `b`. */
  method OrthogonalUpdate(a: array2<Cell>, rTop: array<char>, rBottom: array<char>, i: nat, j: nat, ghost b: Band)
    returns (c: Cell)
    requires a.Length0 >= 2 && 1 <= a.Length1 <= rTop.Length && a.Length1 <= rBottom.Length
    requires i < a.Length0 && j < a.Length1 && |b| == a.Length0 && Rectangular(b, a.Length1)
    requires forall i', j' :: 0 <= i' < a.Length0 && 0 <= j' < a.Length1 ==> a[i', j'].state == b[i'][j'].state
    requires a[i, j] == b[i][j]
    ensures c == OrthogonalCell(b, rTop[..a.Length1], rBottom[..a.Length1], i, j)
  {
    var rows, cols := a.Length0, a.Length1;
    c := a[i, j];
    if i == 0 {
      c := c.(up := rTop[j], down := a[1, j].state);
    } else if i == rows - 1 {
      c := c.(down := rBottom[j], up := a[rows - 2, j].state);
    } else {
      c := c.(up := a[i - 1, j].state, down := a[i + 1, j].state);
    }
    c := c.(left := a[i, Mod(j - 1, cols)].state, right := a[i, Mod(j + 1, cols)].state);
  }

  /** Pass 1 over the array (the received rows are in the first `cols`
      characters of `rTop` and `rBottom`). */
  method AssignOrthogonalNeighbours(a: array2<Cell>, rTop: array<char>, rBottom: array<char>)
    requires a.Length0 >= 2 && 1 <= a.Length1 <= rTop.Length && a.Length1 <= rBottom.Length
    modifies a
    ensures Contents(a) == OrthogonalPass(old(Contents(a)), rTop[..a.Length1], rBottom[..a.Length1])
  {
    var rows, cols := a.Length0, a.Length1;
    ghost var b: Band := Contents(a);
    ghost var target := OrthogonalPass(b, rTop[..cols], rBottom[..cols]);
    for i := 0 to rows
      invariant forall i', j' {:trigger a[i', j']} :: 0 <= i' < rows && 0 <= j' < cols ==> a[i', j'].state == b[i'][j'].state
      invariant forall i', j' {:trigger a[i', j']} :: 0 <= i' < rows && 0 <= j' < cols ==>
        a[i', j'] == if i' < i then target[i'][j'] else b[i'][j']
    {
      for j := 0 to cols
        invariant forall i', j' {:trigger a[i', j']} :: 0 <= i' < rows && 0 <= j' < cols ==> a[i', j'].state == b[i'][j'].state
        invariant forall i', j' {:trigger a[i', j']} :: 0 <= i' < rows && 0 <= j' < cols ==>
          a[i', j'] == if i' < i || (i' == i && j' < j) then target[i'][j'] else b[i'][j']
      {
        var c := OrthogonalUpdate(a, rTop, rBottom, i, j, b);
        a[i, j] := c;
      }
    }
    BandsEqual(Contents(a), target, cols);
  }

  /** The body of pass 2 for cell (i, j): the cell with its diagonal fields
      set from the up and down fields of its left and right neighbours, while
      row i's up and down fields are still the ones in `b`. */
  method DiagonalUpdate(a: array2<Cell>, i: nat, j: nat, ghost b: Band) returns (c: Cell)
    requires 1 <= a.Length1 && i < a.Length0 && j < a.Length1 && |b| == a.Length0 && Rectangular(b, a.Length1)
    requires forall j' :: 0 <= j' < a.Length1 ==> a[i, j'].up == b[i][j'].up && a[i, j'].down == b[i][j'].down
    requires a[i, j] == b[i][j]
    ensures c == DiagonalCell(b, a.Length1, i, j)
  {
    var cols := a.Length1;
    c := a[i, j];
    c := c.(upLeft := a[i, Mod(j - 1, cols)].up, upRight := a[i, Mod(j + 1, cols)].up,
            downLeft := a[i, Mod(j - 1, cols)].down, downRight := a[i, Mod(j + 1, cols)].down);
  }

  /** Pass 2 over the array. */
  method AssignDiagonalNeighbours(a: array2<Cell>)
    requires a.Length1 >= 1
    modifies a
    ensures Contents(a) == DiagonalPass(old(Contents(a)), a.Length1)
  {
    var rows, cols := a.Length0, a.Length1;
    ghost var b: Band := Contents(a);
    ghost var target := DiagonalPass(b, cols);
    for i := 0 to rows
      invariant forall i', j' {:trigger a[i', j']} :: 0 <= i' < rows && 0 <= j' < cols ==>
        a[i', j'] == if i' < i then target[i'][j'] else b[i'][j']
    {
      for j := 0 to cols
        invariant forall j' :: 0 <= j' < cols ==> a[i, j'].up == b[i][j'].up && a[i, j'].down == b[i][j'].down
        invariant forall i', j' {:trigger a[i', j']} :: 0 <= i' < rows && 0 <= j' < cols ==>
          a[i', j'] == if i' < i || (i' == i && j' < j) then target[i'][j'] else b[i'][j']
      {
        var c := DiagonalUpdate(a, i, j, b);
        a[i, j] := c;
      }
    }
    BandsEqual(Contents(a), target, cols);
  }

  /** Pass 3 over the array: every cell overwritten in place by the rule. */
  method ApplyRule(a: array2<Cell>)
    modifies a
    ensures Contents(a) == RulePass(old(Contents(a)))
  {
    var rows, cols := a.Length0, a.Length1;
    ghost var b: Band := Contents(a);
    ghost var target := RulePass(b);
    for i := 0 to rows
      invariant forall i', j' :: 0 <= i' < rows && 0 <= j' < cols ==>
        a[i', j'] == if i' < i then target[i'][j'] else b[i'][j']
    {
      for j := 0 to cols
        invariant forall i', j' :: 0 <= i' < rows && 0 <= j' < cols ==>
          a[i', j'] == if i' < i || (i' == i && j' < j) then target[i'][j'] else b[i'][j']
      {
        a[i, j] := DetermineState(a[i, j]);
      }
    }
    BandsEqual(Contents(a), target, cols);
  }

  /** The computing part of one generation on a rank, once the ghost rows
      have arrived: the three passes in order. Afterwards every cell holds
      the old states of its eight torus neighbours and its new state, and
      the partition's states are one step of the band. */
  method ComputeGeneration(a: array2<Cell>, rTop: array<char>, rBottom: array<char>)
    requires a.Length0 >= 2 && 1 <= a.Length1 < BufferSize
    requires rTop.Length == BufferSize && rBottom.Length == BufferSize
    modifies a
    ensures Contents(a) == RulePass(Snapshot(old(States(a)), rTop[..a.Length1], rBottom[..a.Length1]))
    ensures States(a) == LocalStep(old(States(a)), rTop[..a.Length1], rBottom[..a.Length1])
  {
    ghost var b: Band := Contents(a);
    ghost var top, bottom := rTop[..a.Length1], rBottom[..a.Length1];
    AssignOrthogonalNeighbours(a, rTop, rBottom);
    AssignDiagonalNeighbours(a);
    TwoPassesFillNeighbourhood(b, top, bottom);
    ApplyRule(a);
    RuleOnSnapshotIsLocalStep(StatesOf(b), top, bottom);
  }

  /** The seeding loop of `main`: every cell's state is set from its seeded
      number (even gives 'A', odd gives 'D'); its other fields are untouched. */
  method SeedStates(a: array2<Cell>, m: array2<int>)
    requires m.Length0 == a.Length0 && m.Length1 == a.Length1
    modifies a
    ensures forall i, j :: 0 <= i < a.Length0 && 0 <= j < a.Length1 ==>
      a[i, j] == old(a[i, j]).(state := InitialState(m[i, j]))
    ensures forall i, j :: 0 <= i < a.Length0 && 0 <= j < a.Length1 ==>
      (a[i, j].state == Alive <==> m[i, j] % 2 == 0) && (a[i, j].state == Alive || a[i, j].state == Dead)
  {
    var rows, cols := a.Length0, a.Length1;
    for i := 0 to rows
      invariant forall i', j' :: 0 <= i' < rows && 0 <= j' < cols ==>
        a[i', j'] == if i' < i then old(a[i', j']).(state := InitialState(m[i', j'])) else old(a[i', j'])
    {
      for j := 0 to cols
        invariant forall i', j' :: 0 <= i' < rows && 0 <= j' < cols ==>
          a[i', j'] == if i' < i || (i' == i && j' < j) then old(a[i', j']).(state := InitialState(m[i', j']))
                       else old(a[i', j'])
      {
        if CRem(m[i, j], 2) == 0 {
          a[i, j] := a[i, j].(state := Alive);
        } else {
          a[i, j] := a[i, j].(state := Dead);
        }
      }
    }
  }
}
