/** The per-cell part of the simulation: the CELL record, the integer
    helpers it is addressed with, and the transition rule applied to one
    cell once its neighbour fields hold the previous generation's states. */
module CellRule {

  /** A cell of a rank's partition: its own state and the previous-generation
      states of its eight neighbours, filled in by the generation step before
      the rule is applied. States are 'A' (alive) and 'D' (dead). */
  datatype Cell = Cell(
    state: char,
    up: char, down: char, left: char, right: char,
    upLeft: char, upRight: char, downLeft: char, downRight: char)

  const Alive: char := 'A'
  const Dead: char := 'D'

  function Abs(x: int): (a: nat)
    ensures a == x || a == -x
  {
    if x < 0 then -x else x
  }

  /** C's `%` on `int`: the quotient is truncated toward zero, so the
      remainder is smaller than the divisor in magnitude and takes the sign
      of the dividend. */
  function CRem(x: int, y: int): (r: int)
    requires y != 0
    ensures Abs(r) < Abs(y)
    ensures x >= 0 ==> r >= 0
    ensures x <= 0 ==> r <= 0
  {
    var m := Abs(y);
    if x >= 0 then x % m else -((-x) % m)
  }

  /** For a positive divisor, C's remainder differs from Dafny's Euclidean
      `%` exactly when the dividend is negative and not a multiple of the
      divisor; then it is one divisor lower. */
  lemma CRemPositiveDivisor(x: int, y: int)
    requires y > 0
    ensures CRem(x, y) == if x < 0 && x % y != 0 then x % y - y else x % y
  {
    if x < 0 {
      NegMod(x, y);
    }
  }

  lemma MulAtLeast(a: int, y: int)
    requires a >= 1 && y > 0
    ensures a * y >= y
  {
  }

  /** x == q * y + r with 0 <= r < y pins down Dafny's x / y and x % y. */
  lemma DivModFromWitness(x: int, y: int, q: int, r: int)
    requires y > 0 && 0 <= r < y && x == q * y + r
    ensures x / y == q && x % y == r
  {
    var q0, r0 := x / y, x % y;
    assert x == q0 * y + r0;
    if q0 < q {
      assert (q - q0) * y == q * y - q0 * y;
      MulAtLeast(q - q0, y);
    } else if q0 > q {
      assert (q0 - q) * y == q0 * y - q * y;
      MulAtLeast(q0 - q, y);
    }
  }

  /** The Euclidean remainder of a negative dividend, from that of its negation. */
  lemma NegMod(x: int, y: int)
    requires y > 0 && x < 0
    ensures x % y == if (-x) % y == 0 then 0 else y - (-x) % y
  {
    var q, k := (-x) / y, (-x) % y;
    assert -x == q * y + k;
    if k == 0 {
      assert x == (-q) * y + 0;
      DivModFromWitness(x, y, -q, 0);
    } else {
      assert x == (-q - 1) * y + (y - k);
      DivModFromWitness(x, y, -q - 1, y - k);
    }
  }

  /** The non-negative modulo of the source: the C remainder, shifted up by
      the divisor when it is negative. For a positive divisor the result lies
      in [0, y); ModIsEuclidean shows it is congruent to x modulo y. */
  function Mod(x: int, y: int): (r: int)
    requires y != 0
    ensures y > 0 ==> 0 <= r < y
  {
    var r := CRem(x, y);
    if r < 0 then r + y else r
  }

  /** For a positive divisor, Mod is Dafny's Euclidean remainder, the one
      value in [0, y) congruent to x, also for a negative x such as
      `j - 1 == -1` or `rank - 1 == -1`. */
  lemma ModIsEuclidean(x: int, y: int)
    requires y > 0
    ensures Mod(x, y) == x % y
  {
    CRemPositiveDivisor(x, y);
  }

  function Indicator(b: bool): nat
  {
    if b then 1 else 0
  }

  /** How many of the eight neighbour fields are alive: one increment per
      field that holds 'A'. */
  function AliveCount(c: Cell): (n: nat)
    ensures n <= 8
  {
    Indicator(c.up == Alive) + Indicator(c.down == Alive)
    + Indicator(c.left == Alive) + Indicator(c.right == Alive)
    + Indicator(c.upLeft == Alive) + Indicator(c.upRight == Alive)
    + Indicator(c.downLeft == Alive) + Indicator(c.downRight == Alive)
  }

  /** The transition rule on one cell, passed and returned by value. A live
      cell survives on 2 or 3 live neighbours and dies otherwise; any other
      cell becomes alive on 3 OR MORE live neighbours (not exactly 3, as in
      Conway's rule) and otherwise keeps its state. Only `state` can change. */
  function DetermineState(c: Cell): (r: Cell)
    ensures r.(state := c.state) == c
    ensures c.state == Alive ==> (r.state == Alive <==> AliveCount(c) == 2 || AliveCount(c) == 3)
    ensures c.state == Alive ==> r.state == Alive || r.state == Dead
    ensures c.state != Alive ==> (r.state == Alive <==> AliveCount(c) >= 3)
    ensures c.state != Alive && AliveCount(c) < 3 ==> r == c
  {
    var count := AliveCount(c);
    if c.state == Alive then
      if count == 2 || count == 3 then c else c.(state := Dead)
    else if count >= 3 then
      c.(state := Alive)
    else
      c
  }

  /** Conway's own rule (birth on exactly 3 live neighbours), for comparison. */
  predicate ConwayAlive(alive: bool, count: nat)
  {
    count == 3 || (alive && count == 2)
  }

  /** On cells whose state is 'A' or 'D', the rule agrees with Conway's
      except for a dead cell with 4 to 8 live neighbours, which is born here. */
  lemma DeviationFromConway(c: Cell)
    requires c.state == Alive || c.state == Dead
    ensures DetermineState(c).state == Alive || DetermineState(c).state == Dead
    ensures (DetermineState(c).state == Alive)
        == (ConwayAlive(c.state == Alive, AliveCount(c)) || (c.state == Dead && AliveCount(c) >= 4))
  {
  }

  /** The initial state of a cell from its seeded number: even is alive,
      odd is dead (the test is C's `n % 2 == 0`). */
  function InitialState(seed: int): (s: char)
    ensures s == Alive || s == Dead
    ensures s == Alive <==> seed % 2 == 0
  {
    CRemPositiveDivisor(seed, 2);
    if CRem(seed, 2) == 0 then Alive else Dead
  }
}
