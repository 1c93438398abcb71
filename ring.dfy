/** The ranks as a ring. The global grid is cut into `p` bands of `rows`
    rows, rank r holding the r-th band. In every generation each rank sends
    its top row up to rank `mod(r - 1, p)` with tag 0 and its bottom row down
    to rank `mod(r + 1, p)` with tag 1, then receives the row from below (tag
    0) into `rBottom` and the row from above (tag 1) into `rTop`. Here the
    exchange is a pure function of the bands; composed with the local step
    on every rank it is one torus step of the stacked grid. */
module Ring {
  import opened CellRule
  import opened Torus

  datatype Option<T> = None | Some(value: T)

  /** `p >= 1` bands of `rows >= 2` rows of `cols` states each (a band of
      one row would make pass 1 read past it). */
  predicate Uniform(parts: seq<Grid>, rows: nat, cols: nat)
  {
    |parts| >= 1 && rows >= 2
    && forall r :: 0 <= r < |parts| ==> |parts[r]| == rows && Rectangular(parts[r], cols)
  }

  /** The global grid: the bands of ranks 0 .. p-1, top to bottom. */
  function Stack(parts: seq<Grid>): (g: Grid)
  {
    if |parts| == 0 then [] else Stack(parts[..|parts| - 1]) + parts[|parts| - 1]
  }

  /** The global index of rank r's first row, `r * rows`, counted up band
      by band. */
  function Offset(r: nat, rows: nat): nat
  {
    if r == 0 then 0 else Offset(r - 1, rows) + rows
  }

  /** Offset(r, rows) is the product `r * rows`. */
  lemma {:induction false} OffsetIsProduct(r: nat, rows: nat)
    ensures Offset(r, rows) == r * rows
  {
    if r > 0 {
      OffsetIsProduct(r - 1, rows);
      assert r * rows == (r - 1) * rows + rows;
    }
  }

  /** Offsets grow by at least one band per rank. */
  lemma {:induction false} OffsetMonotone(r: nat, s: nat, rows: nat)
    requires r < s
    ensures Offset(r, rows) + rows <= Offset(s, rows)
    decreases s
  {
    if r < s - 1 {
      OffsetMonotone(r, s - 1, rows);
    }
  }

  /** Row i of rank r's band is row Offset(r) + i of the global grid, which
      has Offset(p) rows of `cols` states. */
  lemma {:induction false} StackAt(parts: seq<Grid>, rows: nat, cols: nat, r: nat, i: nat)
    requires Uniform(parts, rows, cols) && r < |parts| && i < rows
    ensures |Stack(parts)| == Offset(|parts|, rows) && Rectangular(Stack(parts), cols)
    ensures Offset(r, rows) + i < |Stack(parts)|
    ensures Stack(parts)[Offset(r, rows) + i] == parts[r][i]
  {
    var n := |parts|;
    var init := parts[..n - 1];
    assert Stack(parts) == Stack(init) + parts[n - 1];
    if n == 1 {
      assert Stack(init) == [];
    } else if r < n - 1 {
      StackAt(init, rows, cols, r, i);
      OffsetMonotone(r, n - 1, rows);
    } else {
      StackAt(init, rows, cols, 0, 0);
    }
  }

  /** StackAt at a global index given as a number. */
  lemma StackAtIndex(parts: seq<Grid>, rows: nat, cols: nat, r: nat, i: nat, k: nat)
    requires Uniform(parts, rows, cols) && r < |parts| && i < rows && k == Offset(r, rows) + i
    ensures k < |Stack(parts)| && Stack(parts)[k] == parts[r][i]
  {
    StackAt(parts, rows, cols, r, i);
  }

  /** Every global row index is row i of the band of some rank r. */
  lemma {:induction false} GlobalRowSplits(p: nat, rows: nat, k: nat) returns (r: nat, i: nat)
    requires rows >= 1 && k < Offset(p, rows)
    ensures r < p && i < rows && k == Offset(r, rows) + i
    decreases p
  {
    if k < Offset(p - 1, rows) {
      r, i := GlobalRowSplits(p - 1, rows, k);
    } else {
      r, i := p - 1, k - Offset(p - 1, rows);
    }
  }

  function TopRow(g: Grid): Row
    requires |g| >= 1
  {
    g[0]
  }

  function BottomRow(g: Grid): Row
    requires |g| >= 1
  {
    g[|g| - 1]
  }

  /** The rows rank r needs around its band: `rTop`, the bottom row of the
      rank above it on the ring, and `rBottom`, the top row of the rank below
      it. */
  function Halo(parts: seq<Grid>, rows: nat, cols: nat, r: nat): (h: (Row, Row))
    requires Uniform(parts, rows, cols) && r < |parts|
    ensures |h.0| == cols && |h.1| == cols
  {
    var p := |parts|;
    (BottomRow(parts[Pred(r, p)]), TopRow(parts[Succ(r, p)]))
  }

  /** A point-to-point message: sender rank, receiver rank, tag and the row
      carried. */
  datatype Message = Message(source: nat, dest: nat, tag: nat, payload: Row)

  const TopTag: nat := 0
  const BottomTag: nat := 1

  /** The two sends of rank r, in program order. */
  function Outbox(parts: seq<Grid>, rows: nat, cols: nat, r: nat): (out: seq<Message>)
    requires Uniform(parts, rows, cols) && r < |parts|
    ensures |out| == 2 && out[0].source == r && out[1].source == r
  {
    var p := |parts|;
    [Message(r, Mod(r - 1, p), TopTag, TopRow(parts[r])),
     Message(r, Mod(r + 1, p), BottomTag, BottomRow(parts[r]))]
  }

  /** The messages of ranks 0 .. n-1. */
  function Posted(parts: seq<Grid>, rows: nat, cols: nat, n: nat): (msgs: seq<Message>)
    requires Uniform(parts, rows, cols) && n <= |parts|
    ensures forall k :: 0 <= k < |msgs| ==> msgs[k].source < n
  {
    if n == 0 then [] else Posted(parts, rows, cols, n - 1) + Outbox(parts, rows, cols, n - 1)
  }

  /** The row a receive matching (source, dest, tag) takes: the payload of
      the first such message. Messages between one pair of ranks with one
      tag are not overtaken by later ones. */
  function Receive(msgs: seq<Message>, source: nat, dest: nat, tag: nat): Option<Row>
  {
    if |msgs| == 0 then None
    else if msgs[0].source == source && msgs[0].dest == dest && msgs[0].tag == tag then Some(msgs[0].payload)
    else Receive(msgs[1..], source, dest, tag)
  }

  /** A receive naming a source that sent none of the messages finds none. */
  lemma {:induction false} ReceiveNoMatch(msgs: seq<Message>, source: nat, dest: nat, tag: nat)
    requires forall k :: 0 <= k < |msgs| ==> msgs[k].source != source
    ensures Receive(msgs, source, dest, tag) == None
  {
    if |msgs| > 0 {
      ReceiveNoMatch(msgs[1..], source, dest, tag);
    }
  }

  lemma {:induction false} ReceiveAppend(a: seq<Message>, b: seq<Message>, source: nat, dest: nat, tag: nat)
    ensures Receive(a + b, source, dest, tag)
         == if Receive(a, source, dest, tag).Some? then Receive(a, source, dest, tag) else Receive(b, source, dest, tag)
  {
    if |a| > 0 {
      assert (a + b)[0] == a[0];
      assert (a + b)[1..] == a[1..] + b;
      ReceiveAppend(a[1..], b, source, dest, tag);
    } else {
      assert a + b == b;
    }
  }

  /** A receive naming source s finds what rank s sent: the other ranks'
      messages do not match it. */
  lemma {:induction false} ReceiveFromSender(parts: seq<Grid>, rows: nat, cols: nat, n: nat, s: nat, dest: nat, tag: nat)
    requires Uniform(parts, rows, cols) && s < n <= |parts|
    ensures Receive(Posted(parts, rows, cols, n), s, dest, tag) == Receive(Outbox(parts, rows, cols, s), s, dest, tag)
  {
    var before, out := Posted(parts, rows, cols, n - 1), Outbox(parts, rows, cols, n - 1);
    ReceiveAppend(before, out, s, dest, tag);
    if s == n - 1 {
      ReceiveNoMatch(before, s, dest, tag);
    } else {
      ReceiveFromSender(parts, rows, cols, n - 1, s, dest, tag);
      ReceiveNoMatch(out, s, dest, tag);
    }
  }

  /** The two receives of rank r once every rank has posted its sends:
      `rTop` from the rank above with tag 1, `rBottom` from the rank below
      with tag 0. */
  function Exchange(parts: seq<Grid>, rows: nat, cols: nat, r: nat): (Option<Row>, Option<Row>)
    requires Uniform(parts, rows, cols) && r < |parts|
  {
    var p := |parts|;
    var msgs := Posted(parts, rows, cols, p);
    (Receive(msgs, Mod(r - 1, p), r, BottomTag), Receive(msgs, Mod(r + 1, p), r, TopTag))
  }

  /** The exchange delivers to every rank exactly the rows of its halo: the
      receives never come back empty and take the neighbours' boundary rows. */
  lemma {:induction false} ExchangeDeliversHalo(parts: seq<Grid>, rows: nat, cols: nat, r: nat)
    requires Uniform(parts, rows, cols) && r < |parts|
    ensures Exchange(parts, rows, cols, r) == (Some(Halo(parts, rows, cols, r).0), Some(Halo(parts, rows, cols, r).1))
  {
    var p := |parts|;
    var above, below := Mod(r - 1, p), Mod(r + 1, p);
    ModIsCyclic(r, p);
    ModIsCyclic(above, p);
    ModIsCyclic(below, p);
    ReceiveFromSender(parts, rows, cols, p, above, r, BottomTag);
    ReceiveFromSender(parts, rows, cols, p, below, r, TopTag);
  }

  /** Every row a rank sends ends up where it is needed: the top row rank r
      sends up becomes the `rBottom` of rank `mod(r - 1, p)`, and the bottom
      row it sends down becomes the `rTop` of rank `mod(r + 1, p)`. */
  lemma {:induction false} SentRowsArriveAtNeighbours(parts: seq<Grid>, rows: nat, cols: nat, r: nat)
    requires Uniform(parts, rows, cols) && r < |parts|
    ensures Mod(r - 1, |parts|) < |parts| && Exchange(parts, rows, cols, Mod(r - 1, |parts|)).1 == Some(TopRow(parts[r]))
    ensures Mod(r + 1, |parts|) < |parts| && Exchange(parts, rows, cols, Mod(r + 1, |parts|)).0 == Some(BottomRow(parts[r]))
  {
    var p := |parts|;
    ModIsCyclic(r, p);
    ExchangeDeliversHalo(parts, rows, cols, Pred(r, p));
    ExchangeDeliversHalo(parts, rows, cols, Succ(r, p));
  }

  /** One generation on every rank: each band takes a local step with its
      halo as the rows around it. */
  function RingStep(parts: seq<Grid>, rows: nat, cols: nat): (next: seq<Grid>)
    requires Uniform(parts, rows, cols)
    ensures |next| == |parts| && Uniform(next, rows, cols)
  {
    seq(|parts|, r requires 0 <= r < |parts| =>
      LocalStep(parts[r], Halo(parts, rows, cols, r).0, Halo(parts, rows, cols, r).1))
  }

  /** Each rank's band steps with the very rows its two receives take:
      RingStep is a generation on the routed rows, not just on Halo. */
  lemma {:induction false} RingStepTakesReceivedRows(parts: seq<Grid>, rows: nat, cols: nat, r: nat)
    requires Uniform(parts, rows, cols) && r < |parts|
    ensures Exchange(parts, rows, cols, r).0.Some? && Exchange(parts, rows, cols, r).1.Some?
    ensures |Exchange(parts, rows, cols, r).0.value| == cols == |Exchange(parts, rows, cols, r).1.value|
    ensures RingStep(parts, rows, cols)[r]
         == LocalStep(parts[r], Exchange(parts, rows, cols, r).0.value, Exchange(parts, rows, cols, r).1.value)
  {
    ExchangeDeliversHalo(parts, rows, cols, r);
  }

  /** The row above global row k of the stacked grid is, inside a band, the
      band's own previous row, and at a band's top the bottom row of the
      rank above it: what the local step reads through `Above`. */
  lemma {:induction false} AboveIsTorusPred(parts: seq<Grid>, rows: nat, cols: nat, r: nat, i: nat)
    requires Uniform(parts, rows, cols) && r < |parts| && i < rows
    ensures Offset(r, rows) + i < |Stack(parts)|
    ensures Stack(parts)[Pred(Offset(r, rows) + i, |Stack(parts)|)] == Above(parts[r], Halo(parts, rows, cols, r).0, i)
  {
    var p := |parts|;
    StackAt(parts, rows, cols, r, i);
    if i > 0 {
      StackAt(parts, rows, cols, r, i - 1);
    } else if r > 0 {
      StackAt(parts, rows, cols, r - 1, rows - 1);
    } else {
      StackAt(parts, rows, cols, p - 1, rows - 1);
    }
  }

  /** The row below global row k, symmetrically. */
  lemma {:induction false} BelowIsTorusSucc(parts: seq<Grid>, rows: nat, cols: nat, r: nat, i: nat)
    requires Uniform(parts, rows, cols) && r < |parts| && i < rows
    ensures Offset(r, rows) + i < |Stack(parts)|
    ensures Stack(parts)[Succ(Offset(r, rows) + i, |Stack(parts)|)] == Below(parts[r], Halo(parts, rows, cols, r).1, i)
  {
    var p := |parts|;
    StackAt(parts, rows, cols, r, i);
    if i < rows - 1 {
      StackAt(parts, rows, cols, r, i + 1);
    } else if r < p - 1 {
      StackAt(parts, rows, cols, r + 1, 0);
    } else {
      StackAt(parts, rows, cols, 0, 0);
    }
  }

  /** Global row k of the stacked grid is row i of rank r's band, and the
      rows above and below it on the torus are the rows the local step of
      rank r reads there. */
  lemma {:induction false} StackedNeighbours(parts: seq<Grid>, rows: nat, cols: nat, k: nat) returns (r: nat, i: nat)
    requires Uniform(parts, rows, cols) && k < Offset(|parts|, rows)
    ensures |Stack(parts)| == Offset(|parts|, rows) && Rectangular(Stack(parts), cols)
    ensures r < |parts| && i < rows && k == Offset(r, rows) + i
    ensures Stack(parts)[k] == parts[r][i]
    ensures Stack(parts)[Pred(k, |Stack(parts)|)] == Above(parts[r], Halo(parts, rows, cols, r).0, i)
    ensures Stack(parts)[Succ(k, |Stack(parts)|)] == Below(parts[r], Halo(parts, rows, cols, r).1, i)
  {
    r, i := GlobalRowSplits(|parts|, rows, k);
    StackAt(parts, rows, cols, r, i);
    AboveIsTorusPred(parts, rows, cols, r, i);
    BelowIsTorusSucc(parts, rows, cols, r, i);
  }

  /** Each row of the stacked grid after the ring step is the torus step's
      row at the same global index. */
  lemma {:induction false} RingStepRow(parts: seq<Grid>, rows: nat, cols: nat, k: nat)
    requires Uniform(parts, rows, cols) && k < Offset(|parts|, rows)
    ensures |Stack(parts)| > 0 && Rectangular(Stack(parts), cols)
    ensures k < |Stack(parts)| == |Stack(RingStep(parts, rows, cols))|
    ensures Stack(RingStep(parts, rows, cols))[k] == TorusStep(Stack(parts), cols)[k]
  {
    var r, i := StackedNeighbours(parts, rows, cols, k);
    var next, g := RingStep(parts, rows, cols), Stack(parts);
    var h := Halo(parts, rows, cols, r);
    StackAt(next, rows, cols, 0, 0);
    StackAtIndex(next, rows, cols, r, i, k);
    assert next[r] == LocalStep(parts[r], h.0, h.1);
  }

  /** The central property: the ring exchange followed by the local step on
      every rank is one torus step of the stacked `p * rows` x `cols` grid. */
  lemma {:induction false} RingStepIsTorusStep(parts: seq<Grid>, rows: nat, cols: nat)
    requires Uniform(parts, rows, cols)
    ensures |Stack(parts)| > 0 && Rectangular(Stack(parts), cols)
    ensures Stack(RingStep(parts, rows, cols)) == TorusStep(Stack(parts), cols)
  {
    RingStepRow(parts, rows, cols, 0);
    StackAt(parts, rows, cols, 0, 0);
    var x, y := Stack(RingStep(parts, rows, cols)), TorusStep(Stack(parts), cols);
    forall k | 0 <= k < |x|
      ensures x[k] == y[k]
    {
      RingStepRow(parts, rows, cols, k);
    }
  }

  /** `generations` ring steps, counted by a counter of their own. */
  function RingRun(parts: seq<Grid>, rows: nat, cols: nat, generations: nat): (last: seq<Grid>)
    requires Uniform(parts, rows, cols)
    ensures |last| == |parts| && Uniform(last, rows, cols)
    decreases generations
  {
    if generations == 0 then parts else RingRun(RingStep(parts, rows, cols), rows, cols, generations - 1)
  }

  /** Running the ring for G generations runs the torus for G generations. */
  lemma {:induction false} RingRunIsTorusRun(parts: seq<Grid>, rows: nat, cols: nat, generations: nat)
    requires Uniform(parts, rows, cols)
    ensures |Stack(parts)| > 0 && Rectangular(Stack(parts), cols)
    ensures Stack(RingRun(parts, rows, cols, generations)) == TorusRun(Stack(parts), cols, generations)
    decreases generations
  {
    if generations == 0 {
      StackAt(parts, rows, cols, 0, 0);
    } else {
      RingStepIsTorusStep(parts, rows, cols);
      RingRunIsTorusRun(RingStep(parts, rows, cols), rows, cols, generations - 1);
    }
  }
}
