/** The iteration space shared by every loop nest of the kernel, `for i < kNumRows
    { for j < kNumCols { .. } }`, and its coalesced form: one counter `c` over
    [0, kNumRows * kNumCols), from which the original indices are recovered as
    `i = c / kNumCols` and `j = c % kNumCols`. */
module Coalescing {

  const NUM_ROWS := 4
  const NUM_COLS := 4
  const NUM_ELEMENTS := NUM_ROWS * NUM_COLS

  /** The pair (i, j) lies in the iteration space. */
  predicate InSpace(i: int, j: int) {
    0 <= i < NUM_ROWS && 0 <= j < NUM_COLS
  }

  /** The running linear index of the pair (i, j) in a row-major nest. */
  function Linearize(i: int, j: int): int {
    i * NUM_COLS + j
  }

  /** The pair (i, j) that the coalesced loop recovers from its single counter. */
  function Delinearize(c: int): (int, int) {
    (c / NUM_COLS, c % NUM_COLS)
  }

  /** Every pair of the iteration space has a linear index in [0, NUM_ELEMENTS), and
      recovering the indices from it gives the pair back. */
  lemma DelinearizeLinearize(i: int, j: int)
    requires InSpace(i, j)
    ensures 0 <= Linearize(i, j) < NUM_ELEMENTS
    ensures Delinearize(Linearize(i, j)) == (i, j)
  {
    var c := Linearize(i, j);
    var (q, r) := Delinearize(c);
    assert c == q * NUM_COLS + r && 0 <= r < NUM_COLS;
    assert (i - q) * NUM_COLS == r - j;
  }

  /** Distinct pairs of the iteration space have distinct linear indices. */
  lemma LinearizeInjective(i: int, j: int, i': int, j': int)
    requires InSpace(i, j) && InSpace(i', j')
    requires Linearize(i, j) == Linearize(i', j')
    ensures i == i' && j == j'
  {
    DelinearizeLinearize(i, j);
    DelinearizeLinearize(i', j');
  }

  /** Every counter value in [0, NUM_ELEMENTS) decodes to a pair of the iteration space,
      and linearizing that pair gives the counter back. */
  lemma LinearizeDelinearize(c: int)
    requires 0 <= c < NUM_ELEMENTS
    ensures InSpace(Delinearize(c).0, Delinearize(c).1)
    ensures Linearize(Delinearize(c).0, Delinearize(c).1) == c
  {
  }

  /** The pairs (i, 0), .., (i, n-1), in the order the inner loop visits them. */
  function RowOrder(i: int, n: nat): seq<(int, int)> {
    if n == 0 then [] else RowOrder(i, n - 1) + [(i, n - 1)]
  }

  /** The pairs visited by the first `rows` iterations of the outer loop of the
      uncoalesced nest; NestedOrder(NUM_ROWS) is the whole nest. */
  function NestedOrder(rows: nat): seq<(int, int)> {
    if rows == 0 then [] else NestedOrder(rows - 1) + RowOrder(rows - 1, NUM_COLS)
  }

  /** The pairs visited by the coalesced loop `for c < NUM_ELEMENTS { i, j := c / NUM_COLS,
      c % NUM_COLS; .. }`. */
  function CoalescedOrder(): (order: seq<(int, int)>)
    ensures |order| == NUM_ELEMENTS
  {
    seq(NUM_ELEMENTS, Delinearize)
  }

  /** The inner loop visits (i, 0), .., (i, n-1), at steps 0, .., n-1. */
  lemma {:induction false} RowOrderIsRow(i: int, n: nat)
    ensures |RowOrder(i, n)| == n
    ensures forall j :: 0 <= j < n ==> RowOrder(i, n)[j] == (i, j)
  {
    if n > 0 {
      RowOrderIsRow(i, n - 1);
    }
  }

  /** The first `rows` rows of the nest visit exactly the first rows * NUM_COLS steps of
      the coalesced loop, in the same order. */
  lemma {:induction false} NestedOrderIsPrefix(rows: nat)
    requires rows <= NUM_ROWS
    ensures NestedOrder(rows) == CoalescedOrder()[..Linearize(rows, 0)]
  {
    if rows > 0 {
      NestedOrderIsPrefix(rows - 1);
      RowOrderIsRow(rows - 1, NUM_COLS);
      var prev, row := CoalescedOrder()[..Linearize(rows - 1, 0)], RowOrder(rows - 1, NUM_COLS);
      var whole := CoalescedOrder()[..Linearize(rows, 0)];
      forall c | 0 <= c < Linearize(rows, 0)
        ensures whole[c] == (prev + row)[c]
      {
        if c >= Linearize(rows - 1, 0) {
          var j := c - Linearize(rows - 1, 0);
          DelinearizeLinearize(rows - 1, j);
        }
      }
    }
  }

  /** The coalesced loop visits the same pairs, in the same row-major order, as the
      uncoalesced nest. */
  lemma CoalescedIsNested()
    ensures CoalescedOrder() == NestedOrder(NUM_ROWS)
  {
    NestedOrderIsPrefix(NUM_ROWS);
  }

  /** The pair the coalesced loop visits at step t has linear index t. */
  lemma CoalescedOrderSlots()
    ensures forall t :: 0 <= t < NUM_ELEMENTS ==>
      Linearize(CoalescedOrder()[t].0, CoalescedOrder()[t].1) == t
  {
    forall t | 0 <= t < NUM_ELEMENTS
      ensures Linearize(CoalescedOrder()[t].0, CoalescedOrder()[t].1) == t
    {
      LinearizeDelinearize(t);
    }
  }

  /** The coalesced loop visits every pair of the iteration space exactly once: each
      visited pair is in the space, the pair (i, j) is visited at step Linearize(i, j),
      and no pair is visited at two different steps. */
  lemma CoalescedVisitsEachPairOnce()
    ensures forall c :: 0 <= c < NUM_ELEMENTS ==>
      InSpace(CoalescedOrder()[c].0, CoalescedOrder()[c].1)
    ensures forall i, j :: InSpace(i, j) ==>
      0 <= Linearize(i, j) < NUM_ELEMENTS && CoalescedOrder()[Linearize(i, j)] == (i, j)
    ensures forall c1, c2 ::
      0 <= c1 < NUM_ELEMENTS && 0 <= c2 < NUM_ELEMENTS &&
      CoalescedOrder()[c1] == CoalescedOrder()[c2]
      ==> c1 == c2
  {
    var order := CoalescedOrder();
    forall c | 0 <= c < NUM_ELEMENTS
      ensures InSpace(order[c].0, order[c].1)
      ensures Linearize(order[c].0, order[c].1) == c
    {
      LinearizeDelinearize(c);
    }
    forall i, j | InSpace(i, j)
      ensures 0 <= Linearize(i, j) < NUM_ELEMENTS && order[Linearize(i, j)] == (i, j)
    {
      DelinearizeLinearize(i, j);
    }
  }
}
