/** Fixed-size 4 x 4 matrices held row-major in linear buffers, and the matrix product
    that the kernel computes. Element values are integers: the floats of the kernel only
    ever hold small integers, which they represent exactly. */
module Matrices {
  import opened Coalescing

  /** Entry (i, j) of a row-major matrix buffer. */
  function At(m: seq<int>, i: int, j: int): int
    requires |m| == NUM_ELEMENTS && 0 <= i < NUM_ROWS && 0 <= j < NUM_COLS
  {
    m[Linearize(i, j)]
  }

  /** The partial sum over k in [0, n) of A[i][k] * B[k][j]. */
  function Dot(A: seq<int>, B: seq<int>, i: int, j: int, n: nat): int
    requires |A| == NUM_ELEMENTS && |B| == NUM_ELEMENTS
    requires 0 <= i < NUM_ROWS && 0 <= j < NUM_COLS && n <= NUM_COLS
  {
    if n == 0 then 0 else Dot(A, B, i, j, n - 1) + At(A, i, n - 1) * At(B, n - 1, j)
  }

  /** The product A x B: entry (i, j) is row i of A times column j of B. */
  function Product(A: seq<int>, B: seq<int>): (r: seq<int>)
    requires |A| == NUM_ELEMENTS && |B| == NUM_ELEMENTS
    ensures |r| == NUM_ELEMENTS
    ensures forall i, j :: 0 <= i < NUM_ROWS && 0 <= j < NUM_COLS ==>
      At(r, i, j) == Dot(A, B, i, j, NUM_COLS)
  {
    seq(NUM_ELEMENTS, p requires 0 <= p < NUM_ELEMENTS =>
      Dot(A, B, p / NUM_COLS, p % NUM_COLS, NUM_COLS))
  }

  /** The zero matrix. */
  function ZeroMatrix(): (r: seq<int>)
    ensures |r| == NUM_ELEMENTS
  {
    seq(NUM_ELEMENTS, _ => 0)
  }

  /** The identity matrix: ones on the diagonal, zeros elsewhere. */
  function IdentityMatrix(): (r: seq<int>)
    ensures |r| == NUM_ELEMENTS
  {
    seq(NUM_ELEMENTS, p => if p / NUM_COLS == p % NUM_COLS then 1 else 0)
  }

  /** Multiplying by the identity only picks out row i of B: the partial sum over [0, n)
      is B[i][j] once k = i has been added, and 0 before. */
  lemma {:induction false} DotIdentity(B: seq<int>, i: int, j: int, n: nat)
    requires |B| == NUM_ELEMENTS && 0 <= i < NUM_ROWS && 0 <= j < NUM_COLS && n <= NUM_COLS
    ensures Dot(IdentityMatrix(), B, i, j, n) == if i < n then At(B, i, j) else 0
  {
    if n > 0 {
      DotIdentity(B, i, j, n - 1);
      DelinearizeLinearize(i, n - 1);
    }
  }

  /** The identity is a left unit of the product: I x B == B. */
  lemma IdentityLeftUnit(B: seq<int>)
    requires |B| == NUM_ELEMENTS
    ensures Product(IdentityMatrix(), B) == B
  {
    var r := Product(IdentityMatrix(), B);
    forall p | 0 <= p < NUM_ELEMENTS
      ensures r[p] == B[p]
    {
      var i, j := p / NUM_COLS, p % NUM_COLS;
      LinearizeDelinearize(p);
      DotIdentity(B, i, j, NUM_COLS);
    }
  }
}
