/** The body of the `MatrixMultiply<coalesce_factor>` kernel: three loop nests that load
    the two input buffers into 4 x 4 working arrays, multiply them, and store the product
    into the output buffer. With factor 1 every nest runs as written; with factor 2 the
    `i` and `j` levels of each nest are merged into one counter over [0, 16), while the
    `k` reduction loop of the multiply nest stays an ordinary inner loop. Each nest
    returns, as the ghost `visited`, the (i, j) pairs it handled in the order it handled
    them. */
module Kernel {
  import opened Coalescing
  import opened Matrices

  /** A NUM_ROWS x NUM_COLS working array (`float a[kNumRows][kNumCols]`). */
  predicate IsWorkingArray(m: array2<int>) {
    m.Length0 == NUM_ROWS && m.Length1 == NUM_COLS
  }

  /** The working array `m` agrees with the row-major matrix `s` at every position whose
      linear index is below `n`. */
  ghost predicate HoldsBelow(m: array2<int>, s: seq<int>, n: int)
    requires IsWorkingArray(m) && |s| == NUM_ELEMENTS
    reads m
  {
    forall i, j :: InSpace(i, j) && Linearize(i, j) < n ==> m[i, j] == At(s, i, j)
  }

  /** The working array `m` holds the row-major matrix `s`. */
  ghost predicate Holds(m: array2<int>, s: seq<int>)
    requires IsWorkingArray(m) && |s| == NUM_ELEMENTS
    reads m
  {
    forall i, j :: InSpace(i, j) ==> m[i, j] == At(s, i, j)
  }

  /** The working array `m` holds entry (i, j) of A x B at every position whose linear
      index is below `n`. */
  ghost predicate ProductBelow(m: array2<int>, A: seq<int>, B: seq<int>, n: int)
    requires IsWorkingArray(m) && |A| == NUM_ELEMENTS && |B| == NUM_ELEMENTS
    reads m
  {
    forall i, j :: InSpace(i, j) && Linearize(i, j) < n ==> m[i, j] == Dot(A, B, i, j, NUM_COLS)
  }

  /** A nest that has handled every linear index has handled every position. */
  lemma HoldsBelowAll(m: array2<int>, s: seq<int>)
    requires IsWorkingArray(m) && |s| == NUM_ELEMENTS
    requires HoldsBelow(m, s, NUM_ELEMENTS)
    ensures Holds(m, s)
  {
    forall i, j | InSpace(i, j)
      ensures m[i, j] == At(s, i, j)
    {
      DelinearizeLinearize(i, j);
    }
  }

  /** A multiply nest that has handled every linear index leaves A x B. */
  lemma ProductBelowAll(m: array2<int>, A: seq<int>, B: seq<int>)
    requires IsWorkingArray(m) && |A| == NUM_ELEMENTS && |B| == NUM_ELEMENTS
    requires ProductBelow(m, A, B, NUM_ELEMENTS)
    ensures Holds(m, Product(A, B))
  {
    forall i, j | InSpace(i, j)
      ensures m[i, j] == At(Product(A, B), i, j)
    {
      DelinearizeLinearize(i, j);
    }
  }

  /** The `k` reduction loop, which neither factor coalesces: the sum over k of
      a[i][k] * b[k][j], where `a` holds A and `b` holds B. */
  method RowTimesColumn(a: array2<int>, b: array2<int>, i: int, j: int,
                        ghost A: seq<int>, ghost B: seq<int>) returns (sum: int)
    requires IsWorkingArray(a) && IsWorkingArray(b)
    requires |A| == NUM_ELEMENTS && |B| == NUM_ELEMENTS && Holds(a, A) && Holds(b, B)
    requires 0 <= i < NUM_ROWS && 0 <= j < NUM_COLS
    ensures sum == Dot(A, B, i, j, NUM_COLS)
  {
    sum := 0;
    for k := 0 to NUM_COLS
      invariant sum == Dot(A, B, i, j, k)
    {
      sum := sum + a[i, k] * b[k, j];
    }
  }

  /** Load nest, factor 1: `i` outer, `j` inner, one running `idx` shared by both copies. */
  method LoadNested(matrixA: array<int>, matrixB: array<int>,
                    a: array2<int>, b: array2<int>, tmp: array2<int>)
    returns (ghost visited: seq<(int, int)>, ghost slots: seq<int>)
    requires matrixA.Length == NUM_ELEMENTS && matrixB.Length == NUM_ELEMENTS
    requires IsWorkingArray(a) && IsWorkingArray(b) && IsWorkingArray(tmp)
    requires a != b && a != tmp && b != tmp
    modifies a, b, tmp
    ensures Holds(a, matrixA[..]) && Holds(b, matrixB[..]) && Holds(tmp, ZeroMatrix())
    ensures visited == NestedOrder(NUM_ROWS)
    ensures |slots| == NUM_ELEMENTS && forall t :: 0 <= t < NUM_ELEMENTS ==> slots[t] == t
    ensures forall t :: 0 <= t < NUM_ELEMENTS ==> slots[t] == Linearize(visited[t].0, visited[t].1)
  {
    visited, slots := [], [];
    ghost var A, B := matrixA[..], matrixB[..];
    var idx := 0;
    for i := 0 to NUM_ROWS
      invariant idx == Linearize(i, 0)
      invariant visited == CoalescedOrder()[..idx]
      invariant |slots| == idx && forall t :: 0 <= t < idx ==> slots[t] == t
      invariant HoldsBelow(a, A, idx) && HoldsBelow(b, B, idx)
      invariant HoldsBelow(tmp, ZeroMatrix(), idx)
    {
      for j := 0 to NUM_COLS
        invariant idx == Linearize(i, j)
        invariant visited == CoalescedOrder()[..idx]
        invariant |slots| == idx && forall t :: 0 <= t < idx ==> slots[t] == t
        invariant HoldsBelow(a, A, idx) && HoldsBelow(b, B, idx)
        invariant HoldsBelow(tmp, ZeroMatrix(), idx)
      {
        DelinearizeLinearize(i, j);
        assert CoalescedOrder()[..idx + 1] == visited + [(i, j)];
        visited := visited + [(i, j)];
        slots := slots + [idx];
        label before:
        a[i, j] := matrixA[idx];
        b[i, j] := matrixB[idx];
        tmp[i, j] := 0;
        assert HoldsBelow(a, A, idx + 1) && HoldsBelow(b, B, idx + 1)
            && HoldsBelow(tmp, ZeroMatrix(), idx + 1) by {
          forall i', j' | InSpace(i', j') && Linearize(i', j') <= idx
            ensures a[i', j'] == At(A, i', j')
            ensures b[i', j'] == At(B, i', j')
            ensures tmp[i', j'] == At(ZeroMatrix(), i', j')
          {
            if Linearize(i', j') == idx {
              LinearizeInjective(i, j, i', j');
            } else {
              assert a[i', j'] == old@before(a[i', j']);
              assert b[i', j'] == old@before(b[i', j']);
              assert tmp[i', j'] == old@before(tmp[i', j']);
            }
          }
        }
        idx := idx + 1;
      }
    }
    assert idx == NUM_ELEMENTS;
    CoalescedOrderSlots();
    CoalescedIsNested();
    HoldsBelowAll(a, A);
    HoldsBelowAll(b, B);
    HoldsBelowAll(tmp, ZeroMatrix());
  }

  /** Load nest, factor 2: one counter `c`, with `i = c / 4` and `j = c % 4`. */
  method LoadCoalesced(matrixA: array<int>, matrixB: array<int>,
                       a: array2<int>, b: array2<int>, tmp: array2<int>)
    returns (ghost visited: seq<(int, int)>, ghost slots: seq<int>)
    requires matrixA.Length == NUM_ELEMENTS && matrixB.Length == NUM_ELEMENTS
    requires IsWorkingArray(a) && IsWorkingArray(b) && IsWorkingArray(tmp)
    requires a != b && a != tmp && b != tmp
    modifies a, b, tmp
    ensures Holds(a, matrixA[..]) && Holds(b, matrixB[..]) && Holds(tmp, ZeroMatrix())
    ensures visited == CoalescedOrder()
    ensures |slots| == NUM_ELEMENTS && forall t :: 0 <= t < NUM_ELEMENTS ==> slots[t] == t
    ensures forall t :: 0 <= t < NUM_ELEMENTS ==> slots[t] == Linearize(visited[t].0, visited[t].1)
  {
    visited, slots := [], [];
    ghost var A, B := matrixA[..], matrixB[..];
    var idx := 0;
    for c := 0 to NUM_ELEMENTS
      invariant idx == c
      invariant visited == CoalescedOrder()[..c]
      invariant |slots| == idx && forall t :: 0 <= t < idx ==> slots[t] == t
      invariant HoldsBelow(a, A, idx) && HoldsBelow(b, B, idx)
      invariant HoldsBelow(tmp, ZeroMatrix(), idx)
    {
      var (i, j) := Delinearize(c);
      LinearizeDelinearize(c);
      visited := visited + [(i, j)];
      slots := slots + [idx];
      label before:
      a[i, j] := matrixA[idx];
      b[i, j] := matrixB[idx];
      tmp[i, j] := 0;
      assert HoldsBelow(a, A, idx + 1) && HoldsBelow(b, B, idx + 1)
          && HoldsBelow(tmp, ZeroMatrix(), idx + 1) by {
        forall i', j' | InSpace(i', j') && Linearize(i', j') <= idx
          ensures a[i', j'] == At(A, i', j')
          ensures b[i', j'] == At(B, i', j')
          ensures tmp[i', j'] == At(ZeroMatrix(), i', j')
        {
          if Linearize(i', j') == idx {
            LinearizeInjective(i, j, i', j');
          } else {
            assert a[i', j'] == old@before(a[i', j']);
            assert b[i', j'] == old@before(b[i', j']);
            assert tmp[i', j'] == old@before(tmp[i', j']);
          }
        }
      }
      idx := idx + 1;
    }
    assert idx == NUM_ELEMENTS;
    CoalescedOrderSlots();
    HoldsBelowAll(a, A);
    HoldsBelowAll(b, B);
    HoldsBelowAll(tmp, ZeroMatrix());
  }

  /** Multiply nest, factor 1: `i` outer, `j` inner, the reduction loop innermost. `a` and
      `b` hold A and B, and the nest leaves A x B in `tmp`. */
  method MultiplyNested(a: array2<int>, b: array2<int>, tmp: array2<int>,
                       ghost A: seq<int>, ghost B: seq<int>)
    returns (ghost visited: seq<(int, int)>)
    requires IsWorkingArray(a) && IsWorkingArray(b) && IsWorkingArray(tmp)
    requires tmp != a && tmp != b
    requires |A| == NUM_ELEMENTS && |B| == NUM_ELEMENTS && Holds(a, A) && Holds(b, B)
    modifies tmp
    ensures ProductBelow(tmp, A, B, NUM_ELEMENTS)
    ensures visited == NestedOrder(NUM_ROWS)
  {
    visited := [];
    ghost var n := 0;
    for i := 0 to NUM_ROWS
      invariant n == Linearize(i, 0)
      invariant visited == CoalescedOrder()[..n]
      invariant ProductBelow(tmp, A, B, n)
    {
      for j := 0 to NUM_COLS
        invariant n == Linearize(i, j)
        invariant visited == CoalescedOrder()[..n]
        invariant ProductBelow(tmp, A, B, n)
      {
        DelinearizeLinearize(i, j);
        assert CoalescedOrder()[..n + 1] == visited + [(i, j)];
        visited := visited + [(i, j)];
        var sum := RowTimesColumn(a, b, i, j, A, B);
        label before:
        tmp[i, j] := sum;
        assert ProductBelow(tmp, A, B, n + 1) by {
          forall i', j' | InSpace(i', j') && Linearize(i', j') <= n
            ensures tmp[i', j'] == Dot(A, B, i', j', NUM_COLS)
          {
            if Linearize(i', j') == n {
              LinearizeInjective(i, j, i', j');
            } else {
              assert tmp[i', j'] == old@before(tmp[i', j']);
            }
          }
        }
        n := n + 1;
      }
    }
    CoalescedIsNested();
  }

  /** Multiply nest, factor 2: the `i` and `j` levels merged into one counter `c`; the
      reduction loop stays inside it. */
  method MultiplyCoalesced(a: array2<int>, b: array2<int>, tmp: array2<int>,
                           ghost A: seq<int>, ghost B: seq<int>)
    returns (ghost visited: seq<(int, int)>)
    requires IsWorkingArray(a) && IsWorkingArray(b) && IsWorkingArray(tmp)
    requires tmp != a && tmp != b
    requires |A| == NUM_ELEMENTS && |B| == NUM_ELEMENTS && Holds(a, A) && Holds(b, B)
    modifies tmp
    ensures ProductBelow(tmp, A, B, NUM_ELEMENTS)
    ensures visited == CoalescedOrder()
  {
    visited := [];
    for c := 0 to NUM_ELEMENTS
      invariant visited == CoalescedOrder()[..c]
      invariant ProductBelow(tmp, A, B, c)
    {
      var (i, j) := Delinearize(c);
      LinearizeDelinearize(c);
      visited := visited + [(i, j)];
      var sum := RowTimesColumn(a, b, i, j, A, B);
      label before:
      tmp[i, j] := sum;
      assert ProductBelow(tmp, A, B, c + 1) by {
        forall i', j' | InSpace(i', j') && Linearize(i', j') <= c
          ensures tmp[i', j'] == Dot(A, B, i', j', NUM_COLS)
        {
          if Linearize(i', j') == c {
            LinearizeInjective(i, j, i', j');
          } else {
            assert tmp[i', j'] == old@before(tmp[i', j']);
          }
        }
      }
    }
  }

  /** Store nest, factor 1: `idx` restarts at 0 and runs through the output in row-major
      order, so `res` receives the matrix P that `tmp` holds, whatever it held before. */
  method StoreNested(tmp: array2<int>, res: array<int>, ghost P: seq<int>)
    returns (ghost visited: seq<(int, int)>, ghost slots: seq<int>)
    requires IsWorkingArray(tmp) && res.Length == NUM_ELEMENTS
    requires |P| == NUM_ELEMENTS && Holds(tmp, P)
    modifies res
    ensures res[..] == P
    ensures visited == NestedOrder(NUM_ROWS)
    ensures |slots| == NUM_ELEMENTS && forall t :: 0 <= t < NUM_ELEMENTS ==> slots[t] == t
    ensures forall t :: 0 <= t < NUM_ELEMENTS ==> slots[t] == Linearize(visited[t].0, visited[t].1)
  {
    visited, slots := [], [];
    var idx := 0;
    for i := 0 to NUM_ROWS
      invariant idx == Linearize(i, 0)
      invariant visited == CoalescedOrder()[..idx]
      invariant |slots| == idx && forall t :: 0 <= t < idx ==> slots[t] == t
      invariant res[..idx] == P[..idx]
    {
      for j := 0 to NUM_COLS
        invariant idx == Linearize(i, j)
        invariant visited == CoalescedOrder()[..idx]
        invariant |slots| == idx && forall t :: 0 <= t < idx ==> slots[t] == t
        invariant res[..idx] == P[..idx]
      {
        DelinearizeLinearize(i, j);
        assert CoalescedOrder()[..idx + 1] == visited + [(i, j)];
        visited := visited + [(i, j)];
        slots := slots + [idx];
        res[idx] := tmp[i, j];
        idx := idx + 1;
      }
    }
    assert idx == NUM_ELEMENTS;
    CoalescedOrderSlots();
    CoalescedIsNested();
    assert res[..] == res[..idx];
  }

  /** Store nest, factor 2: one counter `c`, with `i = c / 4` and `j = c % 4`. */
  method StoreCoalesced(tmp: array2<int>, res: array<int>, ghost P: seq<int>)
    returns (ghost visited: seq<(int, int)>, ghost slots: seq<int>)
    requires IsWorkingArray(tmp) && res.Length == NUM_ELEMENTS
    requires |P| == NUM_ELEMENTS && Holds(tmp, P)
    modifies res
    ensures res[..] == P
    ensures visited == CoalescedOrder()
    ensures |slots| == NUM_ELEMENTS && forall t :: 0 <= t < NUM_ELEMENTS ==> slots[t] == t
    ensures forall t :: 0 <= t < NUM_ELEMENTS ==> slots[t] == Linearize(visited[t].0, visited[t].1)
  {
    visited, slots := [], [];
    var idx := 0;
    for c := 0 to NUM_ELEMENTS
      invariant idx == c
      invariant visited == CoalescedOrder()[..c]
      invariant |slots| == idx && forall t :: 0 <= t < idx ==> slots[t] == t
      invariant res[..idx] == P[..idx]
    {
      var (i, j) := Delinearize(c);
      LinearizeDelinearize(c);
      visited := visited + [(i, j)];
      slots := slots + [idx];
      res[idx] := tmp[i, j];
      idx := idx + 1;
    }
    assert idx == NUM_ELEMENTS;
    CoalescedOrderSlots();
    assert res[..] == res[..idx];
  }

  /** `MatrixMultiply<1>`: the kernel with every loop nest left as written. The inputs are
      only read, and the output does not depend on what `res` held before. */
  method KernelNested(matrixA: array<int>, matrixB: array<int>, res: array<int>)
    returns (ghost loadOrder: seq<(int, int)>, ghost multiplyOrder: seq<(int, int)>,
             ghost storeOrder: seq<(int, int)>)
    requires matrixA.Length == NUM_ELEMENTS && matrixB.Length == NUM_ELEMENTS
    requires res.Length == NUM_ELEMENTS
    requires res != matrixA && res != matrixB
    modifies res
    ensures res[..] == Product(matrixA[..], matrixB[..])
    ensures matrixA[..] == old(matrixA[..]) && matrixB[..] == old(matrixB[..])
    ensures loadOrder == multiplyOrder == storeOrder == NestedOrder(NUM_ROWS)
  {
    var a := new int[NUM_ROWS, NUM_COLS];
    var b := new int[NUM_ROWS, NUM_COLS];
    var tmp := new int[NUM_ROWS, NUM_COLS];
    ghost var A, B := matrixA[..], matrixB[..];
    ghost var slots;
    loadOrder, slots := LoadNested(matrixA, matrixB, a, b, tmp);
    multiplyOrder := MultiplyNested(a, b, tmp, A, B);
    ProductBelowAll(tmp, A, B);
    storeOrder, slots := StoreNested(tmp, res, Product(A, B));
  }

  /** `MatrixMultiply<2>`: the kernel with the `i` and `j` levels of every nest coalesced.
      Its output is the same product as that of KernelNested. */
  method KernelCoalesced(matrixA: array<int>, matrixB: array<int>, res: array<int>)
    returns (ghost loadOrder: seq<(int, int)>, ghost multiplyOrder: seq<(int, int)>,
             ghost storeOrder: seq<(int, int)>)
    requires matrixA.Length == NUM_ELEMENTS && matrixB.Length == NUM_ELEMENTS
    requires res.Length == NUM_ELEMENTS
    requires res != matrixA && res != matrixB
    modifies res
    ensures res[..] == Product(matrixA[..], matrixB[..])
    ensures matrixA[..] == old(matrixA[..]) && matrixB[..] == old(matrixB[..])
    ensures loadOrder == multiplyOrder == storeOrder == NestedOrder(NUM_ROWS)
  {
    var a := new int[NUM_ROWS, NUM_COLS];
    var b := new int[NUM_ROWS, NUM_COLS];
    var tmp := new int[NUM_ROWS, NUM_COLS];
    ghost var A, B := matrixA[..], matrixB[..];
    ghost var slots;
    loadOrder, slots := LoadCoalesced(matrixA, matrixB, a, b, tmp);
    multiplyOrder := MultiplyCoalesced(a, b, tmp, A, B);
    ProductBelowAll(tmp, A, B);
    storeOrder, slots := StoreCoalesced(tmp, res, Product(A, B));
    CoalescedIsNested();
  }

  /** `MatrixMultiply<coalesce_factor>` for the two factors the program instantiates. */
  method MatrixMultiply(coalesceFactor: int, matrixA: array<int>, matrixB: array<int>,
                        res: array<int>)
    returns (ghost loadOrder: seq<(int, int)>, ghost multiplyOrder: seq<(int, int)>,
             ghost storeOrder: seq<(int, int)>)
    requires coalesceFactor == 1 || coalesceFactor == 2
    requires matrixA.Length == NUM_ELEMENTS && matrixB.Length == NUM_ELEMENTS
    requires res.Length == NUM_ELEMENTS
    requires res != matrixA && res != matrixB
    modifies res
    ensures res[..] == Product(matrixA[..], matrixB[..])
    ensures matrixA[..] == old(matrixA[..]) && matrixB[..] == old(matrixB[..])
    ensures loadOrder == multiplyOrder == storeOrder == NestedOrder(NUM_ROWS)
  {
    if coalesceFactor == 1 {
      loadOrder, multiplyOrder, storeOrder := KernelNested(matrixA, matrixB, res);
    } else {
      loadOrder, multiplyOrder, storeOrder := KernelCoalesced(matrixA, matrixB, res);
    }
  }
}
