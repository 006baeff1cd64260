/** The program's `main`: build the inputs (A the identity, B[i][j] = i*j + 1), run the
    kernel with coalescing factor 1 and with factor 2 into separate output buffers, check
    every entry of both against i*j + 1, and return 0 on success and -1 otherwise. */
module Tutorial {
  import opened Coalescing
  import opened Matrices
  import opened Kernel

  /** The value `main` expects at entry (i, j) of both outputs. */
  function Expected(i: int, j: int): int {
    i * j + 1
  }

  /** The second input, B[i][j] = i*j + 1, in row-major order. */
  function TestMatrixB(): (r: seq<int>)
    ensures |r| == NUM_ELEMENTS
  {
    seq(NUM_ELEMENTS, p => Expected(p / NUM_COLS, p % NUM_COLS))
  }

  /** The two inputs of `main`, as freshly value-initialised (all zero) vectors that the
      initialisation loop then fills: A gets a one at A[i + i*4], B[i*4 + j] gets i*j + 1. */
  method MakeInputs() returns (matrixA: array<int>, matrixB: array<int>)
    ensures fresh(matrixA) && fresh(matrixB)
    ensures matrixA[..] == IdentityMatrix() && matrixB[..] == TestMatrixB()
  {
    matrixA := new int[NUM_ELEMENTS](_ => 0);
    matrixB := new int[NUM_ELEMENTS](_ => 0);
    for i := 0 to NUM_ROWS
      invariant forall p :: 0 <= p < NUM_ELEMENTS ==>
        matrixA[p] == if p / NUM_COLS < i && p / NUM_COLS == p % NUM_COLS then 1 else 0
      invariant forall p :: 0 <= p < Linearize(i, 0) ==>
        matrixB[p] == Expected(p / NUM_COLS, p % NUM_COLS)
    {
      var pos := i * NUM_COLS;
      matrixA[i + pos] := 1;
      for j := 0 to NUM_COLS
        invariant forall p :: 0 <= p < NUM_ELEMENTS ==>
          matrixA[p] == if p / NUM_COLS <= i && p / NUM_COLS == p % NUM_COLS then 1 else 0
        invariant forall p :: 0 <= p < pos + j ==>
          matrixB[p] == Expected(p / NUM_COLS, p % NUM_COLS)
      {
        matrixB[pos + j] := i * j + 1;
      }
    }
  }

  /** Both outputs hold the expected value at entry (i, j). */
  ghost predicate EntryCorrect(outputNoCoalesce: array<int>, output: array<int>, i: int, j: int)
    requires outputNoCoalesce.Length == NUM_ELEMENTS && output.Length == NUM_ELEMENTS
    requires 0 <= i < NUM_ROWS && 0 <= j < NUM_COLS
    reads outputNoCoalesce, output
  {
    outputNoCoalesce[Linearize(i, j)] == Expected(i, j) &&
    output[Linearize(i, j)] == Expected(i, j)
  }

  /** The correctness check of `main`: it visits all sixteen positions without stopping
      early, and reports success exactly when both outputs hold i*j + 1 everywhere. */
  method CheckResults(outputNoCoalesce: array<int>, output: array<int>) returns (passed: bool)
    requires outputNoCoalesce.Length == NUM_ELEMENTS && output.Length == NUM_ELEMENTS
    ensures passed <==> forall i, j :: 0 <= i < NUM_ROWS && 0 <= j < NUM_COLS ==>
      EntryCorrect(outputNoCoalesce, output, i, j)
  {
    passed := true;
    for i := 0 to NUM_ROWS
      invariant passed <==> forall i', j' :: 0 <= i' < i && 0 <= j' < NUM_COLS ==>
        EntryCorrect(outputNoCoalesce, output, i', j')
    {
      var pos := i * NUM_COLS;
      for j := 0 to NUM_COLS
        invariant passed <==> forall i', j' ::
          (0 <= i' < i && 0 <= j' < NUM_COLS) || (i' == i && 0 <= j' < j) ==>
          EntryCorrect(outputNoCoalesce, output, i', j')
      {
        var valNoCoalesce := outputNoCoalesce[pos + j];
        var val := output[pos + j];
        assert EntryCorrect(outputNoCoalesce, output, i, j) <==>
          valNoCoalesce == i * j + 1 && val == i * j + 1;
        if valNoCoalesce != i * j + 1 || val != i * j + 1 {
          passed := false;
        }
      }
    }
  }

  /** With A the identity, A x B is B, whose entry (i, j) is i*j + 1. */
  lemma ExpectedProduct()
    ensures Product(IdentityMatrix(), TestMatrixB()) == TestMatrixB()
    ensures forall i, j :: 0 <= i < NUM_ROWS && 0 <= j < NUM_COLS ==>
      At(TestMatrixB(), i, j) == Expected(i, j)
  {
    IdentityLeftUnit(TestMatrixB());
    forall i, j | 0 <= i < NUM_ROWS && 0 <= j < NUM_COLS
      ensures At(TestMatrixB(), i, j) == Expected(i, j)
    {
      DelinearizeLinearize(i, j);
    }
  }

  /** `main`: both kernel variants compute A x B = B, so the check passes and the exit
      code is 0. */
  method Run() returns (exitCode: int)
    ensures exitCode == 0
  {
    var matrixA, matrixB := MakeInputs();
    var outputNoCoalesce := new int[NUM_ELEMENTS](_ => 0);
    var output := new int[NUM_ELEMENTS](_ => 0);

    ghost var loadOrder, multiplyOrder, storeOrder :=
      MatrixMultiply(1, matrixA, matrixB, outputNoCoalesce);
    loadOrder, multiplyOrder, storeOrder := MatrixMultiply(2, matrixA, matrixB, output);

    ExpectedProduct();
    assert outputNoCoalesce[..] == TestMatrixB() && output[..] == TestMatrixB();
    forall i, j | 0 <= i < NUM_ROWS && 0 <= j < NUM_COLS
      ensures EntryCorrect(outputNoCoalesce, output, i, j)
    {
      assert At(TestMatrixB(), i, j) == Expected(i, j);
    }
    var passed := CheckResults(outputNoCoalesce, output);
    if passed {
      exitCode := 0;
    } else {
      exitCode := -1;
    }
  }
}
