# Loop coalescing tutorial: a verified model

This project models the loop-coalescing tutorial for FPGA SYCL compilers. The tutorial's
kernel, `MatrixMultiply<coalesce_factor>`, multiplies two 4 x 4 matrices held row-major in
flat buffers. Its body has three loop nests over `i < kNumRows`, `j < kNumCols`:

- a load nest copies the inputs into local arrays `a` and `b` and zeroes `tmp`, advancing
  one running index `idx`;
- a multiply nest puts into `tmp[i][j]` the sum over `k` of `a[i][k] * b[k][j]`;
- a store nest resets `idx` and copies `tmp` into the output buffer.

Each outer loop carries `[[intel::loop_coalesce(coalesce_factor)]]`. With factor 1 the
nests run as written. With factor 2 the `i` and `j` levels of each nest become one loop
over a counter `c < 16`, with `i = c / 4` and `j = c % 4`. The `k` loop stays inside.

`main` builds A as the identity and B with `B[i][j] = i*j + 1`. It runs the kernel once
with each factor, checks both outputs against `i*j + 1`, and returns 0 or -1.

The model has four modules:

- `Coalescing`: the iteration space, the linearisation `c = i*4 + j` and its inverse,
  and the visiting orders of the nested and the coalesced loop. The two orders are
  proved to be the same.
- `Matrices`: row-major 4 x 4 matrices, the product as a specification function, and
  the identity as a left unit.
- `Kernel`: the three nests as methods over a Dafny `array2` (the kernel's local
  arrays). Each nest has a nested version (factor 1) and a coalesced version (factor 2).
  Each returns as a ghost `visited` the (i, j) pairs in the order it handled them. The
  load and store nests also return as a ghost `slots` the value of the running index
  `idx` at each buffer access. The kernel with either factor is proved to write `A x B`
  into the output buffer, and all three of its nests visit the pairs in the same order.
- `Tutorial`: `main`, with its input set-up, its correctness check, and its exit code.

Elements are `int`. Every value in the tutorial is a small integer, which a `float`
holds exactly, so integer arithmetic gives the same results here.

## Model

| member | source | states |
|---|---|---|
| Coalescing.DelinearizeLinearize | DirectProgramming/C++SYCL_FPGA/Tutorials/Features/loop_coalesce/src/loop_coalesce.cpp:68-77 | The running index of (i, j) is i*4 + j, which lies in [0, 16); recovering i = c / 4 and j = c % 4 from it gives (i, j) back |
| Coalescing.LinearizeInjective | DirectProgramming/C++SYCL_FPGA/Tutorials/Features/loop_coalesce/src/loop_coalesce.cpp:72-77 | Two pairs of the iteration space with the same running index are the same pair, so a write at running index `idx` touches one position of the local arrays and leaves the others alone |
| Coalescing.LinearizeDelinearize | DirectProgramming/C++SYCL_FPGA/Tutorials/Features/loop_coalesce/src/loop_coalesce.cpp:68-73 | Every counter c < 16 of the coalesced loop decodes to a pair of the iteration space whose running index is c |
| Coalescing.CoalescedOrderSlots | DirectProgramming/C++SYCL_FPGA/Tutorials/Features/loop_coalesce/src/loop_coalesce.cpp:68-77 | The pair the loop visits at step t has running index t, so the running index and the step count agree throughout a nest |
| Coalescing.RowOrderIsRow | DirectProgramming/C++SYCL_FPGA/Tutorials/Features/loop_coalesce/src/loop_coalesce.cpp:73 | The inner `j` loop visits (i, 0) .. (i, n-1), with (i, j) at step j |
| Coalescing.NestedOrderIsPrefix | DirectProgramming/C++SYCL_FPGA/Tutorials/Features/loop_coalesce/src/loop_coalesce.cpp:68-79 | The first `rows` rows of the nest visit exactly the first rows*4 steps of the coalesced loop, in the same order |
| Coalescing.CoalescedIsNested | DirectProgramming/C++SYCL_FPGA/Tutorials/Features/loop_coalesce/src/loop_coalesce.cpp:68-73 | Coalescing the `i` and `j` levels does not change which pairs are visited or their order |
| Coalescing.CoalescedVisitsEachPairOnce | DirectProgramming/C++SYCL_FPGA/Tutorials/Features/loop_coalesce/src/loop_coalesce.cpp:68-73 | The coalesced loop visits only pairs of the space, it visits (i, j) at step i*4 + j, and it never visits a pair at two steps |
| Matrices.DotIdentity | DirectProgramming/C++SYCL_FPGA/Tutorials/Features/loop_coalesce/src/loop_coalesce.cpp:89-91 | With A the identity, the partial reduction over k < n is B[i][j] once k = i has been added, and 0 before |
| Matrices.IdentityLeftUnit | DirectProgramming/C++SYCL_FPGA/Tutorials/Features/loop_coalesce/src/loop_coalesce.cpp:130-131 | The identity that `main` builds as A is a left unit of the product: I x B = B |
| Kernel.HoldsBelowAll | DirectProgramming/C++SYCL_FPGA/Tutorials/Features/loop_coalesce/src/loop_coalesce.cpp:72-79 | A nest that has handled every running index below 16 has handled every position of the local array |
| Kernel.ProductBelowAll | DirectProgramming/C++SYCL_FPGA/Tutorials/Features/loop_coalesce/src/loop_coalesce.cpp:86-94 | A multiply nest that has handled every position leaves A x B in `tmp` |
| Kernel.RowTimesColumn | DirectProgramming/C++SYCL_FPGA/Tutorials/Features/loop_coalesce/src/loop_coalesce.cpp:88-91 | The `k` loop returns row i of A times column j of B, where `a` holds A and `b` holds B |
| Kernel.LoadNested | DirectProgramming/C++SYCL_FPGA/Tutorials/Features/loop_coalesce/src/loop_coalesce.cpp:63-79 | Factor 1: `a` and `b` hold the two input buffers and `tmp` is all zero. The nest visits the pairs in NestedOrder. The running index it reads the inputs at runs 0, 1, .., 15, each slot once and in order, and at step t it is the linear index of the t-th visited pair |
| Kernel.LoadCoalesced | DirectProgramming/C++SYCL_FPGA/Tutorials/Features/loop_coalesce/src/loop_coalesce.cpp:63-79 | Factor 2: the same result and the same slots 0, 1, .., 15 as LoadNested, visiting the pairs in CoalescedOrder |
| Kernel.MultiplyNested | DirectProgramming/C++SYCL_FPGA/Tutorials/Features/loop_coalesce/src/loop_coalesce.cpp:85-94 | Factor 1: every `tmp[i][j]` ends as the sum over k of A[i][k] * B[k][j], visiting the pairs in NestedOrder |
| Kernel.MultiplyCoalesced | DirectProgramming/C++SYCL_FPGA/Tutorials/Features/loop_coalesce/src/loop_coalesce.cpp:85-94 | Factor 2: the same result as MultiplyNested, with the `k` loop left uncoalesced, visiting the pairs in CoalescedOrder |
| Kernel.StoreNested | DirectProgramming/C++SYCL_FPGA/Tutorials/Features/loop_coalesce/src/loop_coalesce.cpp:96-103 | Factor 1: `idx` restarts at 0, `res[i*4 + j]` receives `tmp[i][j]`, and the whole of `res` ends as the matrix `tmp` holds, whatever it held before. The nest writes the output slots 0, 1, .., 15, each exactly once and in order, and at step t it writes the slot of the t-th visited pair |
| Kernel.StoreCoalesced | DirectProgramming/C++SYCL_FPGA/Tutorials/Features/loop_coalesce/src/loop_coalesce.cpp:96-103 | Factor 2: the same result and the same write slots as StoreNested, visiting the pairs in CoalescedOrder |
| Kernel.KernelNested | DirectProgramming/C++SYCL_FPGA/Tutorials/Features/loop_coalesce/src/loop_coalesce.cpp:27-30 | `MatrixMultiply<1>` writes A x B into `res`, leaves both inputs unchanged, and does not depend on the prior contents of `res`. Its load, multiply and store nests each visit the pairs in NestedOrder |
| Kernel.KernelCoalesced | DirectProgramming/C++SYCL_FPGA/Tutorials/Features/loop_coalesce/src/loop_coalesce.cpp:61-103 | `MatrixMultiply<2>` writes the same A x B into `res`, with the same guarantees. Its three coalesced nests also visit the pairs in NestedOrder |
| Kernel.MatrixMultiply | DirectProgramming/C++SYCL_FPGA/Tutorials/Features/loop_coalesce/src/loop_coalesce.cpp:140-141 | Both factors that `main` instantiates compute A x B, so the two outputs agree. With either factor every nest visits the pairs in the same order, NestedOrder |
| Tutorial.MakeInputs | DirectProgramming/C++SYCL_FPGA/Tutorials/Features/loop_coalesce/src/loop_coalesce.cpp:122-135 | A is the identity, with every off-diagonal entry still 0 from value-initialisation, and B[i*4 + j] = i*j + 1 |
| Tutorial.CheckResults | DirectProgramming/C++SYCL_FPGA/Tutorials/Features/loop_coalesce/src/loop_coalesce.cpp:143-155 | The check visits all 16 positions without stopping early, and `passed` holds exactly when both outputs equal i*j + 1 everywhere |
| Tutorial.ExpectedProduct | DirectProgramming/C++SYCL_FPGA/Tutorials/Features/loop_coalesce/src/loop_coalesce.cpp:127-141 | For the inputs `main` builds, A x B = B, whose entry (i, j) is i*j + 1 |
| Tutorial.Run | DirectProgramming/C++SYCL_FPGA/Tutorials/Features/loop_coalesce/src/loop_coalesce.cpp:121-164 | `main` always passes its check and returns 0 |

## Left out

- Device selection, the profiling queue and printing the device name (lines 31-48) are
  left out. They do not affect the computed values.
- The buffers, accessors, command-group submission, the event and `single_task`
  (lines 50-62, 105-106) are left out. The kernel's accessors are modelled as Dafny arrays
  passed to a method. `read_only` becomes "not in `modifies`". `write_only, no_init` becomes
  an output whose prior contents the result does not depend on.
- `[[intel::kernel_args_restrict]]` becomes the precondition that the output array is
  neither input array.
- Exception handling and `std::terminate` (lines 108-118) are left out, because they
  belong to the runtime.
- The text printed to the console (lines 151, 158 and 161) is left out.
- `float` is modelled as `int`. IEEE rounding is not modelled, because every value in the
  tutorial is a small integer that a `float` represents exactly.
- Only the coalescing factors 1 and 2 are modelled, which are the two that `main`
  instantiates. Other factors are ruled out by a precondition of `Kernel.MatrixMultiply`.
- The iteration space is fixed at 4 x 4, the tutorial's `kNumRows` and `kNumCols`. The
  linearisation lemmas are not stated for other sizes.
- What coalescing means for the hardware (one loop instead of two, a shorter pipeline
  fill and drain) is not modelled. The model states only that coalescing keeps the
  results and the visiting order unchanged.
- Tutorial.Run: the source returns 0 exactly when its check passes and -1 otherwise. The
  model proves the check always passes, so its contract states only the exit code 0.
