# TADbit's R entry point, `tadbit_R_call`, in Dafny

TADbit detects the boundaries of topologically associating domains in Hi-C
contact matrices. Its R package reaches the C kernel `tadbit` through one
adapter, `tadbit_R_call` (src/tadbit_R.c). This project models that adapter
and proves properties of the model:

- **Validator** (`validator.dfy`). This is the loop over the R list. Each
  element's coerced buffer goes into the pointer table `obs`. The element is
  then rejected with "input must be square matrix" if it is not a matrix or if
  its two extents differ. The first element fixes `n`. A later element whose
  row count differs from `n` is rejected with "all matrices must have same
  dimensions". The first violation ends the call. `Validate` is the loop with
  its `first` flag and running `n`. It is proved equal to the reference
  function `Outcome`, and lemmas characterise `Outcome` completely.
- **Transcriber** (`transcriber.dfy`). This copies the kernel's
  `tadbit_output` into fresh R vectors:
  - `nbreaks_opt` as a scalar;
  - the `n*n` entries of `llikmat`, shaped `n×n`;
  - the `n/4` entries of `mllik`, with no `dim`;
  - `bkpts` without its first `n` entries (the column for zero breakpoints),
    shaped `n×(n/4-1)`.

  The result list comes out in the order nbreaks, llikmat, mllik, bkpts.
- **Adapter** (`adapter.dfy`). This is the whole call. A failed check returns
  the error's message, makes no kernel call and allocates no output. A passed
  check records one kernel invocation with the pointer table, `n`, `m` and the
  three flags, then returns the transcribed list.
- **Types** (`types.dfy`). This holds the list element, the error kinds and
  their messages, the kernel's output record and R vectors with their `dim`
  attribute.

The kernel itself is not part of this model. Its output for the call is a
parameter of `TadbitRCall`, constrained only to have the lengths the copies
read. The values copied (doubles, breakpoint indices) are only moved, never
computed on.

## Model

| member | source | states |
|---|---|---|
| `Validator.Validate` | src/tadbit_R.c:46-76 | The checking loop returns exactly `Outcome(list)`. Its pointer table holds the buffers of elements `0..k`, where `k` is the rejected element, or of every element when the check passes. |
| `Validator.ScanCharacterized` | src/tadbit_R.c:54-76 | From any point up to which every element has passed, the rest of the loop succeeds exactly when the list is non-empty and conforming, and then yields element 0's row count. Otherwise it fails at the first failing element, with that element's error. |
| `Validator.OutcomeCharacterized` | src/tadbit_R.c:54-76 | Checking yields nothing (`n` unassigned) exactly for an empty list. It succeeds exactly when every element is a matrix with `rows == cols` equal to element 0's rows, and then yields element 0's rows. A failure names the first element that breaks a check, together with its error. |
| `Validator.FirstFailureDecides` | src/tadbit_R.c:54-76 | Elements are checked in list order. The first element to fail decides the reported error, whatever follows it. |
| `Validator.SquareCheckPrecedesDimensionCheck` | src/tadbit_R.c:58-75 | Suppose a later element is both non-square and of another dimension, and every earlier element passed. It is then reported as "input must be square matrix", not as a dimension mismatch. |
| `Validator.Buffers` | src/tadbit_R.c:53-56 | The pointer table has one entry per list element. |
| `Transcriber.DropFirstColumn` | src/tadbit_R.c:95-107 | Write index `i-n` for `i` in `[n, n*(n/4))` covers exactly `[0, n*(n/4-1))`, the length allocated for `bkpts`. |
| `Transcriber.AsWrittenAgreesWhenDivisible` | src/tadbit_R.c:107 | When `n % 4 == 0`, the loop bound `n*n/4` as written equals `n*(n/4)`. |
| `Transcriber.AsWrittenOverrunsUnlessDivisible` | src/tadbit_R.c:94-107 | For every `n >= 4` with `n % 4 != 0`, the bound `n*n/4` exceeds `n*(n/4)`. The loop as written therefore writes past the allocated `bkpts` vector and reads past the kernel's buffer. |
| `Transcriber.AsWrittenOverrunsAtSix` | src/tadbit_R.c:95-107 | For 6×6 matrices the allocated `bkpts` has length 0, yet the loop as written writes indices 0, 1 and 2. |
| `Transcriber.CopyPrefix` | src/tadbit_R.c:103-104 | The `llikmat` and `mllik` loops fill a fresh vector with the first `len` entries of the kernel's buffer, in order. |
| `Transcriber.DropZeroBreaksColumn` | src/tadbit_R.c:95-107 | The `bkpts` vector is fresh and has length `n*(n/4-1)`. Entry `j` of it is the kernel's entry `j+n`: exactly the first `n` entries are dropped and the order of the rest is kept. |
| `Transcriber.Transcribe` | src/tadbit_R.c:92-130 | The result list has four fresh vectors, in this order: `[nbreaks_opt]` with no dim; `llikmat[..n*n]` with dim `(n, n)`; `mllik[..n/4]` with no dim; `bkpts[n..n*(n/4)]` with dim `(n, n/4-1)`. The kernel's arrays are only read. |
| `Adapter.TadbitRCall` | src/tadbit_R.c:27-135 | A rejected list ends the call with the first error's message, no kernel call and no output. A valid list leads to exactly one kernel call, with the pointer table of all buffers, `n`, `m = |list|` and the three flags, and then returns the transcribed list. |

## Findings

| source | as written | input that shows it | evidently intended | confidence | as-written member | corrected member |
|---|---|---|---|---|---|---|
| src/tadbit_R.c:107 | The `bkpts` copy loop ends at `n*n/4`. The allocation at line 95 has room for `n*(n/4-1)` entries, and the kernel's buffer has `n*(n/4)`. | 6×6 matrices: the loop writes entries 0, 1 and 2 of a vector of length 0 and reads `seg->bkpts[6..8]` of a 6-entry buffer. The same overrun happens for every `n >= 4` that is not a multiple of 4. | The loop ends at `n*(n/4)`. This is the same bound when `n % 4 == 0`. | medium (not executed) | `Transcriber.AsWrittenOverrunsUnlessDivisible` | `Transcriber.DropZeroBreaksColumn` |

## Left out

- The R runtime (`SEXP` values, `PROTECT`/`UNPROTECT`, `allocVector`,
  `coerceVector`, `getAttrib`/`setAttrib`, list access). A list element is a
  record of `isMatrix`, its `dim` and its coerced buffer. An R vector is an
  array with an optional `dim`.
- R's own failure inside `coerceVector` for a non-numeric element. That error
  comes from the R runtime, not from this adapter.
- R's refusal to allocate a negative length. For `n` in 1..3, line 95 asks for
  `n*(n/4-1) < 0` entries. The model instead requires `BkptsLength(n) >= 0`,
  which means `n == 0` or `n >= 4`.
- The kernel `tadbit` and `free_tadbit_output`, whose code is not part of
  this model. The kernel's output is a parameter. Its promises, such as
  `nbreaks_opt < n/4` and determinism for identical input, are not modelled.
- The thread count, verbosity and speed flags. They are passed to the kernel
  unchanged and only recorded in `Invocation`.
- `malloc`/`free` and the pointer table that is never freed. The table is a
  sequence whose entry `i` is element `i`'s buffer, so no memory is modelled.
- Double arithmetic and NA handling. Values are only copied.
- Routine registration (`callMethods`, `R_init_tadbit`), which is one-time
  configuration.
- 32-bit `int` overflow of `n*n` for `n > 46340`. The model's integers are
  unbounded.
- `Adapter.TadbitRCall`: requires a non-empty list. With `m == 0` the source
  calls the kernel with an unassigned `n`. `Validate` still models that case,
  as the outcome `Unassigned`.
