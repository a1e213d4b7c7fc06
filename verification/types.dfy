/** Values exchanged between R, the adapter `tadbit_R_call` and the `tadbit` kernel. */
module TadbitTypes {

  datatype Option<T> = None | Some(value: T)

  /** One element of the R list handed to the adapter, as its checks see it:
      whether R calls it a matrix, its `dim` attribute, and the flat
      column-major buffer R coerces it to. */
  datatype Element = Element(isMatrix: bool, rows: nat, cols: nat, values: seq<real>)

  /** The two fatal errors the adapter raises while checking its input. */
  datatype ValidationError = NotSquareMatrix | DimensionMismatch

  /** The fixed message R's `error` reports for each kind. */
  function Message(e: ValidationError): string
  {
    match e
    case NotSquareMatrix => "input must be square matrix"
    case DimensionMismatch => "all matrices must have same dimensions"
  }

  /** What the checking loop leaves behind: the common dimension `n`, the
      first error and the index of the element that raised it, or, for an
      empty list, nothing at all (`n` is only ever assigned inside the loop). */
  datatype Validation = Unassigned | Validated(n: nat) | Rejected(error: ValidationError, at: nat)

  /** The `tadbit_output` record the kernel fills in. */
  datatype KernelOutput = KernelOutput(
    nbreaksOpt: int,
    llikmat: array<real>,
    mllik: array<real>,
    bkpts: array<int>)

  /** An R `dim` attribute, or its absence. */
  datatype Dims = NoDim | Dim(nrow: int, ncol: int)

  /** An R atomic vector (INTSXP or REALSXP) with its optional `dim` attribute. */
  datatype RVector = IntVector(ints: array<int>, dim: Dims) | RealVector(reals: array<real>, dim: Dims)

  /** The storage behind an R vector. */
  function Storage(v: RVector): object
  {
    match v
    case IntVector(a, _) => a
    case RealVector(a, _) => a
  }
}
