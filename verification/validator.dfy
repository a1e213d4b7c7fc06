/** The input checks of `tadbit_R_call`: every list element must be a square
    matrix, and all of them must share the first one's dimension. */
module Validator {
  import opened TadbitTypes

  /** Passes both "input must be square matrix" checks: R sees a matrix, and
      its two extents agree. */
  predicate IsSquareMatrix(e: Element)
  {
    e.isMatrix && e.rows == e.cols
  }

  /** The error element `k` raises, once every element before it has passed
      (so that the running `n` holds element 0's row count). The squareness
      checks come first; the dimension check only applies after element 0. */
  function ElementError(list: seq<Element>, k: nat): Option<ValidationError>
    requires k < |list|
  {
    if !IsSquareMatrix(list[k]) then Some(NotSquareMatrix)
    else if 0 < k && list[k].rows != list[0].rows then Some(DimensionMismatch)
    else None
  }

  /** The outcome of the checking loop from element `k` on. */
  function Scan(list: seq<Element>, k: nat): Validation
    requires k <= |list|
    decreases |list| - k
  {
    if k == |list| then
      if |list| == 0 then Unassigned else Validated(list[0].rows)
    else
      match ElementError(list, k)
      case Some(e) => Rejected(e, k)
      case None => Scan(list, k + 1)
  }

  /** The outcome of checking the whole list. */
  function Outcome(list: seq<Element>): Validation
  {
    Scan(list, 0)
  }

  /** What a successful check guarantees: square matrices of one dimension. */
  ghost predicate Conforming(list: seq<Element>)
  {
    forall i | 0 <= i < |list| :: IsSquareMatrix(list[i]) && list[i].rows == list[0].rows
  }

  /** Element `k` is the first to fail, and it fails with `e`. */
  ghost predicate FirstFailure(list: seq<Element>, k: nat, e: ValidationError)
  {
    k < |list| && ElementError(list, k) == Some(e) &&
    forall j | 0 <= j < k :: ElementError(list, j) == None
  }

  lemma {:induction false} ScanCharacterized(list: seq<Element>, k: nat)
    requires k <= |list|
    requires forall j | 0 <= j < k :: ElementError(list, j) == None
    ensures Scan(list, k).Unassigned? <==> |list| == 0
    ensures Scan(list, k).Validated? <==> |list| != 0 && Conforming(list)
    ensures Scan(list, k).Validated? ==> Scan(list, k).n == list[0].rows
    ensures Scan(list, k).Rejected? ==> FirstFailure(list, Scan(list, k).at, Scan(list, k).error)
    decreases |list| - k
  {
    if k == |list| {
      forall i | 0 <= i < |list|
        ensures IsSquareMatrix(list[i]) && list[i].rows == list[0].rows
      {
        assert ElementError(list, i) == None;
      }
    } else if ElementError(list, k).None? {
      ScanCharacterized(list, k + 1);
    } else {
      assert !IsSquareMatrix(list[k]) || list[k].rows != list[0].rows;
    }
  }

  /** Checking succeeds exactly on a non-empty list of square matrices of one
      dimension, and then yields element 0's row count; it fails exactly at
      the first element that breaks a check, with that element's error. */
  lemma OutcomeCharacterized(list: seq<Element>)
    ensures Outcome(list).Unassigned? <==> |list| == 0
    ensures Outcome(list).Validated? <==> |list| != 0 && Conforming(list)
    ensures Outcome(list).Validated? ==> Outcome(list).n == list[0].rows
    ensures Outcome(list).Rejected? ==> FirstFailure(list, Outcome(list).at, Outcome(list).error)
  {
    ScanCharacterized(list, 0);
  }

  /** Elements are checked in list order: whichever element fails first
      decides the error reported, whatever the elements after it hold. */
  lemma FirstFailureDecides(list: seq<Element>, k: nat, e: ValidationError)
    requires FirstFailure(list, k, e)
    ensures Outcome(list) == Rejected(e, k)
  {
    OutcomeCharacterized(list);
  }

  /** Within one element the squareness checks run before the dimension
      check: a later element that is both non-square and of another
      dimension is reported as not square. */
  lemma SquareCheckPrecedesDimensionCheck(list: seq<Element>, k: nat)
    requires 0 < k < |list|
    requires forall j | 0 <= j < k :: ElementError(list, j) == None
    requires !IsSquareMatrix(list[k]) && list[k].rows != list[0].rows
    ensures Outcome(list) == Rejected(NotSquareMatrix, k)
  {
    FirstFailureDecides(list, k, NotSquareMatrix);
  }

  /** The flat buffers of the list's elements, in order: the pointer table
      handed to the kernel, entry `i` standing for element `i`'s storage. */
  function Buffers(list: seq<Element>): (obs: seq<seq<real>>)
    ensures |obs| == |list|
  {
    seq(|list|, i requires 0 <= i < |list| => list[i].values)
  }

  /** The checking loop of `tadbit_R_call`. Each element's buffer is taken
      into the pointer table before the element is checked, so a rejected
      element's buffer is in the table too. */
  method Validate(list: seq<Element>) returns (v: Validation, obs: seq<seq<real>>)
    ensures v == Outcome(list)
    ensures |obs| == (if v.Rejected? then v.at + 1 else |list|) <= |list|
    ensures obs == Buffers(list)[..|obs|]
  {
    var first := true;
    var n: nat := 0;  // unassigned in the source until the first element passes
    obs := [];
    for i := 0 to |list|
      invariant first <==> i == 0
      invariant !first ==> n == list[0].rows
      invariant obs == Buffers(list)[..i]
      invariant Scan(list, i) == Outcome(list)
    {
      obs := obs + [list[i].values];
      if !list[i].isMatrix {
        v := Rejected(NotSquareMatrix, i);
        return;
      }
      if list[i].rows != list[i].cols {
        v := Rejected(NotSquareMatrix, i);
        return;
      }
      if first {
        n := list[i].rows;
        first := false;
      } else if n != list[i].rows {
        v := Rejected(DimensionMismatch, i);
        return;
      }
    }
    v := if first then Unassigned else Validated(n);
  }
}
