/** Copying the kernel's output into fresh R vectors, with their `dim`
    attributes, in the order R receives them. */
module Transcriber {
  import opened TadbitTypes

  /** Entries of the n×n log-likelihood matrix. */
  function LlikmatLength(n: nat): nat { n * n }

  /** Entries of the marginal log-likelihood vector, one per breakpoint count. */
  function MllikLength(n: nat): nat { n / 4 }

  /** Columns of the breakpoint matrix R receives: the kernel's n/4 columns
      less the one for zero breakpoints. */
  function BkptsColumns(n: nat): int { n / 4 - 1 }

  /** The length the adapter allocates for R's breakpoint matrix. It is
      negative for n in 1..3, which R refuses to allocate. */
  function BkptsLength(n: nat): int { n * BkptsColumns(n) }

  /** Entries of the kernel's breakpoint buffer: n rows by n/4 columns, and the
      end of the shifted copy loop as it is evidently meant. */
  function BkptsEnd(n: nat): nat { n * (n / 4) }

  /** The end of the shifted copy loop as the source writes it. */
  function AsWrittenBkptsEnd(n: nat): nat { n * n / 4 }

  /** The kernel's output has at least the entries the copies read. */
  predicate KernelShaped(seg: KernelOutput, n: nat)
  {
    seg.llikmat.Length >= LlikmatLength(n) &&
    seg.mllik.Length >= MllikLength(n) &&
    seg.bkpts.Length >= BkptsEnd(n)
  }

  /** Skipping the kernel's first n entries leaves exactly the entries the
      allocation has room for: write index `i - n` for `i` in `[n, BkptsEnd(n))`
      covers `[0, BkptsLength(n))`. */
  lemma DropFirstColumn(n: nat)
    ensures BkptsEnd(n) - n == BkptsLength(n)
  {
  }

  /** When n is a multiple of 4 the source's loop bound `n*n/4` is the
      intended `n*(n/4)`, so the shifted copy below is the source's loop. */
  lemma AsWrittenAgreesWhenDivisible(n: nat)
    requires n % 4 == 0
    ensures AsWrittenBkptsEnd(n) == BkptsEnd(n)
  {
    var k := n / 4;
    assert n == 4 * k;
    assert n * n == 4 * (n * k);
  }

  /** Otherwise, for every n of at least 4, the source's loop runs past the
      intended bound, so it writes past the end of the breakpoint vector it
      allocated and reads past the end of the kernel's buffer. */
  lemma AsWrittenOverrunsUnlessDivisible(n: nat)
    requires n >= 4 && n % 4 != 0
    ensures AsWrittenBkptsEnd(n) > BkptsEnd(n)
    ensures AsWrittenBkptsEnd(n) - n > BkptsLength(n)
  {
    var k, r := n / 4, n % 4;
    assert n == 4 * k + r && k >= 1 && r >= 1;
    var sq := n * n;
    assert sq == 16 * (k * k) + 8 * (k * r) + r * r;
    assert k * r >= 1;
    assert sq >= 4 * (4 * (k * k) + k * r + 1);
    assert n * (n / 4) == 4 * (k * k) + k * r;
    DropFirstColumn(n);
  }

  /** The smallest such case: 6×6 matrices make the loop write indices 0, 1
      and 2 of a breakpoint vector of length 0. */
  lemma AsWrittenOverrunsAtSix()
    ensures BkptsLength(6) == 0 && AsWrittenBkptsEnd(6) - 6 == 3
  {
  }

  /** The kernel's output, as transcribed into the four R vectors of the
      result list, in the order nbreaks, llikmat, mllik, bkpts. */
  ghost predicate Transcribed(seg: KernelOutput, n: nat, out: seq<RVector>)
    requires BkptsLength(n) >= 0
    reads seg.llikmat, seg.mllik, seg.bkpts, set i | 0 <= i < |out| :: Storage(out[i])
  {
    |out| == 4 &&
    // nbreaks: a bare integer scalar
    out[0].IntVector? && out[0].dim == NoDim &&
    out[0].ints[..] == [seg.nbreaksOpt] &&
    // llikmat: all n*n entries, verbatim, shaped n×n
    out[1].RealVector? && out[1].dim == Dim(n, n) &&
    seg.llikmat.Length >= LlikmatLength(n) &&
    out[1].reals[..] == seg.llikmat[..LlikmatLength(n)] &&
    // mllik: the n/4 entries, verbatim, without a dim attribute
    out[2].RealVector? && out[2].dim == NoDim &&
    seg.mllik.Length >= MllikLength(n) &&
    out[2].reals[..] == seg.mllik[..MllikLength(n)] &&
    // bkpts: all but the first n entries, in order, shaped n×(n/4-1)
    out[3].IntVector? && out[3].dim == Dim(n, BkptsColumns(n)) &&
    out[3].ints.Length == BkptsLength(n) &&
    seg.bkpts.Length >= BkptsEnd(n) &&
    out[3].ints[..] == seg.bkpts[n..BkptsEnd(n)]
  }

  /** The verbatim copy loops for `llikmat` and `mllik`: a fresh buffer of
      `len` entries holding the first `len` entries of `src`. */
  method CopyPrefix<T(0)>(src: array<T>, len: nat) returns (dst: array<T>)
    requires len <= src.Length
    ensures fresh(dst)
    ensures dst[..] == src[..len]
  {
    dst := new T[len];
    for i := 0 to len
      invariant dst[..i] == src[..i]
    {
      dst[i] := src[i];
    }
  }

  /** The shifted copy loop for `bkpts`: a fresh vector of `BkptsLength(n)`
      entries holding the kernel's entries from index n on, in order. The
      loop runs to `BkptsEnd(n)`, the bound the source intends (see
      AsWrittenAgreesWhenDivisible and AsWrittenOverrunsUnlessDivisible). */
  method DropZeroBreaksColumn(src: array<int>, n: nat) returns (dst: array<int>)
    requires BkptsLength(n) >= 0
    requires src.Length >= BkptsEnd(n)
    ensures fresh(dst)
    ensures dst.Length == BkptsLength(n)
    ensures dst[..] == src[n..BkptsEnd(n)]
  {
    dst := new int[BkptsLength(n)];
    DropFirstColumn(n);
    for i := n to BkptsEnd(n)
      invariant forall j | n <= j < i :: dst[j - n] == src[j]
    {
      dst[i - n] := src[i];
    }
  }

  /** The copy from the kernel's output to the result list. The kernel's
      arrays are only read. */
  method Transcribe(seg: KernelOutput, n: nat) returns (out: seq<RVector>)
    requires KernelShaped(seg, n)
    requires BkptsLength(n) >= 0
    ensures Transcribed(seg, n, out)
    ensures forall v | v in out :: fresh(Storage(v))
  {
    var nbreaks := new int[1];
    nbreaks[0] := seg.nbreaksOpt;
    assert nbreaks[..] == [seg.nbreaksOpt];
    var llikmat := CopyPrefix(seg.llikmat, LlikmatLength(n));
    var mllik := CopyPrefix(seg.mllik, MllikLength(n));
    var bkpts := DropZeroBreaksColumn(seg.bkpts, n);
    out := [IntVector(nbreaks, NoDim),
            RealVector(llikmat, Dim(n, n)),
            RealVector(mllik, NoDim),
            IntVector(bkpts, Dim(n, BkptsColumns(n)))];
  }
}
