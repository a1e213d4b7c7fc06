/** The whole of `tadbit_R_call`: check the list, hand the pointer table to
    the kernel, transcribe its output. The kernel is not part of this model:
    its output for the call is a parameter, and the call records the
    arguments it would be invoked with. */
module Adapter {
  import opened TadbitTypes
  import opened Validator
  import opened Transcriber

  /** The arguments of one call to the kernel `tadbit`. */
  datatype Invocation = Invocation(
    obs: seq<seq<real>>,
    n: nat,
    m: nat,
    nThreads: int,
    verbose: int,
    speed: int)

  /** How the call ends: an R error with its message, or the result list. */
  datatype CallResult = Failed(message: string) | Returned(list: seq<RVector>)

  /** The adapter. `n` is only assigned inside the checking loop, so the
      source needs a non-empty list; R cannot allocate the breakpoint vector
      when n is 1, 2 or 3; and the kernel must have produced buffers of the
      lengths the copies read. A failed check ends the call before the kernel
      runs and before any output vector exists. */
  method TadbitRCall(list: seq<Element>, nThreads: int, verbose: int, speed: int, seg: KernelOutput)
    returns (r: CallResult, kernelCalls: seq<Invocation>)
    requires |list| >= 1
    requires Outcome(list).Validated? ==> BkptsLength(Outcome(list).n) >= 0
    requires Outcome(list).Validated? ==> KernelShaped(seg, Outcome(list).n)
    ensures Outcome(list).Rejected? ==> r == Failed(Message(Outcome(list).error)) && kernelCalls == []
    ensures Outcome(list).Validated? ==>
      && kernelCalls == [Invocation(Buffers(list), Outcome(list).n, |list|, nThreads, verbose, speed)]
      && r.Returned?
      && Transcribed(seg, Outcome(list).n, r.list)
      && forall v | v in r.list :: fresh(Storage(v))
  {
    var v, obs := Validate(list);
    if v.Rejected? {
      r, kernelCalls := Failed(Message(v.error)), [];
      return;
    }
    OutcomeCharacterized(list);
    var n := v.n;
    assert obs == Buffers(list)[..|list|] == Buffers(list);
    kernelCalls := [Invocation(obs, n, |list|, nThreads, verbose, speed)];
    var out := Transcribe(seg, n);
    r := Returned(out);
  }
}
