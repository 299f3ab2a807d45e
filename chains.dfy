/**
  Facts about ordered chains of backends that the loader chain, the processor chain and the
  processor lifecycle share: where a chain stops, which fallback buffer survives and which
  error is reported.
 */
module Chains {
  import opened Base
  import opened Errors

  /** The error of each stage of a chain, in order. */
  function Errs<T>(stages: seq<T>, err: T -> Option<Error>): (errs: seq<Option<Error>>)
    ensures |errs| == |stages| && forall j :: 0 <= j < |stages| ==> errs[j] == err(stages[j])
  {
    seq(|stages|, j requires 0 <= j < |stages| => err(stages[j]))
  }

  /** The index of the first nil error (the first success), or |errs| when every entry failed. */
  function FirstNil(errs: seq<Option<Error>>): (k: nat)
    ensures k <= |errs|
    ensures forall j :: 0 <= j < k ==> errs[j].Some?
    ensures k < |errs| ==> errs[k].None?
  {
    if errs == [] then 0
    else if errs[0].None? then 0
    else 1 + FirstNil(errs[1..])
  }

  /** The index of the first non-nil error, or |errs| when every entry succeeded. */
  function FirstError(errs: seq<Option<Error>>): (k: nat)
    ensures k <= |errs|
    ensures forall j :: 0 <= j < k ==> errs[j].None?
    ensures k < |errs| ==> errs[k].Some?
  {
    if errs == [] then 0
    else if errs[0].Some? then 0
    else 1 + FirstError(errs[1..])
  }

  /** The first index with a nil error is the one FirstNil finds. */
  lemma FirstNilIs(errs: seq<Option<Error>>, k: nat)
    requires k < |errs| && errs[k].None?
    requires forall j :: 0 <= j < k ==> errs[j].Some?
    ensures FirstNil(errs) == k
  {
  }

  /** The first index with an error is the one FirstError finds. */
  lemma FirstErrorIs(errs: seq<Option<Error>>, k: nat)
    requires k < |errs| && errs[k].Some?
    requires forall j :: 0 <= j < k ==> errs[j].None?
    ensures FirstError(errs) == k
  {
  }

  /** How many stages of a chain of n run when stage k is the first to stop it (k == n: none does). */
  function Tried(k: nat, n: nat): nat
    requires k <= n
  {
    if k < n then k + 1 else n
  }

  /** The last non-empty buffer of `bufs`, or `init` when all of them are empty. */
  function Fallback(init: Bytes, bufs: seq<Bytes>): Bytes
  {
    if bufs == [] then init
    else if bufs[|bufs| - 1] != [] then bufs[|bufs| - 1]
    else Fallback(init, bufs[..|bufs| - 1])
  }

  /** Fallback is `init` when every buffer is empty, and otherwise the last non-empty buffer. */
  lemma {:induction false} FallbackIsLast(init: Bytes, bufs: seq<Bytes>)
    ensures (forall j :: 0 <= j < |bufs| ==> bufs[j] == []) ==> Fallback(init, bufs) == init
    ensures forall j :: 0 <= j < |bufs| && bufs[j] != [] ==>
      (forall i :: j < i < |bufs| ==> bufs[i] == []) ==> Fallback(init, bufs) == bufs[j]
    decreases |bufs|
  {
    if bufs != [] && bufs[|bufs| - 1] == [] {
      var front := bufs[..|bufs| - 1];
      FallbackIsLast(init, front);
      assert forall j :: 0 <= j < |front| ==> front[j] == bufs[j];
    }
  }

  /** The last error that is neither nil nor Pass, or nil when there is none. */
  function LastFailure(errs: seq<Option<Error>>): (r: Option<Error>)
    ensures r.Some? ==> r.value != ErrPass
  {
    if errs == [] then None
    else if IsHard(errs[|errs| - 1]) then errs[|errs| - 1]
    else LastFailure(errs[..|errs| - 1])
  }

  /** LastFailure is nil exactly when no error is hard, and otherwise the last hard error. */
  lemma {:induction false} LastFailureIsLast(errs: seq<Option<Error>>)
    ensures LastFailure(errs).None? <==> forall j :: 0 <= j < |errs| ==> !IsHard(errs[j])
    ensures forall j :: 0 <= j < |errs| && IsHard(errs[j]) ==>
      (forall i :: j < i < |errs| ==> !IsHard(errs[i])) ==> LastFailure(errs) == errs[j]
    decreases |errs|
  {
    if errs != [] && !IsHard(errs[|errs| - 1]) {
      var front := errs[..|errs| - 1];
      LastFailureIsLast(front);
      assert forall j :: 0 <= j < |front| ==> front[j] == errs[j];
    }
  }

  /** Extending a chain by one stage: a non-empty buffer replaces the fallback. */
  lemma FallbackStep(init: Bytes, bufs: seq<Bytes>, b: Bytes)
    ensures Fallback(init, bufs + [b]) == if b != [] then b else Fallback(init, bufs)
  {
    assert (bufs + [b])[..|bufs|] == bufs;
  }

  /** One more stage of a chain given as a whole. */
  lemma FallbackPrefixStep(init: Bytes, bufs: seq<Bytes>, i: nat)
    requires i < |bufs|
    ensures Fallback(init, bufs[..i + 1]) == if bufs[i] != [] then bufs[i] else Fallback(init, bufs[..i])
  {
    assert bufs[..i + 1] == bufs[..i] + [bufs[i]];
    FallbackStep(init, bufs[..i], bufs[i]);
  }

  /** Extending a chain by one stage: only a hard error replaces the reported one. */
  lemma LastFailureStep(errs: seq<Option<Error>>, e: Option<Error>)
    ensures LastFailure(errs + [e]) == if IsHard(e) then e else LastFailure(errs)
  {
    assert (errs + [e])[..|errs|] == errs;
  }
}
