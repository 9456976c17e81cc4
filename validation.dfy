/** The pattern both form handlers share: a chain of checks in a fixed order,
    where the first one that fails sets the error and stops the submission. */
module Validation {
  import opened Wrappers

  /** A check: whether it passes, and the error it sets when it does not. */
  datatype Check<E> = Check(ok: bool, error: E)

  /** Check `k` is the first to fail. */
  predicate FailsFirst<E>(cs: seq<Check<E>>, k: int)
  {
    0 <= k < |cs| && !cs[k].ok && forall m :: 0 <= m < k ==> cs[m].ok
  }

  /** The chain run from check `i` on: the error of the first check there
      that fails, `None` when they all pass. */
  function FirstFailureFrom<E>(cs: seq<Check<E>>, i: nat): Option<E>
    requires i <= |cs|
    decreases |cs| - i
  {
    if i == |cs| then None
    else if !cs[i].ok then Some(cs[i].error)
    else FirstFailureFrom(cs, i + 1)
  }

  /** Running the chain from a check that passes is running it from the next one. */
  lemma Pass<E>(cs: seq<Check<E>>, i: nat)
    requires i < |cs| && cs[i].ok
    ensures FirstFailureFrom(cs, i) == FirstFailureFrom(cs, i + 1)
  {
  }

  /** The error the chain reports, `None` when every check passes. */
  function FirstFailure<E>(cs: seq<Check<E>>): (r: Option<E>)
    ensures r.None? <==> forall k :: 0 <= k < |cs| ==> cs[k].ok
    ensures r.Some? ==> exists k :: FailsFirst(cs, k) && r.value == cs[k].error
  {
    Reports(cs, 0);
    FirstFailureFrom(cs, 0)
  }

  /** What the chain run from check `i` reports. */
  lemma {:induction false} Reports<E>(cs: seq<Check<E>>, i: nat)
    requires i <= |cs|
    requires forall m :: 0 <= m < i ==> cs[m].ok
    ensures FirstFailureFrom(cs, i).None? <==> forall k :: 0 <= k < |cs| ==> cs[k].ok
    ensures FirstFailureFrom(cs, i).Some? ==>
      exists k :: FailsFirst(cs, k) && FirstFailureFrom(cs, i).value == cs[k].error
    decreases |cs| - i
  {
    if i < |cs| {
      if !cs[i].ok {
        assert FailsFirst(cs, i);
      } else {
        Reports(cs, i + 1);
      }
    }
  }

  /** Only the first failing check is reported. */
  lemma FirstFailureAt<E>(cs: seq<Check<E>>, k: int)
    requires FailsFirst(cs, k)
    ensures FirstFailure(cs) == Some(cs[k].error)
  {
  }
}
