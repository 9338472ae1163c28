/**
 * How the exit codes of the invoked validators combine into one process exit
 * code: the sequential, fail-fast policy and the parallel, maximum policy.
 * Codes are listed in the order the validators were selected.
 */
module ExitCodes {
  import opened Types

  predicate AllZero(codes: seq<nat>) {
    forall i :: 0 <= i < |codes| ==> codes[i] == 0
  }

  /** Index of the first failing (nonzero) code, or |codes| when none fails. */
  function FirstFailure(codes: seq<nat>): (k: nat)
    ensures k <= |codes|
    ensures forall i :: 0 <= i < k ==> codes[i] == 0
    ensures k < |codes| ==> codes[k] != 0
  {
    if codes == [] || codes[0] != 0 then 0 else 1 + FirstFailure(codes[1..])
  }

  /** How many validators a fail-fast run invokes: all of them up to and
      including the first one that fails. */
  function InvokedCount(codes: seq<nat>): (n: nat)
    ensures n <= |codes|
    ensures codes != [] ==> 0 < n
    ensures forall i :: 0 <= i < n - 1 ==> codes[i] == 0
    ensures n < |codes| ==> 0 < n && codes[n - 1] != 0
    ensures codes != [] ==> (n == |codes| <==> AllZero(codes[..|codes| - 1]))
  {
    var k := FirstFailure(codes);
    if k < |codes| then k + 1 else |codes|
  }

  /** The code a fail-fast run exits with: the first nonzero code, or 0. */
  function SequentialCode(codes: seq<nat>): (r: nat)
    ensures r == 0 <==> AllZero(codes)
    ensures r != 0 ==> exists k :: 0 <= k < |codes| && codes[k] == r && AllZero(codes[..k])
    // the code of the last validator invoked, or 0 when none was invoked
    ensures var n := InvokedCount(codes); r == if n == 0 then 0 else codes[n - 1]
  {
    var k := FirstFailure(codes);
    if k < |codes| then codes[k] else 0
  }

  /** A fail-fast run in which every code before index i is 0 and code i is
      not invokes i + 1 validators and exits with code i. */
  lemma StopsAt(codes: seq<nat>, i: nat)
    requires i < |codes| && codes[i] != 0
    requires i <= FirstFailure(codes)
    ensures FirstFailure(codes) == i
    ensures InvokedCount(codes) == i + 1
    ensures SequentialCode(codes) == codes[i]
  {
  }

  /** A fail-fast run in which nothing fails invokes every validator and exits with 0. */
  lemma RunsToCompletion(codes: seq<nat>)
    requires FirstFailure(codes) == |codes|
    ensures InvokedCount(codes) == |codes|
    ensures SequentialCode(codes) == 0
  {
  }

  /** The code a parallel run exits with: the largest code, and 0 when there
      are no codes at all. */
  function MaxCode(codes: seq<nat>): (r: nat)
    ensures forall i :: 0 <= i < |codes| ==> codes[i] <= r
    ensures codes != [] ==> exists i :: 0 <= i < |codes| && codes[i] == r
    ensures r == 0 <==> AllZero(codes)
  {
    if codes == [] then 0
    else
      var m := MaxCode(codes[1..]);
      assert forall i :: 1 <= i < |codes| ==> codes[i] == codes[1..][i - 1];
      if codes[0] >= m then codes[0] else m
  }

  /**
   * The parallel aggregation as the source writes it: `exit_codes.max` is nil
   * for an empty array and the following `nil.zero?` raises. None stands for
   * that error; otherwise the aggregated code.
   */
  function ParallelCodeAsWritten(codes: seq<nat>): (r: Option<nat>)
    ensures r.None? <==> codes == []
    ensures r.Some? ==> r.value in codes && forall c :: c in codes ==> c <= r.value
    ensures r.Some? ==> (r.value == 0 <==> AllZero(codes))
  {
    if codes == [] then None else Some(MaxCode(codes))
  }

  /** The correction touches only the empty edge: on every non-empty
      collection the corrected code is the one the source exits with. */
  lemma CorrectionOnlyAtEmpty(codes: seq<nat>)
    ensures codes != [] ==> ParallelCodeAsWritten(codes) == Some(MaxCode(codes))
    ensures codes == [] ==> ParallelCodeAsWritten(codes) == None && MaxCode(codes) == 0
  {
  }

  /** The parallel result does not depend on the order in which the
      validators finished: any reordering of the codes gives the same code. */
  lemma {:induction false} MaxCodeIgnoresCompletionOrder(a: seq<nat>, b: seq<nat>)
    requires multiset(a) == multiset(b)
    ensures MaxCode(a) == MaxCode(b)
  {
    if a != [] {
      assert |b| == |multiset(b)| == |multiset(a)| == |a|;
      forall x | x in a ensures x in b {
        assert x in multiset(a);
      }
      forall x | x in b ensures x in a {
        assert x in multiset(b);
      }
      var i :| 0 <= i < |a| && a[i] == MaxCode(a);
      var j :| 0 <= j < |b| && b[j] == MaxCode(b);
      assert a[i] in b;
      assert b[j] in a;
    }
  }

  /** Both policies agree on success: a run passes under one exactly when it
      passes under the other; a failing sequential code never exceeds the
      parallel one. */
  lemma SequentialAndParallelAgree(codes: seq<nat>)
    ensures SequentialCode(codes) == 0 <==> MaxCode(codes) == 0
    ensures SequentialCode(codes) <= MaxCode(codes)
  {
  }
}
