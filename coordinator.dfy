/**
 * Running a list of validators against one report and one options hash: the
 * ordered fail-fast loop (the sequential policy of `validate`, and the body of
 * every grouped validator) and the run-everything loop of the parallel policy.
 * Validators are opaque: `invoke` gives the exit code and findings of each.
 */
module Coordinator {
  import opened Types
  import opened ExitCodes
  import opened Reports

  /** The exit codes the validators of `chain` return, in chain order. */
  function Codes<V>(chain: seq<V>, invoke: (V, Options) -> Invocation, options: Options): (codes: seq<nat>)
    ensures |codes| == |chain|
    ensures forall i :: 0 <= i < |chain| ==> codes[i] == invoke(chain[i], options).code
  {
    if chain == [] then []
    else [invoke(chain[0], options).code] + Codes(chain[1..], invoke, options)
  }

  /** The findings the validators of `chain` record, one validator after the other. */
  function FindingsOf<V>(chain: seq<V>, invoke: (V, Options) -> Invocation, options: Options): seq<Finding>
  {
    if chain == [] then []
    else FindingsOf(chain[..|chain| - 1], invoke, options) + invoke(chain[|chain| - 1], options).findings
  }

  /** The calls made when the validators of `chain` are invoked in order with `options`. */
  function CallsOf<V>(chain: seq<V>, options: Options): (calls: seq<Call<V>>)
    ensures |calls| == |chain|
    ensures forall k :: 0 <= k < |chain| ==> calls[k] == Call(chain[k], options)
  {
    if chain == [] then [] else CallsOf(chain[..|chain| - 1], options) + [Call(chain[|chain| - 1], options)]
  }

  /** Running one more validator of the chain adds exactly its call and its findings. */
  lemma Extend<V>(chain: seq<V>, invoke: (V, Options) -> Invocation, options: Options, i: nat)
    requires i < |chain|
    ensures CallsOf(chain[..i + 1], options) == CallsOf(chain[..i], options) + [Call(chain[i], options)]
    ensures FindingsOf(chain[..i + 1], invoke, options)
            == FindingsOf(chain[..i], invoke, options) + invoke(chain[i], options).findings
  {
    assert chain[..i + 1][..i] == chain[..i];
  }

  lemma AppendAssoc<T>(a: seq<T>, b: seq<T>, c: seq<T>)
    ensures (a + b) + c == a + (b + c)
  {
  }

  /** Running one more validator of the chain adds exactly its code. */
  lemma ExtendCodes<V>(chain: seq<V>, invoke: (V, Options) -> Invocation, options: Options, i: nat)
    requires i < |chain|
    ensures Codes(chain[..i + 1], invoke, options) == Codes(chain[..i], invoke, options) + [invoke(chain[i], options).code]
  {
  }

  /**
   * Invokes the validators in order with the same options and report, stopping
   * after the first nonzero exit code. Returns that code (0 when every invoked
   * validator passed) and the calls made.
   */
  method RunFailFast<V>(chain: seq<V>, invoke: (V, Options) -> Invocation, options: Options, report: Report)
    returns (exitCode: nat, calls: seq<Call<V>>)
    modifies report
    ensures exitCode == SequentialCode(Codes(chain, invoke, options))
    ensures |calls| == InvokedCount(Codes(chain, invoke, options))
    ensures calls == CallsOf(chain[..|calls|], options)
    ensures report.findings == old(report.findings) + FindingsOf(chain[..|calls|], invoke, options)
    ensures report.renders == old(report.renders)
  {
    ghost var codes, before := Codes(chain, invoke, options), report.findings;
    exitCode := 0;
    calls := [];
    var i := 0;
    while i < |chain|
      invariant i <= |chain| && i <= FirstFailure(codes)
      invariant exitCode == 0
      invariant calls == CallsOf(chain[..i], options)
      invariant report.findings == before + FindingsOf(chain[..i], invoke, options)
      invariant report.renders == old(report.renders)
    {
      var result := invoke(chain[i], options);
      report.Add(result.findings);
      calls := calls + [Call(chain[i], options)];
      Extend(chain, invoke, options, i);
      AppendAssoc(before, FindingsOf(chain[..i], invoke, options), result.findings);
      exitCode := result.code;
      if exitCode != 0 {
        StopsAt(codes, i);
        break;
      }
      i := i + 1;
    }
    if exitCode == 0 {
      RunsToCompletion(codes);
      assert chain[..|chain|] == chain;
    }
  }

  /**
   * Invokes every validator, whatever the codes, with the same options and
   * report. Returns the largest code (0 when nothing was selected), the calls
   * made, and whether the progress spinner ends in success.
   */
  method RunParallel<V>(validators: seq<V>, invoke: (V, Options) -> Invocation, options: Options, report: Report)
    returns (exitCode: nat, calls: seq<Call<V>>, spinnerSuccess: bool)
    modifies report
    ensures exitCode == MaxCode(Codes(validators, invoke, options))
    ensures calls == CallsOf(validators, options)
    ensures spinnerSuccess <==> exitCode == 0
    ensures report.findings == old(report.findings) + FindingsOf(validators, invoke, options)
    ensures report.renders == old(report.renders)
  {
    ghost var before := report.findings;
    var exitCodes: seq<nat> := [];
    calls := [];
    for i := 0 to |validators|
      invariant exitCodes == Codes(validators[..i], invoke, options)
      invariant calls == CallsOf(validators[..i], options)
      invariant report.findings == before + FindingsOf(validators[..i], invoke, options)
      invariant report.renders == old(report.renders)
    {
      var result := invoke(validators[i], options);
      report.Add(result.findings);
      AppendAssoc(before, FindingsOf(validators[..i], invoke, options), result.findings);
      exitCodes := exitCodes + [result.code];
      calls := calls + [Call(validators[i], options)];
      Extend(validators, invoke, options, i);
      ExtendCodes(validators, invoke, options, i);
    }
    assert validators[..|validators|] == validators;
    exitCode := MaxCode(exitCodes);
    spinnerSuccess := exitCode == 0;
  }
}
