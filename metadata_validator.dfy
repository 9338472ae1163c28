/**
 * The `metadata` validator: a fixed fail-fast chain of two sub-validators
 * (lib/pdk/validators/metadata_validator.rb).
 */
module MetadataValidator {
  import opened Types
  import opened ExitCodes
  import opened Reports
  import opened Coordinator

  /** The name the validator is registered and selected under. */
  const ValidatorName: Name := "metadata"

  datatype SubValidator = MetadataSyntax | MetadataJSONLint

  /** The sub-validators, in the order they run. */
  function SubValidators(): (chain: seq<SubValidator>)
    ensures chain == [MetadataSyntax, MetadataJSONLint]
  {
    [MetadataSyntax, MetadataJSONLint]
  }

  /** The chain's result: the syntax check decides when it fails, and only
      otherwise does the JSON lint run and decide. */
  lemma ChainOutcome(invoke: (SubValidator, Options) -> Invocation, options: Options)
    ensures var codes := Codes(SubValidators(), invoke, options);
            var syntax := invoke(MetadataSyntax, options).code;
            var lint := invoke(MetadataJSONLint, options).code;
            && SequentialCode(codes) == (if syntax != 0 then syntax else lint)
            && InvokedCount(codes) == (if syntax != 0 then 1 else 2)
  {
    var codes := Codes(SubValidators(), invoke, options);
    if codes[0] != 0 {
      StopsAt(codes, 0);
    } else if codes[1] != 0 {
      StopsAt(codes, 1);
    } else {
      RunsToCompletion(codes);
    }
  }

  /**
   * Runs MetadataSyntax, then MetadataJSONLint unless the syntax check failed,
   * both with the same options and report; returns the first nonzero code, or 0.
   */
  method Invoke(invoke: (SubValidator, Options) -> Invocation, options: Options, report: Report)
    returns (exitCode: nat, calls: seq<Call<SubValidator>>)
    modifies report
    ensures var syntax := invoke(MetadataSyntax, options);
            var lint := invoke(MetadataJSONLint, options);
            if syntax.code != 0 then
              && exitCode == syntax.code
              && calls == [Call(MetadataSyntax, options)]
              && report.findings == old(report.findings) + syntax.findings
            else
              && exitCode == lint.code
              && calls == [Call(MetadataSyntax, options), Call(MetadataJSONLint, options)]
              && report.findings == old(report.findings) + syntax.findings + lint.findings
    ensures exitCode == 0 <==> forall c :: c in calls ==> invoke(c.validator, c.options).code == 0
    ensures report.renders == old(report.renders)
  {
    exitCode, calls := RunFailFast(SubValidators(), invoke, options, report);
    ChainOutcome(invoke, options);
    var chain := SubValidators();
    assert chain[..1] == [MetadataSyntax] && chain[..2] == chain;
    assert FindingsOf(chain[..1], invoke, options) == invoke(MetadataSyntax, options).findings;
  }
}
