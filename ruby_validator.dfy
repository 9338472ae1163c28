/**
 * The `ruby` validator: a fail-fast chain holding the one sub-validator Rubocop
 * (lib/pdk/validators/ruby_validator.rb).
 */
module RubyValidator {
  import opened Types
  import opened ExitCodes
  import opened Reports
  import opened Coordinator

  /** The name the validator is registered and selected under. */
  const ValidatorName: Name := "ruby"

  datatype SubValidator = Rubocop

  /** The sub-validators, in the order they run. */
  function SubValidators(): (chain: seq<SubValidator>)
    ensures chain == [Rubocop]
  {
    [Rubocop]
  }

  /** With its one member the chain's result is Rubocop's own code, and Rubocop
      is invoked whatever that code is. */
  lemma ChainOutcome(invoke: (SubValidator, Options) -> Invocation, options: Options)
    ensures var codes := Codes(SubValidators(), invoke, options);
            && SequentialCode(codes) == invoke(Rubocop, options).code
            && InvokedCount(codes) == 1
  {
    var codes := Codes(SubValidators(), invoke, options);
    if codes[0] != 0 {
      StopsAt(codes, 0);
    } else {
      RunsToCompletion(codes);
    }
  }

  /**
   * Runs the chain with the same options and report; with its one member the
   * result is Rubocop's own exit code, and Rubocop runs exactly once.
   */
  method Invoke(invoke: (SubValidator, Options) -> Invocation, options: Options, report: Report)
    returns (exitCode: nat, calls: seq<Call<SubValidator>>)
    modifies report
    ensures exitCode == invoke(Rubocop, options).code
    ensures calls == [Call(Rubocop, options)]
    ensures report.findings == old(report.findings) + invoke(Rubocop, options).findings
    ensures report.renders == old(report.renders)
  {
    exitCode, calls := RunFailFast(SubValidators(), invoke, options, report);
    ChainOutcome(invoke, options);
    assert SubValidators()[..1] == SubValidators();
  }
}
