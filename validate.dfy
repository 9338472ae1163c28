/**
 * The `run` block of the `validate` command (lib/pdk/cli/validate.rb): decide
 * what to run, build the options, dispatch sequentially or in parallel, render
 * the report to every configured format, and exit with the aggregated code.
 */
module ValidateCommand {
  import opened Types
  import opened ExitCodes
  import opened Reports
  import opened Coordinator
  import opened Selection

  /**
   * What dispatching plan p leaves behind. Sequentially, the validators run in
   * order up to and including the first failure and the code is that failure's
   * (0 if none failed); in parallel, all of them run, the code is the largest
   * (0 if none ran) and the spinner ends in success exactly when it is 0.
   * Every call gets the plan's options; the report holds the findings of the
   * invoked validators in order and has been rendered once per format, in
   * order, after they all finished.
   */
  ghost predicate Dispatched(p: Plan, invoke: (Name, Options) -> Invocation, exitCode: nat,
                             calls: seq<Call<Name>>, spinnerSuccess: Option<bool>,
                             findings: seq<Finding>, renders: seq<Rendering>)
  {
    var codes := Codes(p.validators, invoke, p.options);
    && (if p.options.parallel then
          exitCode == MaxCode(codes) && |calls| == |p.validators| && spinnerSuccess == Some(exitCode == 0)
        else
          exitCode == SequentialCode(codes) && |calls| == InvokedCount(codes) && spinnerSuccess == None)
    && |calls| <= |p.validators|
    && calls == CallsOf(p.validators[..|calls|], p.options)
    && findings == FindingsOf(p.validators[..|calls|], invoke, p.options)
    && renders == RenderingsOf(p.formats, findings)
  }

  /**
   * One run of the command. `invoke` stands for the registered validators;
   * the returned values are the exit code, the messages logged while
   * selecting, the validator calls made, how the parallel progress spinner
   * ended (None when it was never started), and the report (null when the
   * command exited before creating one).
   */
  method Validate(env: Environment, flags: Flags, args: seq<string>, invoke: (Name, Options) -> Invocation)
    returns (exitCode: nat, messages: seq<Message>, calls: seq<Call<Name>>,
             spinnerSuccess: Option<bool>, report: Report?)
    // help and --list: exit 0, nothing invoked, no report
    ensures var o := Prepare(env, flags, args);
            o.Finish? ==>
              exitCode == o.code && messages == o.messages && calls == []
              && spinnerSuccess == None && report == null
    // otherwise the plan is dispatched
    ensures var o := Prepare(env, flags, args);
            o.Dispatch? ==>
              messages == o.plan.messages && report != null && fresh(report)
              && Dispatched(o.plan, invoke, exitCode, calls, spinnerSuccess, report.findings, report.renders)
  {
    calls, spinnerSuccess, report := [], None, null;
    if args == ["help"] {
      exitCode, messages := 0, [HelpShown];
      return;
    }
    if flags.list {
      exitCode, messages := 0, [AvailableValidators(env.registry)];
      return;
    }

    var selected := SelectFromFirst(env.registry, env.syntax, args);
    var targets := selected.targets;
    messages := selected.messages;
    // subsequent arguments are targets
    if |args| > 1 {
      targets := targets + args[1..];
    }
    assert targets == selected.targets + (if |args| > 1 then args[1..] else []);

    var formats := if flags.format.Some? then flags.format.value else [env.defaultFormat];

    var options := Options(if targets == [] then None else Some(targets), false, false);
    if flags.autoCorrect {
      options := options.(autoCorrect := true);
    }
    if flags.parallel {
      options := options.(parallel := true);
    }

    var plan := Plan(selected.validators, targets, messages, options, formats);
    assert Prepare(env, flags, args) == Dispatch(plan);
    var r;
    exitCode, calls, spinnerSuccess, r := Execute(plan, invoke);
    report := r;
  }

  /** Creates the report, runs the plan's validators under its policy and
      renders the report. */
  method Execute(p: Plan, invoke: (Name, Options) -> Invocation)
    returns (exitCode: nat, calls: seq<Call<Name>>, spinnerSuccess: Option<bool>, report: Report)
    ensures fresh(report)
    ensures Dispatched(p, invoke, exitCode, calls, spinnerSuccess, report.findings, report.renders)
  {
    report := new Report();
    if p.options.parallel {
      var success;
      exitCode, calls, success := RunParallel(p.validators, invoke, p.options, report);
      spinnerSuccess := Some(success);
      assert p.validators[..|calls|] == p.validators;
    } else {
      exitCode, calls := RunFailFast(p.validators, invoke, p.options, report);
      spinnerSuccess := None;
    }
    assert report.findings == FindingsOf(p.validators[..|calls|], invoke, p.options);
    RenderReport(report, p.formats);
  }

  /** Renders the completed report once per configured format, in order. */
  method RenderReport(report: Report, formats: seq<Format>)
    modifies report
    ensures report.findings == old(report.findings)
    ensures report.renders == old(report.renders) + RenderingsOf(formats, report.findings)
  {
    for i := 0 to |formats|
      invariant report.findings == old(report.findings)
      invariant report.renders == old(report.renders) + RenderingsOf(formats[..i], report.findings)
    {
      report.Render(formats[i]);
      assert formats[..i + 1] == formats[..i] + [formats[i]];
    }
    assert formats[..|formats|] == formats;
  }

  /**
   * The unguarded edge of the parallel path: a comma-separated list naming no
   * registered validator selects nothing, and the source's `exit_codes.max`
   * then has no value to test for zero, while the sequential path exits 0.
   */
  lemma EmptyParallelSelection(env: Environment, flags: Flags, args: seq<string>,
                               invoke: (Name, Options) -> Invocation)
    requires !flags.list && flags.parallel && args != [] && args != ["help"]
    requires env.syntax.isList(args[0])
    requires forall n :: n in env.syntax.split(args[0]) ==> n !in env.registry
    ensures var o := Prepare(env, flags, args);
            o.Dispatch? && o.plan.validators == [] && o.plan.options.parallel
            && var codes := Codes(o.plan.validators, invoke, o.plan.options);
            && ParallelCodeAsWritten(codes) == None
            && SequentialCode(codes) == 0
            && MaxCode(codes) == 0
  {
    SelectNoneKnown(env.registry, env.syntax.split(args[0]));
  }
}
