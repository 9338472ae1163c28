# pdk `validate`: validator dispatch and aggregation, in Dafny

This project models the core of the `pdk validate` command of the Puppet
Development Kit. The command:

- interprets its positional arguments as the validators to run and the targets
  to run them on;
- builds the options hash handed to every validator;
- runs the selected validators against one shared report, either one after the
  other, stopping at the first failure, or all of them at once, keeping the
  worst exit code;
- renders the report once per configured format;
- exits with the aggregated code.

It also models the two grouped validators, `metadata` and `ruby`. Each one is a
fixed fail-fast chain of finer sub-validators.

Validators are opaque. A parameter `invoke: (V, Options) -> Invocation` gives
each validator's exit code and the findings it appends to the report. Every
method that invokes validators returns the sequence of `Call(validator, options)` it made, so the
contracts can say which validators ran, in which order, and with what
arguments.

Modules, one per concern of the source:

- `Types`: names, targets, the options hash, invocations, calls and formats.
- `Reports`: the shared report. Validators append findings to it, and it is
  rendered per format.
- `ExitCodes`: the two aggregation policies as functions over the sequence of
  codes. This module also holds the as-written parallel edge.
- `Coordinator`: the fail-fast loop and the run-everything loop, as methods
  over a `Report` object.
- `Selection`: arguments and flags turned into a plan (validators, targets,
  messages, options, formats), as pure functions, with lemmas for every
  selection rule.
- `ValidateCommand`: the command's `run` block as a method, proved against
  `Selection.Prepare` and the aggregation functions.
- `MetadataValidator`, `RubyValidator`: the grouped validators. Their names
  are the constants `"metadata"` and `"ruby"`, and their chains are
  `[MetadataSyntax, MetadataJSONLint]` and `[Rubocop]`.

Behaviours of the code worth knowing, which the model reproduces:

- A comma-separated list that names no registered validator selects nothing,
  so the selection can be empty.
- Help is shown only when the arguments are exactly `["help"]`, and this is
  checked before `--list`.
- Each unknown list item is warned about once per occurrence, in list order,
  so repeated items are warned about repeatedly.

One behaviour is modelled in its corrected form. With `--parallel` and an
empty selection, the code raises at lib/pdk/cli/validate.rb:104 instead of
exiting (see Findings). The command model (`Coordinator.RunParallel`,
`ValidateCommand.Execute`, `ValidateCommand.Validate`) uses the corrected
aggregation `ExitCodes.MaxCode`. On that input it exits with 0, its spinner
ends in success, and it renders the empty report. The behaviour as written
lives only in `ExitCodes.ParallelCodeAsWritten`, and
`ValidateCommand.EmptyParallelSelection` shows that input reaching it.

## Model

| member | source | states |
|---|---|---|
| ExitCodes.FirstFailure | lib/pdk/cli/validate.rb:110-113 | the position of the first nonzero code: every code before it is 0, and it is either nonzero or the end of the list |
| ExitCodes.InvokedCount | lib/pdk/cli/validate.rb:110-113 | fail-fast invokes every validator up to and including the first failing one and none after it; all of them when none fails; at least one when any is selected |
| ExitCodes.SequentialCode | lib/pdk/cli/validate.rb:110-113 | the sequential code is 0 exactly when every code is 0; otherwise it is the first nonzero code; it is always the code of the last validator invoked (0 when none was) |
| ExitCodes.StopsAt | lib/pdk/cli/validate.rb:110-113 | when the codes before index i are all 0 and code i fails, the run stops after i + 1 validators with code i |
| ExitCodes.RunsToCompletion | lib/pdk/cli/validate.rb:110-113 | when nothing fails, every validator is invoked and the code is 0 |
| ExitCodes.MaxCode | lib/pdk/cli/validate.rb:103-108 | the parallel code bounds every code and is one of them; it is 0 exactly when every code is 0, including when there are none (the corrected edge) |
| ExitCodes.ParallelCodeAsWritten | lib/pdk/cli/validate.rb:103-104 | as written, aggregation fails exactly when no code was collected; otherwise its code is the largest collected code (one of them, bounding all), 0 exactly when every code is 0 |
| ExitCodes.CorrectionOnlyAtEmpty | lib/pdk/cli/validate.rb:103-104 | the corrected code agrees with the code as written on every non-empty collection; they differ only on the empty one, where the code as written fails and the corrected one is 0 |
| ExitCodes.MaxCodeIgnoresCompletionOrder | lib/pdk/cli/validate.rb:90-103 | the parallel code does not depend on the order in which the threads appended their codes (any permutation gives the same maximum) |
| ExitCodes.SequentialAndParallelAgree | lib/pdk/cli/validate.rb:86-113 | both policies pass or fail together, and the sequential code never exceeds the parallel one |
| Coordinator.RunFailFast | lib/pdk/cli/validate.rb:109-113 | invokes the chain in order with the same options, up to and including the first failure; returns the sequential code; the report gains exactly the invoked validators' findings, in order |
| Coordinator.RunParallel | lib/pdk/cli/validate.rb:87-108 | invokes every validator with the same options whatever their codes; returns the maximum code; the spinner succeeds exactly when it is 0; the report gains every validator's findings |
| Reports.Report.constructor | lib/pdk/cli/validate.rb:67 | a new report holds no findings and no renderings |
| Reports.Report.Add | lib/pdk/cli/validate.rb:111 | a validator's findings are appended; nothing is rendered |
| Reports.Report.Render | lib/pdk/cli/validate.rb:117 | rendering reads the findings and records one rendering of exactly them to the format |
| Selection.Select | lib/pdk/cli/validate.rb:43 | a validator is selected from a list exactly when it is registered and the list names it |
| Selection.Unknown | lib/pdk/cli/validate.rb:45 | the invalid items are exactly the list items that are not registered names, each kept as often as it occurs, in list order (a subsequence of the list) |
| Selection.Warnings | lib/pdk/cli/validate.rb:46-48 | one unknown-validator warning per invalid item, in the same order, naming that item and listing the registered validators |
| Selection.OptionsFor | lib/pdk/cli/validate.rb:77-79 | the options carry `targets` exactly when the target list is non-empty, and then exactly that list; `auto_correct` and `parallel` are set exactly when their flags are given |
| Selection.FormatsFor | lib/pdk/cli/validate.rb:68-75 | the report formats are the given ones when `--format` is present, and otherwise the single default format/target pair |
| Selection.SelectFromFirst | lib/pdk/cli/validate.rb:37-62 | whatever the first argument, only registered validators are selected |
| Selection.Prepare | lib/pdk/cli/validate.rb:20-79 | the command exits early (with 0) exactly for `help` or `--list`; otherwise every selected validator is a registered one |
| Selection.HelpThenList | lib/pdk/cli/validate.rb:21-33 | the lone argument `help` shows help whatever the flags; otherwise `--list` reports all registered names; both exit 0 |
| Selection.NoArgumentsSelectsAll | lib/pdk/cli/validate.rb:26-62 | with no arguments, the whole registry is selected in registry order, there are no targets and no `targets` key, and one "running all" notice is logged |
| Selection.WarnedNamesOfWarnings | lib/pdk/cli/validate.rb:46-48 | one warning per invalid item, in order, naming that item |
| Selection.CommaList | lib/pdk/cli/validate.rb:39-48 | a list selects exactly the registered entries it names; every message is an unknown-validator warning listing the registry; each unregistered name is warned about as often as it occurs and registered names never are; the targets are only the later arguments |
| Selection.CommaListWarnsInListOrder | lib/pdk/cli/validate.rb:42-48 | the warnings of a comma-separated list name exactly the unregistered items, in the order the list gives them |
| Selection.SelectNoneKnown | lib/pdk/cli/validate.rb:43 | a list naming no registered validator selects nothing |
| Selection.SelectIgnoresListOrder | lib/pdk/cli/validate.rb:43 | the selection depends only on which names the list mentions, not on their order or repeats |
| Selection.SelectDistinct | lib/pdk/cli/validate.rb:43 | over a registry without repeated names, the selection has no duplicates |
| Selection.SelectFollowsRegistryOrder | lib/pdk/cli/validate.rb:43 | the selection is a subsequence of the registry, so it keeps registry order |
| Selection.SingleValidatorName | lib/pdk/cli/validate.rb:50-53 | a lone registered name selects exactly that validator, logs nothing, and adds no target |
| Selection.FirstArgumentIsTarget | lib/pdk/cli/validate.rb:54-58 | any other first argument becomes the first target, all validators stay selected, and "running all" is logged |
| Selection.LaterArgumentsAreTargets | lib/pdk/cli/validate.rb:64-79 | in every branch the later arguments are the last targets, in order; options carry `targets` exactly when there are targets, and each switch exactly when its flag is given; formats default to the one default pair |
| ValidateCommand.Validate | lib/pdk/cli/validate.rb:20-120 | help and `--list` exit 0 with no call and no report; otherwise the logged messages are the plan's, and the plan is dispatched as `Dispatched` states |
| ValidateCommand.Execute | lib/pdk/cli/validate.rb:67-118 | a fresh report; the policy the options choose decides the code, calls and spinner; the report holds the invoked validators' findings and is rendered once per format, in order |
| ValidateCommand.RenderReport | lib/pdk/cli/validate.rb:116-118 | one rendering per format, in the configured order, each of the same completed findings |
| ValidateCommand.EmptyParallelSelection | lib/pdk/cli/validate.rb:101-104 | a parallel run of a list naming no registered validator selects nothing and takes the parallel path; aggregation as written fails, while the sequential and the corrected codes are 0 |
| MetadataValidator.ValidatorName | lib/pdk/validators/metadata_validator.rb:10-12 | the validator's name is `"metadata"` |
| MetadataValidator.SubValidators | lib/pdk/validators/metadata_validator.rb:14-16 | the chain is MetadataSyntax, then MetadataJSONLint |
| MetadataValidator.ChainOutcome | lib/pdk/validators/metadata_validator.rb:14-26 | the syntax check's failing code is the result and the lint is not run; otherwise the lint runs and its code is the result |
| MetadataValidator.Invoke | lib/pdk/validators/metadata_validator.rb:18-27 | calls are `[MetadataSyntax]` or `[MetadataSyntax, MetadataJSONLint]`, all with the same options; the code is 0 exactly when every invoked sub-validator returned 0; the report gains their findings in order |
| RubyValidator.ValidatorName | lib/pdk/validators/ruby_validator.rb:9-11 | the validator's name is `"ruby"` |
| RubyValidator.SubValidators | lib/pdk/validators/ruby_validator.rb:13-15 | the chain is Rubocop alone |
| RubyValidator.ChainOutcome | lib/pdk/validators/ruby_validator.rb:13-25 | the chain's code is Rubocop's code, and Rubocop is the one validator invoked |
| RubyValidator.Invoke | lib/pdk/validators/ruby_validator.rb:17-26 | Rubocop is called exactly once, with the options unchanged; the result is its code, and the report gains its findings |

## Left out

- Threads, `join`, and the concurrent appends to `exit_codes` and the report
  (lib/pdk/cli/validate.rb:90-101). `RunParallel` invokes the validators one
  after the other in selection order. The exit code cannot depend on the
  order (`MaxCodeIgnoresCompletionOrder`), but the order of the findings in
  the report can, and the model fixes one order.
- `PDK::CLI::Util.ensure_in_module!`, `PDK::Util::Bundler.ensure_bundle!` and
  `Dir.chdir(PDK::Util.module_root)` are checks of the file system and the
  environment. Their failure exits are not modelled.
- The spinner is kept only as its final success or error state. Logging
  becomes the returned `messages`, and i18n formatting is dropped.
- `exit` and the help re-invocation `PDK::CLI.run(['validate', '--help'])`
  become early-return outcomes (`Finish`).
- The concrete validators, MetadataSyntax, MetadataJSONLint and Rubocop, run
  external linters. They are given by the `invoke` parameter.
- The registry `PDK::Validate.validators` is not part of this model. It is a
  parameter listing the validator names, and validators are identified by
  name. So the model does not tie the registry entries `metadata` and `ruby`
  to `MetadataValidator.Invoke` and `RubyValidator.Invoke`.
- `Util::OptionValidator.comma_separated_list?` and
  `Util::OptionNormalizer.comma_separated_list_to_array` are not part of this
  model. They are the parameters `ListSyntax.isList` and `ListSyntax.split`.
- `OptionNormalizer.report_formats`, `PDK::Report.default_format` and
  `default_target` are not part of this model. `--format` arrives already
  normalised, and the default pair is a parameter.
- The internals of `PDK::Report` are not modelled: finding structure, and what
  `report.send(method, target)` writes. A rendering is recorded as the format
  plus the findings it read.
- The command-definition DSL is not modelled (flag declarations, usage,
  description). `opts[:list]`, `opts[:parallel]` and
  `opts.key?(:'auto-correct')` are all read as "the flag was given".

## Findings

| source | as written | input that shows it | evidently intended | confidence | as-written member | corrected member |
|---|---|---|---|---|---|---|
| lib/pdk/cli/validate.rb:103-104 | `exit_code = exit_codes.max` then `exit_code.zero?`, with no guard for an empty `exit_codes` | `pdk validate --parallel foo,bar` where neither name is a registered validator: nothing is selected, `exit_codes` is `[]`, `max` is nil and `nil.zero?` raises NoMethodError | exit with 0, as the sequential path does for an empty selection | medium, not executed | ExitCodes.ParallelCodeAsWritten (shown by ValidateCommand.EmptyParallelSelection) | ExitCodes.MaxCode (used by Coordinator.RunParallel) |
