/**
 * How the `validate` command turns its positional arguments and flags into the
 * validators to run, the targets to run them on, the messages it logs, the
 * options hash and the report formats (lines 20-79 of lib/pdk/cli/validate.rb).
 */
module Selection {
  import opened Types

  /**
   * The two helpers the command uses on its first argument: whether it is a
   * comma-separated list, and how such a list splits into names. Their code
   * is not part of this model, so they are given as parameters.
   */
  datatype ListSyntax = ListSyntax(isList: string -> bool, split: string -> seq<Name>)

  /** What the command finds around it: the names of the registered validators
      in registry order, the list helpers, and the default report format. */
  datatype Environment = Environment(registry: seq<Name>, syntax: ListSyntax, defaultFormat: Format)

  /** The command-line flags: `--list`, `--auto-correct`, `--parallel`, and the
      report formats given by `--format`, already normalised. */
  datatype Flags = Flags(list: bool, autoCorrect: bool, parallel: bool, format: Option<seq<Format>>)

  /** What the command logs before any validator runs. */
  datatype Message =
    | HelpShown                                          // the command's help is printed
    | AvailableValidators(names: seq<Name>)              // info, for --list
    | RunningAll                                         // info: running all validators
    | UnknownValidator(name: Name, available: seq<Name>) // warning

  /** The result of interpreting the first argument. */
  datatype Selected = Selected(validators: seq<Name>, targets: seq<Target>, messages: seq<Message>)

  /** Everything the command has decided once it is ready to dispatch. */
  datatype Plan = Plan(validators: seq<Name>, targets: seq<Target>, messages: seq<Message>,
                       options: Options, formats: seq<Format>)

  /** Either the command exits before dispatching anything, or it dispatches a plan. */
  datatype Outcome = Finish(code: nat, messages: seq<Message>) | Dispatch(plan: Plan)

  predicate Distinct<T(==)>(s: seq<T>) {
    forall i, j :: 0 <= i < j < |s| ==> s[i] != s[j]
  }

  /** s can be obtained from t by deleting elements: its entries occur in t in
      the same order. */
  predicate Subsequence<T(==)>(s: seq<T>, t: seq<T>)
    decreases |t|
  {
    s == [] || (t != [] && if s[0] == t[0] then Subsequence(s[1..], t[1..]) else Subsequence(s, t[1..]))
  }

  /** The registry entries whose names the list mentions, in registry order. */
  function Select(registry: seq<Name>, vals: seq<Name>): (s: seq<Name>)
    ensures forall n :: n in s <==> n in registry && n in vals
    ensures |s| <= |registry|
  {
    if registry == [] then []
    else (if registry[0] in vals then [registry[0]] else []) + Select(registry[1..], vals)
  }

  /** The list items that name no registered validator, in list order, repeats kept. */
  function Unknown(vals: seq<Name>, registry: seq<Name>): (u: seq<Name>)
    ensures forall n :: n in u <==> n in vals && n !in registry
    ensures forall n :: n !in registry ==> multiset(u)[n] == multiset(vals)[n]
    ensures Subsequence(u, vals)
  {
    if vals == [] then []
    else
      assert vals == [vals[0]] + vals[1..];
      var rest := Unknown(vals[1..], registry);
      if vals[0] in registry then
        assert rest != [] ==> rest[0] in rest;
        rest
      else
        assert ([vals[0]] + rest)[1..] == rest;
        [vals[0]] + rest
  }

  /** One warning per unknown name, in the same order, each listing the
      available validators. */
  function Warnings(unknown: seq<Name>, registry: seq<Name>): (w: seq<Message>)
    ensures |w| == |unknown|
    ensures forall i :: 0 <= i < |w| ==> w[i].UnknownValidator? && w[i].name == unknown[i]
    ensures forall m :: m in w ==> m.UnknownValidator? && m.available == registry
  {
    seq(|unknown|, i requires 0 <= i < |unknown| => UnknownValidator(unknown[i], registry))
  }

  /** The names the warnings among the messages complain about, in order. */
  function WarnedNames(messages: seq<Message>): seq<Name>
  {
    if messages == [] then []
    else (if messages[0].UnknownValidator? then [messages[0].name] else []) + WarnedNames(messages[1..])
  }

  /** Interprets the first positional argument: a comma-separated list of
      validator names, a single validator name, or a target. */
  function SelectFromFirst(registry: seq<Name>, syntax: ListSyntax, args: seq<string>): (s: Selected)
    ensures forall v :: v in s.validators ==> v in registry
  {
    if args == [] then Selected(registry, [], [RunningAll])
    else if syntax.isList(args[0]) then
      var vals := syntax.split(args[0]);
      Selected(Select(registry, vals), [], Warnings(Unknown(vals, registry), registry))
    else if args[0] in registry then Selected([args[0]], [], [])
    else Selected(registry, [args[0]], [RunningAll])
  }

  /** The options hash: a `targets` key only for a non-empty target list, and
      the two switches only when their flags are present. */
  function OptionsFor(targets: seq<Target>, flags: Flags): (o: Options)
    ensures o.targets.Some? <==> targets != []
    ensures o.targets.Some? ==> o.targets.value == targets
    ensures o.autoCorrect <==> flags.autoCorrect
    ensures o.parallel <==> flags.parallel
  {
    Options(if targets == [] then None else Some(targets), flags.autoCorrect, flags.parallel)
  }

  /** The formats the report goes to: the given ones, or the one default pair. */
  function FormatsFor(flags: Flags, defaultFormat: Format): (formats: seq<Format>)
    ensures flags.format.Some? ==> formats == flags.format.value
    ensures flags.format.None? ==> formats == [defaultFormat]
  {
    match flags.format
    case Some(formats) => formats
    case None => [defaultFormat]
  }

  /** What the command decides before dispatching. */
  function Prepare(env: Environment, flags: Flags, args: seq<string>): (o: Outcome)
    ensures o.Finish? <==> args == ["help"] || flags.list
    ensures o.Finish? ==> o.code == 0
    ensures o.Dispatch? ==> forall v :: v in o.plan.validators ==> v in env.registry
  {
    if args == ["help"] then Finish(0, [HelpShown])
    else if flags.list then Finish(0, [AvailableValidators(env.registry)])
    else
      var s := SelectFromFirst(env.registry, env.syntax, args);
      var targets := s.targets + (if |args| > 1 then args[1..] else []);
      Dispatch(Plan(s.validators, targets, s.messages, OptionsFor(targets, flags),
                    FormatsFor(flags, env.defaultFormat)))
  }

  /** Help is shown for the lone argument `help`, whatever the flags; otherwise
      --list reports every registered name. Both exit 0. */
  lemma HelpThenList(env: Environment, flags: Flags, args: seq<string>)
    ensures args == ["help"] ==> Prepare(env, flags, args) == Finish(0, [HelpShown])
    ensures args != ["help"] && flags.list ==>
              Prepare(env, flags, args) == Finish(0, [AvailableValidators(env.registry)])
  {
  }

  /** With no positional arguments every registered validator runs, in registry
      order, on no explicit target, after one "running all" notice. */
  lemma NoArgumentsSelectsAll(env: Environment, flags: Flags)
    requires !flags.list
    ensures var o := Prepare(env, flags, []);
            o.Dispatch? && o.plan.validators == env.registry && o.plan.targets == []
            && o.plan.messages == [RunningAll] && o.plan.options.targets == None
  {
  }

  /** The names the warnings are about are exactly the unknown list items. */
  lemma {:induction false} WarnedNamesOfWarnings(unknown: seq<Name>, registry: seq<Name>)
    ensures WarnedNames(Warnings(unknown, registry)) == unknown
  {
    if unknown != [] {
      WarnedNamesOfWarnings(unknown[1..], registry);
      assert Warnings(unknown, registry)[1..] == Warnings(unknown[1..], registry);
    }
  }

  /**
   * A comma-separated first argument selects exactly the registry entries it
   * names, in registry order; each item that is not a registered name is
   * warned about once per occurrence and then dropped; no item becomes a target.
   */
  lemma CommaList(env: Environment, flags: Flags, args: seq<string>)
    requires !flags.list && args != [] && args != ["help"]
    requires env.syntax.isList(args[0])
    ensures var o := Prepare(env, flags, args);
            var vals := env.syntax.split(args[0]);
            o.Dispatch?
            && o.plan.validators == Select(env.registry, vals)
            && (forall n :: n in o.plan.validators <==> n in env.registry && n in vals)
            && o.plan.targets == args[1..]
            && (forall m :: m in o.plan.messages ==>
                  m.UnknownValidator? && m.name in vals && m.name !in env.registry
                  && m.available == env.registry)
            && (forall n :: n !in env.registry ==>
                  multiset(WarnedNames(o.plan.messages))[n] == multiset(vals)[n])
            && (forall n :: n in env.registry ==> n !in WarnedNames(o.plan.messages))
  {
    var vals := env.syntax.split(args[0]);
    WarnedNamesOfWarnings(Unknown(vals, env.registry), env.registry);
  }

  /** The unknown-validator warnings of a comma-separated list come in list
      order: they name exactly the unregistered items, as a subsequence of the
      list. */
  lemma CommaListWarnsInListOrder(env: Environment, flags: Flags, args: seq<string>)
    requires !flags.list && args != [] && args != ["help"]
    requires env.syntax.isList(args[0])
    ensures var o := Prepare(env, flags, args);
            var vals := env.syntax.split(args[0]);
            o.Dispatch?
            && WarnedNames(o.plan.messages) == Unknown(vals, env.registry)
            && Subsequence(WarnedNames(o.plan.messages), vals)
  {
    WarnedNamesOfWarnings(Unknown(env.syntax.split(args[0]), env.registry), env.registry);
  }

  /** A list that names no registered validator selects nothing. */
  lemma {:induction false} SelectNoneKnown(registry: seq<Name>, vals: seq<Name>)
    requires forall n :: n in vals ==> n !in registry
    ensures Select(registry, vals) == []
  {
    if registry != [] {
      assert registry[0] in registry;
      SelectNoneKnown(registry[1..], vals);
    }
  }

  /** The selection from a list depends only on which names it mentions: not
      on their order, nor on repeats. */
  lemma {:induction false} SelectIgnoresListOrder(registry: seq<Name>, a: seq<Name>, b: seq<Name>)
    requires forall n :: n in a <==> n in b
    ensures Select(registry, a) == Select(registry, b)
  {
    if registry != [] {
      SelectIgnoresListOrder(registry[1..], a, b);
    }
  }

  /** Dropping the head of a registry without repeats leaves one without
      repeats, and without the head. */
  lemma DistinctTail(registry: seq<Name>)
    requires Distinct(registry) && registry != []
    ensures Distinct(registry[1..]) && registry[0] !in registry[1..]
  {
    var tail := registry[1..];
    forall p, q | 0 <= p < q < |tail| ensures tail[p] != tail[q] {
      assert tail[p] == registry[p + 1] && tail[q] == registry[q + 1];
    }
    forall k | 0 <= k < |tail| ensures tail[k] != registry[0] {
      assert tail[k] == registry[k + 1];
    }
  }

  /** Over a registry without repeated names, the selection has no repeats. */
  lemma {:induction false} SelectDistinct(registry: seq<Name>, vals: seq<Name>)
    requires Distinct(registry)
    ensures Distinct(Select(registry, vals))
  {
    if registry != [] {
      DistinctTail(registry);
      SelectDistinct(registry[1..], vals);
    }
  }

  /** The selection is a subsequence of the registry: it keeps registry order. */
  lemma {:induction false} SelectFollowsRegistryOrder(registry: seq<Name>, vals: seq<Name>)
    ensures Subsequence(Select(registry, vals), registry)
  {
    if registry != [] {
      var s, rest := Select(registry, vals), Select(registry[1..], vals);
      SelectFollowsRegistryOrder(registry[1..], vals);
      if registry[0] in vals {
        assert s == [registry[0]] + rest;
        assert s[1..] == rest;
      } else {
        assert s == rest;
        if rest != [] {
          assert rest[0] in rest;
        }
      }
    }
  }

  /** A lone registered name selects exactly that validator and adds no target. */
  lemma SingleValidatorName(env: Environment, flags: Flags, args: seq<string>)
    requires !flags.list && args != [] && args != ["help"]
    requires !env.syntax.isList(args[0]) && args[0] in env.registry
    ensures var o := Prepare(env, flags, args);
            o.Dispatch? && o.plan.validators == [args[0]] && o.plan.targets == args[1..]
            && o.plan.messages == []
  {
  }

  /** A first argument that is neither a list nor a registered name is the
      first target: all validators stay selected and "running all" is logged. */
  lemma FirstArgumentIsTarget(env: Environment, flags: Flags, args: seq<string>)
    requires !flags.list && args != [] && args != ["help"]
    requires !env.syntax.isList(args[0]) && args[0] !in env.registry
    ensures var o := Prepare(env, flags, args);
            o.Dispatch? && o.plan.validators == env.registry && o.plan.targets == args
            && o.plan.messages == [RunningAll]
  {
  }

  /**
   * Whatever branch is taken, the arguments after the first are the last
   * targets, in their given order, and only the first argument can come
   * before them. The options hold the targets exactly when there are some,
   * and each switch exactly when its flag is given; the formats default to
   * the one default pair.
   */
  lemma LaterArgumentsAreTargets(env: Environment, flags: Flags, args: seq<string>)
    requires !flags.list && args != ["help"]
    ensures var o := Prepare(env, flags, args);
            o.Dispatch?
            && (args == [] ==> o.plan.targets == [])
            && (args != [] ==> o.plan.targets == args[1..] || o.plan.targets == args)
            && (o.plan.options.targets.Some? <==> o.plan.targets != [])
            && (o.plan.options.targets.Some? ==> o.plan.options.targets.value == o.plan.targets)
            && (o.plan.options.autoCorrect <==> flags.autoCorrect)
            && (o.plan.options.parallel <==> flags.parallel)
            && (flags.format.None? ==> o.plan.formats == [env.defaultFormat])
  {
    if args != [] {
      assert [args[0]] + args[1..] == args;
    }
  }
}
