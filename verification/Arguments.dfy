/** The command line of `start.sh` and the precedence of its parameters: arguments are consumed by
    a loop that remembers in a flag whether the next one was already taken as a value, and what
    the command line leaves empty is filled from the specific and then the base configuration. */
module Arguments {
  import opened Common
  import opened Text

  // ---------- the text tools the script uses ----------

  /** `cut -d'=' -f1` and `-f2` on one line; a line without the delimiter is printed whole. */
  function CutLine(line: string, second: bool): string {
    var n := Position(line, '=');
    if n == |line| then line
    else if !second then line[..n]
    else line[n + 1..][..Position(line[n + 1..], '=')]
  }

  /** The same on every line of a text. */
  function CutText(s: string, second: bool): string {
    var n := Position(s, '\n');
    if n == |s| then CutLine(s, second)
    else CutLine(s[..n], second) + "\n" + CutText(s[n + 1..], second)
  }

  /** Command substitution drops trailing newlines. */
  function Stripped(s: string): string {
    if s != [] && s[|s| - 1] == '\n' then Stripped(s[..|s| - 1]) else s
  }

  function Cut(s: string, second: bool): string {
    Stripped(CutText(s, second))
  }

  // ---------- from arguments to items ----------

  /** A key with its value; a nameless argument has an empty key. */
  datatype Item = Item(key: string, value: string)

  predicate Dash(s: string) {
    s != "" && s[0] == '-'
  }

  function ArgumentAt(args: seq<string>, i: nat): string {
    if i < |args| then args[i] else ""
  }

  /** Whether argument `i` is taken as the value of the one before it. No state of the loop is
      needed to tell. */
  predicate Swallowed(args: seq<string>, i: nat) {
    0 < i < |args| && Dash(args[i - 1]) && '=' !in args[i - 1] && !Dash(args[i])
  }

  function ItemOf(syntax: Syntax, arg: string, next: string): Item {
    if !Dash(arg) then Item("", arg)
    else if '=' in arg then syntax.split(arg)
    else Item(arg, if Dash(next) then "" else next)
  }

  function ItemAt(syntax: Syntax, args: seq<string>, i: nat): Item
    requires i < |args|
  {
    ItemOf(syntax, args[i], ArgumentAt(args, i + 1))
  }

  /** What each argument starts: nothing, if it is swallowed, or an item. */
  function Slots(syntax: Syntax, args: seq<string>): (r: seq<Option<Item>>)
    ensures |r| == |args|
  {
    seq(|args|, i requires 0 <= i < |args| => if Swallowed(args, i) then None else Some(ItemAt(syntax, args, i)))
  }

  function Collect(slots: seq<Option<Item>>): seq<Item> {
    if slots == [] then [] else
    var front, last := Collect(slots[..|slots| - 1]), slots[|slots| - 1];
    if last.Some? then front + [last.value] else front
  }

  /** The items that start among the first `n` arguments. */
  function ItemsUpTo(syntax: Syntax, args: seq<string>, n: nat): seq<Item>
    requires n <= |args|
  {
    Collect(Slots(syntax, args)[..n])
  }

  function Items(syntax: Syntax, args: seq<string>): seq<Item> {
    Collect(Slots(syntax, args))
  }

  lemma ItemsAreUpToEnd(syntax: Syntax, args: seq<string>)
    ensures Items(syntax, args) == ItemsUpTo(syntax, args, |args|)
  {
    assert Slots(syntax, args)[..|args|] == Slots(syntax, args);
  }

  lemma ItemsStep(syntax: Syntax, args: seq<string>, n: nat, item: Item, swallowed: bool)
    requires n < |args| && item == ItemAt(syntax, args, n) && swallowed == Swallowed(args, n)
    ensures ItemsUpTo(syntax, args, n + 1)
            == if swallowed then ItemsUpTo(syntax, args, n) else ItemsUpTo(syntax, args, n) + [item]
  {
    var slots := Slots(syntax, args);
    assert slots[..n + 1][..n] == slots[..n] && slots[..n + 1][n] == slots[n];
  }

  // ---------- what an item does ----------

  datatype Var =
    | CONFIG | SDL_CORE | REPORT_PATH | SDL_SRC | SDL_MOBILE_API | SDL_HMI_API | JOBS | THIRD_PARTY
    | FORCE_PARALLELS | TMP_PATH | SAVE_SDL_LOG | SAVE_SDL_CORE_DUMP | COPY_TS | TEST_ID
    | TEST_TARGET | SDL_PROCESS_NAME | IS_REMOTE_ENABLED

  /** What a known key does: take the value for a variable, raise a flag, or show the help. */
  datatype Action = Takes(v: Var) | Raises(v: Var) | ShowsHelp

  /** How a command line is read: the known keys, and how an argument with `=` is split. */
  datatype Syntax = Syntax(keys: map<string, Action>, split: string -> Item)

  /** The keys `start.sh` knows. */
  const START_KEYS: map<string, Action> := map[
    "--config" := Takes(CONFIG),
    "--sdl-core" := Takes(SDL_CORE),
    "--report" := Takes(REPORT_PATH),
    "--sdl-src" := Takes(SDL_SRC),
    "--sdl-mobile-api" := Takes(SDL_MOBILE_API),
    "--sdl-hmi-api" := Takes(SDL_HMI_API),
    "-j" := Takes(JOBS),
    "--jobs" := Takes(JOBS),
    "--third-party" := Takes(THIRD_PARTY),
    "--parallels" := Raises(FORCE_PARALLELS),
    "--tmp" := Takes(TMP_PATH),
    "--sdl-log" := Takes(SAVE_SDL_LOG),
    "--sdl-core-dump" := Takes(SAVE_SDL_CORE_DUMP),
    "--copy-atf-ts" := Raises(COPY_TS),
    "-h" := ShowsHelp,
    "--help" := ShowsHelp,
    "-help" := ShowsHelp,
    "--h" := ShowsHelp,
    "--test-id" := Takes(TEST_ID)
  ]

  /** `ARG_KEY` and `ARG_VAL` of an argument with `=`. */
  function CutItem(arg: string): Item {
    Item(Cut(arg, false), Cut(arg, true))
  }

  /** The syntax of `start.sh`. */
  const START: Syntax := Syntax(START_KEYS, CutItem)

  datatype Effect = Assign(v: Var, value: string) | Help | Unknown | Nameless(value: string)

  /** The `case` statement, for any table of known keys. */
  function EffectOf(syntax: Syntax, item: Item): Effect {
    if item.key in syntax.keys then
      match syntax.keys[item.key]
      case Takes(v) => Assign(v, item.value)
      case Raises(v) => Assign(v, "true")
      case ShowsHelp => Help
    else if Dash(item.key) then Unknown
    else Nameless(item.value)
  }

  predicate Stops(syntax: Syntax, item: Item) {
    EffectOf(syntax, item).Help? || EffectOf(syntax, item).Unknown?
  }

  predicate Sets(syntax: Syntax, item: Item, v: Var) {
    EffectOf(syntax, item).Assign? && EffectOf(syntax, item).v == v
  }

  /** The value of a variable after the items: the one of the last item that sets it, even an
      empty one, and otherwise what it was before. */
  function ValueAfter(syntax: Syntax, items: seq<Item>, v: Var, initial: string): string {
    if items == [] then initial else
    var last := items[|items| - 1];
    if Sets(syntax, last, v) then EffectOf(syntax, last).value else ValueAfter(syntax, items[..|items| - 1], v, initial)
  }

  function NamelessOf(syntax: Syntax, items: seq<Item>): seq<string> {
    if items == [] then [] else
    var last := EffectOf(syntax, items[|items| - 1]);
    var before := NamelessOf(syntax, items[..|items| - 1]);
    if last.Nameless? then before + [last.value] else before
  }

  type Vars = map<Var, string>

  /** Unset and empty are the same to the script. */
  function Get(vars: Vars, v: Var): string {
    if v in vars then vars[v] else ""
  }

  datatype Outcome = Exit(code: int) | Parsed

  /** How the loop ends: the first item that asks for help or has an unknown key ends the script. */
  function OutcomeOf(syntax: Syntax, items: seq<Item>): Outcome {
    if items == [] then Parsed else
    var before := OutcomeOf(syntax, items[..|items| - 1]);
    if before.Exit? then before else
    match EffectOf(syntax, items[|items| - 1])
    case Help => Exit(0)
    case Unknown => Exit(1)
    case _ => Parsed
  }

  ghost predicate Agrees(syntax: Syntax, vars: Vars, initial: Vars, items: seq<Item>) {
    forall v: Var :: Get(vars, v) == ValueAfter(syntax, items, v, Get(initial, v))
  }

  // ---------- filling from the configurations ----------

  /** The parameters `build_parameters` looks up. */
  predicate Configurable(v: Var) {
    || v == SDL_PROCESS_NAME || v == REPORT_PATH || v == SDL_CORE || v == SDL_SRC
    || v == SDL_MOBILE_API || v == SDL_HMI_API || v == IS_REMOTE_ENABLED
  }

  function FirstNonEmpty(a: string, b: string, c: string): string {
    if a != "" then a else if b != "" then b else c
  }

  /** The parameters a configuration defines, as looked up in its files. */
  type Config = map<Var, string>

  type Configs = map<string, Config>

  /** What the configuration chosen by name says about a parameter; no name, no say. */
  function Specific(configs: Configs, name: string, v: Var): string {
    if name != "" && name in configs then Get(configs[name], v) else ""
  }

  /** A variable that is empty takes a value that is not. */
  function Filled(vars: Vars, v: Var, value: string): Vars {
    if Get(vars, v) == "" && value != "" then vars[v := value] else vars
  }

  lemma FilledGet(vars: Vars, v: Var, value: string, w: Var)
    ensures Get(Filled(vars, v, value), w) == if w == v && Get(vars, w) == "" then value else Get(vars, w)
  {
  }

  /** All of them in the order of `build_parameters`. */
  function FilledFrom(vars: Vars, config: Config): Vars {
    var a := Filled(vars, SDL_PROCESS_NAME, Get(config, SDL_PROCESS_NAME));
    var b := Filled(a, REPORT_PATH, Get(config, REPORT_PATH));
    var c := Filled(b, SDL_CORE, Get(config, SDL_CORE));
    var d := Filled(c, SDL_SRC, Get(config, SDL_SRC));
    var e := Filled(d, SDL_MOBILE_API, Get(config, SDL_MOBILE_API));
    var f := Filled(e, SDL_HMI_API, Get(config, SDL_HMI_API));
    Filled(f, IS_REMOTE_ENABLED, Get(config, IS_REMOTE_ENABLED))
  }

  lemma ConfigFills(vars: Vars, config: Config)
    ensures forall w: Var :: Get(FilledFrom(vars, config), w)
              == if Configurable(w) && Get(vars, w) == "" then Get(config, w) else Get(vars, w)
  {
    forall w: Var
      ensures Get(FilledFrom(vars, config), w)
              == if Configurable(w) && Get(vars, w) == "" then Get(config, w) else Get(vars, w)
    {
      ConfigFillsAt(vars, config, w);
    }
  }

  lemma ConfigFillsAt(vars: Vars, config: Config, w: Var)
    ensures Get(FilledFrom(vars, config), w)
            == if Configurable(w) && Get(vars, w) == "" then Get(config, w) else Get(vars, w)
  {
    var a := Filled(vars, SDL_PROCESS_NAME, Get(config, SDL_PROCESS_NAME));
    var b := Filled(a, REPORT_PATH, Get(config, REPORT_PATH));
    var c := Filled(b, SDL_CORE, Get(config, SDL_CORE));
    FirstThree(vars, config, w, c);
    var d := Filled(c, SDL_SRC, Get(config, SDL_SRC));
    FilledGet(c, SDL_SRC, Get(config, SDL_SRC), w);
    var e := Filled(d, SDL_MOBILE_API, Get(config, SDL_MOBILE_API));
    FilledGet(d, SDL_MOBILE_API, Get(config, SDL_MOBILE_API), w);
    var f := Filled(e, SDL_HMI_API, Get(config, SDL_HMI_API));
    FilledGet(e, SDL_HMI_API, Get(config, SDL_HMI_API), w);
    FilledGet(f, IS_REMOTE_ENABLED, Get(config, IS_REMOTE_ENABLED), w);
  }

  lemma FirstThree(vars: Vars, config: Config, w: Var, filled: Vars)
    requires var a := Filled(vars, SDL_PROCESS_NAME, Get(config, SDL_PROCESS_NAME));
             var b := Filled(a, REPORT_PATH, Get(config, REPORT_PATH));
             filled == Filled(b, SDL_CORE, Get(config, SDL_CORE))
    ensures Get(filled, w) == if (w == SDL_PROCESS_NAME || w == REPORT_PATH || w == SDL_CORE) && Get(vars, w) == ""
                              then Get(config, w) else Get(vars, w)
  {
    var a := Filled(vars, SDL_PROCESS_NAME, Get(config, SDL_PROCESS_NAME));
    FilledGet(vars, SDL_PROCESS_NAME, Get(config, SDL_PROCESS_NAME), w);
    FilledGet(a, REPORT_PATH, Get(config, REPORT_PATH), w);
    FilledGet(Filled(a, REPORT_PATH, Get(config, REPORT_PATH)), SDL_CORE, Get(config, SDL_CORE), w);
  }

  class Shell {
    const syntax: Syntax
    var vars: Vars

    constructor (syntax: Syntax, vars: Vars)
      ensures this.syntax == syntax && this.vars == vars
    {
      this.syntax, this.vars := syntax, vars;
    }

    /** `parse_arguments`. The first item asking for help or with an unknown key ends the script;
        without one, every variable has its value from its last item and the test target is the
        first nameless argument. */
    method ParseArguments(args: seq<string>) returns (outcome: Outcome)
      modifies this
      ensures args == [] ==> outcome == Exit(0)
      ensures args != [] ==> outcome == OutcomeOf(syntax, Items(syntax, args))
      ensures outcome == Parsed ==> forall v: Var ::
                Get(vars, v) == if v == TEST_TARGET && NamelessOf(syntax, Items(syntax, args)) != []
                                then NamelessOf(syntax, Items(syntax, args))[0]
                                else ValueAfter(syntax, Items(syntax, args), v, Get(old(vars), v))
    {
      if args == [] {
        return Exit(0);
      }
      var counter, skipNext, nameless := 0, false, [];
      while counter < |args|
        invariant 0 <= counter <= |args|
        invariant counter < |args| ==> skipNext == Swallowed(args, counter)
        invariant nameless == NamelessOf(syntax, ItemsUpTo(syntax, args, counter))
        invariant OutcomeOf(syntax, ItemsUpTo(syntax, args, counter)) == Parsed
        invariant Agrees(syntax, vars, old(vars), ItemsUpTo(syntax, args, counter))
      {
        var arg := args[counter];
        ghost var before := ItemsUpTo(syntax, args, counter);
        ItemsStep(syntax, args, counter, ItemAt(syntax, args, counter), Swallowed(args, counter));
        counter := counter + 1;
        var next := ArgumentAt(args, counter);
        if skipNext {
          skipNext := false;
          continue;
        }
        var item;
        item, skipNext := ReadItem(arg, next);
        assert item == ItemAt(syntax, args, counter - 1);
        OneMoreItem(syntax, before, item);
        match EffectOf(syntax, item)
        case Assign(v, x) =>
          AgreesAfterAssign(syntax, vars, old(vars), before, item);
          vars := vars[v := x];
        case Help =>
          ExitIsFinal(syntax, args, counter, |args|);
          ItemsAreUpToEnd(syntax, args);
          return Exit(0);
        case Unknown =>
          ExitIsFinal(syntax, args, counter, |args|);
          ItemsAreUpToEnd(syntax, args);
          return Exit(1);
        case Nameless(x) =>
          nameless := nameless + [x];
      }
      ItemsAreUpToEnd(syntax, args);
      if |nameless| > 0 {
        vars := vars[TEST_TARGET := nameless[0]];
      }
      outcome := Parsed;
    }

    /** The key and value an argument gives, and whether it takes the next one. */
    method ReadItem(arg: string, next: string) returns (item: Item, skipNext: bool)
      ensures item == ItemOf(syntax, arg, next)
      ensures skipNext <==> Dash(arg) && '=' !in arg && !Dash(next)
    {
      if Dash(arg) {
        if '=' in arg {
          item, skipNext := syntax.split(arg), false;
        } else if !Dash(next) {
          item, skipNext := Item(arg, next), true;
        } else {
          item, skipNext := Item(arg, ""), false;
        }
      } else {
        item, skipNext := Item("", arg), false;
      }
    }

    /** `set_param` with the value found in a configuration. */
    method SetParam(v: Var, value: string)
      modifies this
      ensures vars == Filled(old(vars), v, value)
    {
      if Get(vars, v) == "" && value != "" {
        vars := vars[v := value];
      }
    }

    /** The calls of `set_param` for one configuration. */
    method SetParams(config: Config)
      modifies this
      ensures forall v: Var :: Get(vars, v) == if Configurable(v) && Get(old(vars), v) == "" then Get(config, v)
                                              else Get(old(vars), v)
    {
      SetParam(SDL_PROCESS_NAME, Get(config, SDL_PROCESS_NAME));
      SetParam(REPORT_PATH, Get(config, REPORT_PATH));
      SetParam(SDL_CORE, Get(config, SDL_CORE));
      SetParam(SDL_SRC, Get(config, SDL_SRC));
      SetParam(SDL_MOBILE_API, Get(config, SDL_MOBILE_API));
      SetParam(SDL_HMI_API, Get(config, SDL_HMI_API));
      SetParam(IS_REMOTE_ENABLED, Get(config, IS_REMOTE_ENABLED));
      ConfigFills(old(vars), config);
    }

    /** `build_parameters` */
    method BuildParameters(configs: Configs, base: Config)
      modifies this
      ensures forall v: Var | Configurable(v) ::
                Get(vars, v) == FirstNonEmpty(Get(old(vars), v), Specific(configs, Get(old(vars), CONFIG), v),
                                              Get(base, v))
      ensures forall v: Var | !Configurable(v) :: Get(vars, v) == Get(old(vars), v)
    {
      var name := Get(vars, CONFIG);
      if name != "" {
        SetParams(if name in configs then configs[name] else map[]);
      }
      SetParams(base);
    }

    /** Both in order: every parameter of the configurations ends as the first non-empty of command
        line, specific configuration and base configuration, and the others as the command line
        leaves them. */
    method Start(args: seq<string>, configs: Configs, base: Config) returns (outcome: Outcome)
      modifies this
      ensures outcome == if args == [] then Exit(0) else OutcomeOf(syntax, Items(syntax, args))
      ensures outcome == Parsed ==> forall v: Var | Configurable(v) ::
                Get(vars, v) == FinalValue(syntax, args, old(vars), configs, base, v)
      ensures outcome == Parsed ==> forall v: Var | !Configurable(v) && v != TEST_TARGET ::
                Get(vars, v) == ValueAfter(syntax, Items(syntax, args), v, Get(old(vars), v))
    {
      outcome := ParseArguments(args);
      if outcome == Parsed {
        BuildParameters(configs, base);
      }
    }
  }

  /** The value a parameter ends with. */
  function FinalValue(syntax: Syntax, args: seq<string>, initial: Vars, configs: Configs, base: Config, v: Var): string
  {
    var items := Items(syntax, args);
    FirstNonEmpty(ValueAfter(syntax, items, v, Get(initial, v)),
                  Specific(configs, ValueAfter(syntax, items, CONFIG, Get(initial, CONFIG)), v), Get(base, v))
  }

  lemma OneMoreItem(syntax: Syntax, items: seq<Item>, item: Item)
    ensures forall v, initial :: ValueAfter(syntax, items + [item], v, initial)
              == if Sets(syntax, item, v) then EffectOf(syntax, item).value else ValueAfter(syntax, items, v, initial)
    ensures NamelessOf(syntax, items + [item])
              == if EffectOf(syntax, item).Nameless? then NamelessOf(syntax, items) + [EffectOf(syntax, item).value]
                 else NamelessOf(syntax, items)
    ensures OutcomeOf(syntax, items) == Parsed ==>
              OutcomeOf(syntax, items + [item]) == match EffectOf(syntax, item)
                                                    case Help => Exit(0)
                                                    case Unknown => Exit(1)
                                                    case _ => Parsed
  {
  }

  /** The items of a shorter stretch are the first items of the whole. */
  lemma {:induction false} ItemsGrow(syntax: Syntax, args: seq<string>, m: nat, n: nat)
    requires m <= n <= |args|
    ensures ItemsUpTo(syntax, args, m) <= ItemsUpTo(syntax, args, n)
  {
    if m < n {
      ItemsGrow(syntax, args, m, n - 1);
      ItemsStep(syntax, args, n - 1, ItemAt(syntax, args, n - 1), Swallowed(args, n - 1));
    }
  }

  lemma AgreesAfterAssign(syntax: Syntax, vars: Vars, initial: Vars, items: seq<Item>, item: Item)
    requires Agrees(syntax, vars, initial, items) && EffectOf(syntax, item).Assign?
    ensures var effect := EffectOf(syntax, item);
            Agrees(syntax, vars[effect.v := effect.value], initial, items + [item])
  {
  }

  lemma {:induction false} ExitIsFinal(syntax: Syntax, args: seq<string>, m: nat, n: nat)
    requires m <= n <= |args| && OutcomeOf(syntax, ItemsUpTo(syntax, args, m)).Exit?
    ensures OutcomeOf(syntax, ItemsUpTo(syntax, args, n)) == OutcomeOf(syntax, ItemsUpTo(syntax, args, m))
  {
    if m < n {
      ExitIsFinal(syntax, args, m, n - 1);
      var before, item := ItemsUpTo(syntax, args, n - 1), ItemAt(syntax, args, n - 1);
      var swallowed := Swallowed(args, n - 1);
      ItemsStep(syntax, args, n - 1, item, swallowed);
      assert (before + [item])[..|before|] == before;
    }
  }

  /** The script reads on exactly when no item stops it. */
  lemma {:induction false} ParsedIffNoStop(syntax: Syntax, items: seq<Item>)
    ensures OutcomeOf(syntax, items) == Parsed <==> forall i :: 0 <= i < |items| ==> !Stops(syntax, items[i])
  {
    if items != [] {
      var front := items[..|items| - 1];
      ParsedIffNoStop(syntax, front);
      assert items == front + [items[|items| - 1]];
    }
  }

  /** Otherwise it ends with the code of the first item that does. */
  lemma {:induction false} OutcomeIsFirstStop(syntax: Syntax, items: seq<Item>, i: nat)
    requires i < |items| && Stops(syntax, items[i]) && forall j :: 0 <= j < i ==> !Stops(syntax, items[j])
    ensures OutcomeOf(syntax, items) == Exit(if EffectOf(syntax, items[i]).Help? then 0 else 1)
  {
    var front := items[..|items| - 1];
    if i == |front| {
      ParsedIffNoStop(syntax, front);
    } else {
      OutcomeIsFirstStop(syntax, front, i);
    }
  }

  // ---------- precedence ----------

  lemma {:induction false} LastItemWins(syntax: Syntax, items: seq<Item>, v: Var, initial: string, i: nat)
    requires i < |items| && Sets(syntax, items[i], v)
    requires forall j :: i < j < |items| ==> !Sets(syntax, items[j], v)
    ensures ValueAfter(syntax, items, v, initial) == EffectOf(syntax, items[i]).value
  {
    if i < |items| - 1 {
      LastItemWins(syntax, items[..|items| - 1], v, initial, i);
    }
  }

  lemma {:induction false} UnsetKeeps(syntax: Syntax, items: seq<Item>, v: Var, initial: string)
    requires forall j :: 0 <= j < |items| ==> !Sets(syntax, items[j], v)
    ensures ValueAfter(syntax, items, v, initial) == initial
  {
    if items != [] {
      UnsetKeeps(syntax, items[..|items| - 1], v, initial);
    }
  }

  /** Command line over specific over base configuration, with the last option for a parameter
      winning; an empty value on the command line hands over to the configurations and hides a
      value inherited from the environment. */
  lemma Precedence(syntax: Syntax, args: seq<string>, initial: Vars, configs: Configs, base: Config, v: Var, i: nat)
    requires Configurable(v) && i < |Items(syntax, args)| && Sets(syntax, Items(syntax, args)[i], v)
    requires forall j :: i < j < |Items(syntax, args)| ==> !Sets(syntax, Items(syntax, args)[j], v)
    ensures var config := ValueAfter(syntax, Items(syntax, args), CONFIG, Get(initial, CONFIG));
            var given := EffectOf(syntax, Items(syntax, args)[i]).value;
            FinalValue(syntax, args, initial, configs, base, v)
            == if given != "" then given
               else if config in configs && config != "" && Get(configs[config], v) != "" then Get(configs[config], v)
               else Get(base, v)
  {
    LastItemWins(syntax, Items(syntax, args), v, Get(initial, v), i);
  }

  /** The value by the documented priorities alone: what is inherited from the environment does not
      count. */
  function Documented(syntax: Syntax, args: seq<string>, configs: Configs, base: Config, v: Var): string {
    FinalValue(syntax, args, map[], configs, base, v)
  }

  predicate SetOnCommandLine(syntax: Syntax, args: seq<string>, v: Var) {
    exists i :: 0 <= i < |Items(syntax, args)| && Sets(syntax, Items(syntax, args)[i], v)
  }

  /** No value of the variable comes from the environment. */
  predicate NotInherited(syntax: Syntax, args: seq<string>, initial: Vars, v: Var) {
    SetOnCommandLine(syntax, args, v) || Get(initial, v) == ""
  }

  lemma {:induction false} ValueSplits(syntax: Syntax, items: seq<Item>, v: Var, initial: string)
    ensures (exists i :: 0 <= i < |items| && Sets(syntax, items[i], v)) ==>
              ValueAfter(syntax, items, v, initial) == ValueAfter(syntax, items, v, "")
    ensures (forall i :: 0 <= i < |items| ==> !Sets(syntax, items[i], v)) ==>
              ValueAfter(syntax, items, v, initial) == initial
  {
    if items != [] {
      var front := items[..|items| - 1];
      ValueSplits(syntax, front, v, initial);
      assert items == front + [items[|items| - 1]];
    }
  }

  lemma InheritedIff(syntax: Syntax, args: seq<string>, initial: Vars, v: Var)
    ensures NotInherited(syntax, args, initial, v) <==>
              ValueAfter(syntax, Items(syntax, args), v, Get(initial, v))
              == ValueAfter(syntax, Items(syntax, args), v, "")
    ensures !NotInherited(syntax, args, initial, v) ==>
              && ValueAfter(syntax, Items(syntax, args), v, Get(initial, v)) == Get(initial, v)
              && ValueAfter(syntax, Items(syntax, args), v, "") == ""
  {
    ValueSplits(syntax, Items(syntax, args), v, Get(initial, v));
    ValueSplits(syntax, Items(syntax, args), v, "");
  }

  /** Where the choice of the specific configuration matters: the command line gives no value. */
  predicate CommandLineDecides(syntax: Syntax, args: seq<string>, v: Var) {
    ValueAfter(syntax, Items(syntax, args), v, "") != ""
  }

  /** The script follows the documented priorities, whatever the configurations say, exactly when the
      parameter is not inherited from the environment, and neither is the name of the configuration
      unless the command line decides anyway. */
  lemma DocumentedPrioritiesIff(syntax: Syntax, args: seq<string>, initial: Vars, v: Var)
    ensures (forall configs, base :: FinalValue(syntax, args, initial, configs, base, v)
                                     == Documented(syntax, args, configs, base, v))
            <==> && NotInherited(syntax, args, initial, v)
                 && (CommandLineDecides(syntax, args, v) || NotInherited(syntax, args, initial, CONFIG))
  {
    InheritedIff(syntax, args, initial, v);
    InheritedIff(syntax, args, initial, CONFIG);
    if !NotInherited(syntax, args, initial, v) {
      assert FinalValue(syntax, args, initial, map[], map[], v) != Documented(syntax, args, map[], map[], v);
    } else if !CommandLineDecides(syntax, args, v) && !NotInherited(syntax, args, initial, CONFIG) {
      var configs: Configs := map[Get(initial, CONFIG) := map[v := "x"]];
      assert FinalValue(syntax, args, initial, configs, map[], v) == "x";
      assert Documented(syntax, args, configs, map[], v) == "";
    }
  }

  /** For example, when the parameter has no option on the command line, a value left in the
      environment beats the one of the base configuration. */
  lemma EnvironmentBeatsConfig(syntax: Syntax, args: seq<string>, v: Var, inherited: string, configured: string)
    requires !SetOnCommandLine(syntax, args, v) && inherited != ""
    ensures FinalValue(syntax, args, map[v := inherited], map[], map[v := configured], v) == inherited
    ensures Documented(syntax, args, map[], map[v := configured], v) == configured
  {
    UnsetKeeps(syntax, Items(syntax, args), v, inherited);
    UnsetKeeps(syntax, Items(syntax, args), v, "");
  }

  /** Such a command line: a script alone. */
  lemma ScriptAloneSetsNothing(syntax: Syntax, script: string, v: Var)
    requires KeysDashed(syntax) && !Dash(script)
    ensures !SetOnCommandLine(syntax, [script], v)
  {
    NamelessIffNoDash(syntax, [script], 0);
    ItemsOfOne(syntax, script);
  }

  /** The binary's name and the remote switch have no option: the command line cannot set them. */
  lemma NoOptionFor(args: seq<string>, v: Var, initial: string)
    requires v == SDL_PROCESS_NAME || v == IS_REMOTE_ENABLED
    ensures ValueAfter(START, Items(START, args), v, initial) == initial
  {
    forall item: Item
      ensures !Sets(START, item, v)
    {
      NoKeyFor(item.key, v);
    }
    UnsetKeeps(START, Items(START, args), v, initial);
  }

  lemma NoKeyFor(key: string, v: Var)
    requires v == SDL_PROCESS_NAME || v == IS_REMOTE_ENABLED
    ensures key in START_KEYS ==> START_KEYS[key] != Takes(v) && START_KEYS[key] != Raises(v)
  {
  }

  // ---------- the two ways of writing an option ----------

  lemma {:induction false} PositionAfter(a: string, c: char, b: string)
    requires c !in a
    ensures Position(a + b, c) == |a| + Position(b, c)
  {
    if a == [] {
      assert a + b == b;
    } else {
      assert (a + b)[1..] == a[1..] + b;
      PositionAfter(a[1..], c, b);
    }
  }

  lemma {:induction false} StrippedShape(s: string)
    ensures Stripped(s) <= s
    ensures Stripped(s) == s <==> s == [] || s[|s| - 1] != '\n'
    ensures s != [] && s[0] != '\n' ==> Stripped(s) != [] && Stripped(s)[0] == s[0]
  {
    if s != [] && s[|s| - 1] == '\n' {
      StrippedShape(s[..|s| - 1]);
    }
  }

  lemma CutLineWithoutDelimiter(line: string, second: bool)
    requires '=' !in line
    ensures CutLine(line, second) == line
  {
    PositionIsFirst(line, '=');
  }

  lemma {:induction false} CutWithoutDelimiter(s: string, second: bool)
    requires '=' !in s
    ensures CutText(s, second) == s
  {
    var n := Position(s, '\n');
    if n == |s| {
      CutLineWithoutDelimiter(s, second);
    } else {
      CutLineWithoutDelimiter(s[..n], second);
      CutWithoutDelimiter(s[n + 1..], second);
      PositionIsFirst(s, '\n');
      assert s == s[..n] + "\n" + s[n + 1..];
    }
  }

  lemma CutLineDropsDelimiter(line: string, second: bool)
    ensures '=' !in CutLine(line, second)
  {
    var n := Position(line, '=');
    PositionIsFirst(line, '=');
    if n < |line| && second {
      PositionIsFirst(line[n + 1..], '=');
    }
  }

  lemma {:induction false} CutDropsDelimiter(s: string, second: bool)
    ensures '=' !in CutText(s, second)
  {
    var n := Position(s, '\n');
    if n == |s| {
      CutLineDropsDelimiter(s, second);
    } else {
      CutLineDropsDelimiter(s[..n], second);
      CutDropsDelimiter(s[n + 1..], second);
    }
  }

  lemma CutLineKeyValue(key: string, value: string)
    requires '=' !in key
    ensures CutLine(key + "=" + value, false) == key
    ensures CutLine(key + "=" + value, true) == value[..Position(value, '=')]
  {
    var line := key + "=" + value;
    assert line == key + ("=" + value);
    PositionAfter(key, '=', "=" + value);
    assert line[|key| + 1..] == value;
  }

  lemma CutOneLine(line: string, second: bool)
    requires '\n' !in line
    ensures CutText(line, second) == CutLine(line, second)
  {
    PositionIsFirst(line, '\n');
  }

  lemma CutFirstLine(line: string, rest: string, second: bool)
    requires '\n' !in line
    ensures CutText(line + "\n" + rest, second) == CutLine(line, second) + "\n" + CutText(rest, second)
  {
    var s := line + "\n" + rest;
    assert s == line + ("\n" + rest);
    PositionAfter(line, '\n', "\n" + rest);
    assert Position("\n" + rest, '\n') == 0;
    assert s[..|line|] == line && s[|line| + 1..] == rest;
  }

  predicate Plain(value: string) {
    !Dash(value) && '=' !in value && '\n' !in value
  }

  /** The item of an argument `key=value`. */
  function Attached(key: string, value: string): Item {
    CutItem(key + "=" + value)
  }

  /** Exactly for plain values the attached form yields the key and the value of the spaced one. */
  lemma AttachedFormIff(key: string, value: string)
    requires Dash(key) && '=' !in key && '\n' !in key
    ensures Attached(key, value) == Item(key, if Dash(value) then "" else value) <==> Plain(value)
  {
    if Dash(value) {
      DashedValueKept(key, value);
    } else if '=' in value {
      CutDropsDelimiter(key + "=" + value, true);
      StrippedShape(CutText(key + "=" + value, true));
    } else if '\n' in value {
      MultiLineDiffers(key, value);
    } else {
      PlainValueKept(key, value);
    }
  }

  lemma PlainValueKept(key: string, value: string)
    requires key != [] && '=' !in key && '\n' !in key && Plain(value)
    ensures Attached(key, value) == Item(key, value)
  {
    var arg := key + "=" + value;
    CutOneLine(arg, false);
    CutOneLine(arg, true);
    CutLineKeyValue(key, value);
    PositionIsFirst(value, '=');
    StrippedShape(key);
    StrippedShape(value);
  }

  lemma DashedValueKept(key: string, value: string)
    requires '=' !in key && '\n' !in key && Dash(value)
    ensures Attached(key, value).value != ""
  {
    var n, arg := Position(value, '\n'), key + "=" + value;
    PositionIsFirst(value, '\n');
    var line := value[..n];
    CutLineKeyValue(key, line);
    assert Position(line, '=') > 0;
    if n == |value| {
      assert line == value;
      CutOneLine(arg, true);
    } else {
      assert arg == (key + "=" + line) + "\n" + value[n + 1..];
      CutFirstLine(key + "=" + line, value[n + 1..], true);
    }
    StrippedShape(CutText(arg, true));
  }

  lemma MultiLineDiffers(key: string, value: string)
    requires '=' !in key && '\n' !in key && '=' !in value && '\n' in value
    ensures Attached(key, value) != Item(key, value)
  {
    var n := Position(value, '\n');
    PositionIsFirst(value, '\n');
    var line, rest := value[..n], value[n + 1..];
    assert value == line + "\n" + rest;
    assert key + "=" + value == key + "=" + line + "\n" + rest;
    CutTwoLines(key, line, rest, false);
    CutTwoLines(key, line, rest, true);
    assert Attached(key, value) == Item(Stripped(key + "\n" + rest), Stripped(value));
    MultiLineStripped(key, line, rest);
  }

  lemma MultiLineStripped(key: string, line: string, rest: string)
    ensures Stripped(key + "\n" + rest) != key || Stripped(line + "\n" + rest) != line + "\n" + rest
  {
    var value := line + "\n" + rest;
    StrippedShape(value);
    StrippedShape(key + "\n" + rest);
    if Stripped(value) == value {
      assert value[|value| - 1] != '\n';
      assert rest != [] && value[|value| - 1] == rest[|rest| - 1];
      assert |Stripped(key + "\n" + rest)| > |key|;
    }
  }

  lemma CutTwoLines(key: string, line: string, rest: string, second: bool)
    requires '=' !in key && '\n' !in key && '=' !in line && '\n' !in line && '=' !in rest
    ensures CutText(key + "=" + line + "\n" + rest, second) == (if second then line else key) + "\n" + rest
  {
    var first := key + "=" + line;
    CutLineKeyValue(key, line);
    CutLineWithoutDelimiter(line, true);
    PositionIsFirst(line, '=');
    assert CutLine(first, second) == if second then line else key;
    CutFirstLine(first, rest, second);
    CutWithoutDelimiter(rest, second);
  }

  /** The last argument of `a` leaves the first one of `b` alone. */
  predicate Separate(a: seq<string>, b: seq<string>) {
    a == [] || b == [] || Dash(b[0]) || !Dash(a[|a| - 1]) || '=' in a[|a| - 1]
  }

  lemma FrontAlone(syntax: Syntax, a: seq<string>, b: seq<string>, i: nat)
    requires Separate(a, b) && i < |a|
    ensures ItemAt(syntax, a + b, i) == ItemAt(syntax, a, i)
    ensures Swallowed(a + b, i) == Swallowed(a, i)
  {
  }

  lemma BackAlone(syntax: Syntax, a: seq<string>, b: seq<string>, i: nat)
    requires Separate(a, b) && i < |b|
    ensures ItemAt(syntax, a + b, |a| + i) == ItemAt(syntax, b, i)
    ensures Swallowed(a + b, |a| + i) == Swallowed(b, i)
  {
  }

  lemma {:induction false} CollectConcat(a: seq<Option<Item>>, b: seq<Option<Item>>)
    ensures Collect(a + b) == Collect(a) + Collect(b)
  {
    if b == [] {
      assert a + b == a;
    } else {
      var front := b[..|b| - 1];
      CollectConcat(a, front);
      assert (a + b)[..|a + b| - 1] == a + front;
    }
  }

  lemma ItemsOfBoth(syntax: Syntax, a: seq<string>, b: seq<string>)
    requires Separate(a, b)
    ensures Items(syntax, a + b) == Items(syntax, a) + Items(syntax, b)
  {
    var x, y := Slots(syntax, a), Slots(syntax, b);
    forall i | 0 <= i < |a + b|
      ensures Slots(syntax, a + b)[i] == (x + y)[i]
    {
      if i < |a| {
        FrontAlone(syntax, a, b, i);
      } else {
        BackAlone(syntax, a, b, i - |a|);
      }
    }
    assert Slots(syntax, a + b) == x + y;
    CollectConcat(x, y);
  }

  lemma FirstItem(syntax: Syntax, args: seq<string>)
    requires args != []
    ensures Items(syntax, args) != [] && Items(syntax, args)[0] == ItemAt(syntax, args, 0)
  {
    ItemsStep(syntax, args, 0, ItemAt(syntax, args, 0), false);
    ItemsGrow(syntax, args, 1, |args|);
    ItemsAreUpToEnd(syntax, args);
  }

  lemma ItemsOfOne(syntax: Syntax, x: string)
    ensures Items(syntax, [x]) == [ItemAt(syntax, [x], 0)]
  {
    ItemsStep(syntax, [x], 0, ItemAt(syntax, [x], 0), false);
    ItemsAreUpToEnd(syntax, [x]);
  }

  lemma ItemsOfTwo(syntax: Syntax, x: string, y: string)
    ensures var args := [x, y];
            Items(syntax, args) == if Swallowed(args, 1) then [ItemAt(syntax, args, 0)]
                                   else [ItemAt(syntax, args, 0), ItemAt(syntax, args, 1)]
  {
    var args := [x, y];
    ItemsStep(syntax, args, 0, ItemAt(syntax, args, 0), false);
    ItemsStep(syntax, args, 1, ItemAt(syntax, args, 1), Swallowed(args, 1));
    ItemsAreUpToEnd(syntax, args);
  }

  /** `--key=value` and `--key value`, anywhere on the command line and whatever surrounds them, are
      the same items exactly when the value is plain. */
  lemma AttachedIsSpacedIff(pre: seq<string>, key: string, value: string, post: seq<string>)
    requires Dash(key) && '=' !in key && '\n' !in key
    ensures Items(START, pre + ([key + "=" + value] + post)) == Items(START, pre + ([key, value] + post))
            <==> Plain(value)
  {
    var attached, spaced := [key + "=" + value], [key, value];
    ItemsOfBoth(START, pre, attached + post);
    ItemsOfBoth(START, pre, spaced + post);
    HeadItem(key, value, post);
    AttachedFormIff(key, value);
    var x, y := Items(START, attached + post), Items(START, spaced + post);
    assert (Items(START, pre) + x)[|Items(START, pre)|] == x[0] && (Items(START, pre) + y)[|Items(START, pre)|] == y[0];
    if Plain(value) {
      ItemsOfBoth(START, attached, post);
      ItemsOfBoth(START, spaced, post);
      OneItem(key, value);
    }
  }

  lemma HeadItem(key: string, value: string, post: seq<string>)
    requires Dash(key) && '=' !in key
    ensures var a, b := [key + "=" + value] + post, [key, value] + post;
            && Items(START, a) != [] && Items(START, a)[0] == Attached(key, value)
            && Items(START, b) != [] && Items(START, b)[0] == Item(key, if Dash(value) then "" else value)
  {
    FirstItem(START, [key + "=" + value] + post);
    FirstItem(START, [key, value] + post);
    assert '=' in key + "=" + value;
  }

  lemma OneItem(key: string, value: string)
    requires Dash(key) && '=' !in key && !Dash(value)
    ensures Items(START, [key + "=" + value]) == [Attached(key, value)]
    ensures Items(START, [key, value]) == [Item(key, value)]
  {
    assert '=' in key + "=" + value;
    ItemsOfOne(START, key + "=" + value);
    ItemsOfTwo(START, key, value);
  }

  // ---------- nameless arguments ----------

  predicate Positional(args: seq<string>, i: nat) {
    i < |args| && !Dash(args[i]) && !Swallowed(args, i)
  }

  /** The key a dash argument yields always starts with a dash, so it is never taken for nameless. */
  lemma KeyKeepsDash(arg: string)
    requires Dash(arg)
    ensures Dash(Cut(arg, false))
  {
    var n := Position(arg, '\n');
    assert n > 0;
    var line := if n == |arg| then arg else arg[..n];
    assert line[0] == '-' && Position(line, '=') > 0;
    assert CutLine(line, false)[0] == '-';
    StrippedShape(CutText(arg, false));
  }

  /** Every known key starts with a dash, and so does what is split off a dash argument. */
  ghost predicate KeysDashed(syntax: Syntax) {
    && (forall key :: key in syntax.keys ==> Dash(key))
    && (forall arg :: Dash(arg) && '=' in arg ==> Dash(syntax.split(arg).key))
  }

  lemma StartKeysDashed()
    ensures KeysDashed(START)
  {
    forall key | key in START.keys
      ensures Dash(key)
    {
    }
    forall arg | Dash(arg) && '=' in arg
      ensures Dash(START.split(arg).key)
    {
      KeyKeepsDash(arg);
    }
  }

  lemma NamelessIffNoDash(syntax: Syntax, args: seq<string>, i: nat)
    requires KeysDashed(syntax) && i < |args|
    ensures EffectOf(syntax, ItemAt(syntax, args, i)).Nameless? <==> !Dash(args[i])
    ensures !Dash(args[i]) ==> EffectOf(syntax, ItemAt(syntax, args, i)).value == args[i]
  {
  }

  lemma {:induction false} NamelessArePositional(syntax: Syntax, args: seq<string>, n: nat, i: nat)
    requires KeysDashed(syntax) && n <= |args|
    requires Positional(args, i) && forall j :: 0 <= j < i ==> !Positional(args, j)
    ensures NamelessOf(syntax, ItemsUpTo(syntax, args, n)) == [] <==> n <= i
    ensures n > i ==> NamelessOf(syntax, ItemsUpTo(syntax, args, n))[0] == args[i]
  {
    if n > 0 {
      NamelessArePositional(syntax, args, n - 1, i);
      assert n - 1 < i ==> !Positional(args, n - 1);
      ItemsStep(syntax, args, n - 1, ItemAt(syntax, args, n - 1), Swallowed(args, n - 1));
      if !Swallowed(args, n - 1) {
        OneMoreItem(syntax, ItemsUpTo(syntax, args, n - 1), ItemAt(syntax, args, n - 1));
        NamelessIffNoDash(syntax, args, n - 1);
      }
    }
  }

  /** The test target is the first argument that neither starts with a dash nor follows a dash
      argument without `=`: a flag such as `--parallels` swallows a target written after it. */
  lemma TargetIsFirstPositional(syntax: Syntax, args: seq<string>, i: nat)
    requires KeysDashed(syntax)
    requires Positional(args, i) && forall j :: 0 <= j < i ==> !Positional(args, j)
    ensures NamelessOf(syntax, Items(syntax, args)) != [] && NamelessOf(syntax, Items(syntax, args))[0] == args[i]
  {
    NamelessArePositional(syntax, args, |args|, i);
    ItemsAreUpToEnd(syntax, args);
  }

  lemma FlagSwallowsTarget(syntax: Syntax, flag: string, target: string)
    requires Dash(flag) && '=' !in flag && flag in syntax.keys && syntax.keys[flag].Raises?
    requires !Dash(target) && KeysDashed(syntax)
    ensures NamelessOf(syntax, Items(syntax, [flag, target])) == []
    ensures NamelessOf(syntax, Items(syntax, [target, flag])) == [target]
  {
    ItemsOfTwo(syntax, flag, target);
    ItemsOfTwo(syntax, target, flag);
    OneMoreItem(syntax, [], Item(flag, target));
    OneMoreItem(syntax, [], Item("", target));
    OneMoreItem(syntax, [Item("", target)], Item(flag, ""));
    assert [] + [Item(flag, target)] == Items(syntax, [flag, target]);
    assert [] + [Item("", target)] + [Item(flag, "")] == Items(syntax, [target, flag]);
  }
}
