/** The options of `start.sh`, written out: what each of them does to a command line it stands on. */
module StartOptions {
  import opened Common
  import opened Arguments

  /** The option of each variable. */
  predicate OptionOf(key: string, v: Var) {
    match v
    case CONFIG => key == "--config"
    case SDL_CORE => key == "--sdl-core"
    case REPORT_PATH => key == "--report"
    case SDL_SRC => key == "--sdl-src"
    case SDL_MOBILE_API => key == "--sdl-mobile-api"
    case SDL_HMI_API => key == "--sdl-hmi-api"
    case JOBS => key == "-j" || key == "--jobs"
    case THIRD_PARTY => key == "--third-party"
    case FORCE_PARALLELS => key == "--parallels"
    case TMP_PATH => key == "--tmp"
    case SAVE_SDL_LOG => key == "--sdl-log"
    case SAVE_SDL_CORE_DUMP => key == "--sdl-core-dump"
    case COPY_TS => key == "--copy-atf-ts"
    case TEST_ID => key == "--test-id"
    case TEST_TARGET => false
    case SDL_PROCESS_NAME => false
    case IS_REMOTE_ENABLED => false
  }

  predicate HelpOption(key: string) {
    key == "-h" || key == "--help" || key == "-help" || key == "--h"
  }

  /** Two options are flags: they take the next word, too, and ignore it. */
  function Taken(v: Var, x: string): string {
    if v == FORCE_PARALLELS || v == COPY_TS then "true" else x
  }

  lemma ActionOf(key: string, v: Var)
    requires OptionOf(key, v)
    ensures key in START.keys && START.keys[key] == if v == FORCE_PARALLELS || v == COPY_TS then Raises(v) else Takes(v)
  {
  }

  lemma OptionFrom(key: string)
    requires key in START.keys && !START.keys[key].ShowsHelp?
    ensures OptionOf(key, START.keys[key].v)
  {
  }

  /** What an item does, by its key alone. */
  lemma SetsIff(item: Item, v: Var)
    ensures Sets(START, item, v) <==> OptionOf(item.key, v)
    ensures OptionOf(item.key, v) ==> EffectOf(START, item).value == Taken(v, item.value)
  {
    if OptionOf(item.key, v) {
      ActionOf(item.key, v);
    } else if Sets(START, item, v) {
      OptionFrom(item.key);
    }
  }

  lemma HelpIff(item: Item)
    ensures EffectOf(START, item).Help? <==> HelpOption(item.key)
  {
  }

  ghost predicate Known(key: string) {
    HelpOption(key) || exists v: Var :: OptionOf(key, v)
  }

  lemma UnknownIff(item: Item)
    ensures EffectOf(START, item).Unknown? <==> Dash(item.key) && !Known(item.key)
  {
    HelpIff(item);
    if item.key in START.keys && !HelpOption(item.key) {
      SetsIff(item, EffectOf(START, item).v);
    }
    if v: Var :| OptionOf(item.key, v) {
      SetsIff(item, v);
    }
  }

  lemma OptionsAreKeys(key: string, v: Var)
    requires OptionOf(key, v)
    ensures Dash(key) && '=' !in key
  {
  }

  /** The seven parameters that a configuration can fill; two of them have no option. */
  lemma ParametersOfConfigurations(v: Var)
    ensures Configurable(v) <==>
              v in {SDL_PROCESS_NAME, REPORT_PATH, SDL_CORE, SDL_SRC, SDL_MOBILE_API, SDL_HMI_API, IS_REMOTE_ENABLED}
    ensures Configurable(v) && (forall key :: !OptionOf(key, v)) <==> v in {SDL_PROCESS_NAME, IS_REMOTE_ENABLED}
  {
    assert OptionOf("--report", REPORT_PATH) && OptionOf("--sdl-core", SDL_CORE) && OptionOf("--sdl-src", SDL_SRC);
    assert OptionOf("--sdl-mobile-api", SDL_MOBILE_API) && OptionOf("--sdl-hmi-api", SDL_HMI_API);
  }

  // ---------------------------------------------------------------- setting a variable

  lemma {:induction false} ValueOfConcat(a: seq<Item>, b: seq<Item>, v: Var, initial: string)
    ensures ValueAfter(START, a + b, v, initial) == ValueAfter(START, b, v, ValueAfter(START, a, v, initial))
  {
    if b == [] {
      assert a + b == a;
    } else {
      assert (a + b)[..|a + b| - 1] == a + b[..|b| - 1];
      ValueOfConcat(a, b[..|b| - 1], v, initial);
    }
  }

  lemma ItemsAround(pre: seq<string>, key: string, x: string, post: seq<string>)
    requires Dash(key) && '=' !in key && !Dash(x)
    ensures Items(START, pre + ([key, x] + post)) == Items(START, pre) + ([Item(key, x)] + Items(START, post))
  {
    ItemsOfBoth(START, pre, [key, x] + post);
    ItemsOfBoth(START, [key, x], post);
    OneItem(key, x);
  }

  lemma ValueOfOne(item: Item, v: Var, initial: string)
    ensures ValueAfter(START, [item], v, initial)
            == if Sets(START, item, v) then EffectOf(START, item).value else initial
  {
    assert [item][..0] == [];
  }

  /** The value of a variable on a command line with an option in the middle. */
  lemma ValueAround(pre: seq<string>, key: string, x: string, post: seq<string>, v: Var, initial: string)
    requires Dash(key) && '=' !in key && !Dash(x)
    ensures var before := ValueAfter(START, Items(START, pre), v, initial);
            ValueAfter(START, Items(START, pre + ([key, x] + post)), v, initial)
            == ValueAfter(START, Items(START, post), v, if OptionOf(key, v) then Taken(v, x) else before)
  {
    ItemsAround(pre, key, x, post);
    ValueOfConcat(Items(START, pre), [Item(key, x)] + Items(START, post), v, initial);
    ValueOfConcat([Item(key, x)], Items(START, post), v, ValueAfter(START, Items(START, pre), v, initial));
    ValueOfOne(Item(key, x), v, ValueAfter(START, Items(START, pre), v, initial));
    SetsIff(Item(key, x), v);
  }

  /** An option and its word, anywhere on the command line with no later option for its variable, give
      that variable the word, or "true" for the flags; as a parameter it keeps that value against
      every configuration unless it is empty. */
  lemma OptionDecides(pre: seq<string>, key: string, x: string, post: seq<string>, v: Var, initial: Vars,
                      configs: Configs, base: Config)
    requires OptionOf(key, v) && !Dash(x)
    requires forall i :: 0 <= i < |Items(START, post)| ==> !OptionOf(Items(START, post)[i].key, v)
    ensures var args := pre + ([key, x] + post);
            && ValueAfter(START, Items(START, args), v, Get(initial, v)) == Taken(v, x)
            && (Taken(v, x) != "" ==> FinalValue(START, args, initial, configs, base, v) == Taken(v, x))
  {
    OptionsAreKeys(key, v);
    ValueAround(pre, key, x, post, v, Get(initial, v));
    forall i | 0 <= i < |Items(START, post)|
      ensures !Sets(START, Items(START, post)[i], v)
    {
      SetsIff(Items(START, post)[i], v);
    }
    UnsetKeeps(START, Items(START, post), v, Taken(v, x));
  }

  /** It changes no other variable: those end as they would without it. */
  lemma OptionSparesOthers(pre: seq<string>, key: string, x: string, post: seq<string>, v: Var, w: Var, initial: string)
    requires OptionOf(key, v) && v != w && !Dash(x)
    ensures ValueAfter(START, Items(START, pre + ([key, x] + post)), w, initial)
            == ValueAfter(START, Items(START, pre) + Items(START, post), w, initial)
  {
    OptionsAreKeys(key, v);
    OneVariable(key, v, w);
    ValueAround(pre, key, x, post, w, initial);
    ValueOfConcat(Items(START, pre), Items(START, post), w, initial);
  }

  /** No option sets two variables. */
  lemma OneVariable(key: string, v: Var, w: Var)
    requires OptionOf(key, v) && v != w
    ensures !OptionOf(key, w)
  {
    SetsIff(Item(key, ""), v);
    SetsIff(Item(key, ""), w);
  }

  // ---------------------------------------------------------------- ending the script

  /** What stands before reads through: options and nameless words. */
  ghost predicate ReadsThrough(args: seq<string>) {
    forall i :: 0 <= i < |Items(START, args)| ==>
      var key := Items(START, args)[i].key; !HelpOption(key) && (Dash(key) ==> Known(key))
  }

  lemma NoStop(args: seq<string>, i: nat)
    requires ReadsThrough(args) && i < |Items(START, args)|
    ensures !Stops(START, Items(START, args)[i])
  {
    HelpIff(Items(START, args)[i]);
    UnknownIff(Items(START, args)[i]);
  }

  /** The script reads a command line to its end exactly when it has known options and nameless words
      only. */
  lemma ParsedIffReadsThrough(args: seq<string>)
    ensures OutcomeOf(START, Items(START, args)) == Parsed <==> ReadsThrough(args)
  {
    ParsedIffNoStop(START, Items(START, args));
    forall i | 0 <= i < |Items(START, args)|
      ensures var item := Items(START, args)[i];
              Stops(START, item) <==> HelpOption(item.key) || (Dash(item.key) && !Known(item.key))
    {
      HelpIff(Items(START, args)[i]);
      UnknownIff(Items(START, args)[i]);
    }
  }

  /** Behind such a beginning a help option ends the script with code 0, and an unknown one with 1,
      whatever follows. */
  lemma EndsScript(pre: seq<string>, key: string, post: seq<string>)
    requires ReadsThrough(pre) && Dash(key) && '=' !in key && (HelpOption(key) || !Known(key))
    ensures OutcomeOf(START, Items(START, pre + ([key] + post))) == Exit(if HelpOption(key) then 0 else 1)
  {
    var a, b := Items(START, pre), Items(START, [key] + post);
    ItemsOfBoth(START, pre, [key] + post);
    FirstItem(START, [key] + post);
    HelpIff(b[0]);
    UnknownIff(b[0]);
    forall j | 0 <= j < |a|
      ensures !Stops(START, (a + b)[j])
    {
      NoStop(pre, j);
    }
    assert (a + b)[|a|] == b[0];
    OutcomeIsFirstStop(START, a + b, |a|);
  }
}
