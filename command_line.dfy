/**
 * parseCommandLineOptions (parametersystem.hpp) and its default positional
 * callback noPositionalParameters_ (parametersystem.cpp).
 *
 * argv is the whole argument vector, program name included; parsing starts
 * at index 1. Options have the form `--kebab-name=value` and are stored in
 * the registry's tree under the CamelCase name transformKey makes of
 * `kebab-name`. Anything else goes to the positional callback. The usage
 * text the parser prints on help or on an error is given as the printUsage
 * call it makes (see Report.PrintUsage for the text).
 */
module CommandLine {
  import opened Outcomes
  import opened Chars
  import opened KeyCodec
  import opened ParamTree
  import opened Registry

  /** A call printUsage(helpPreamble, errorMsg, stream, showAll); toStdout tells std::cout from std::cerr. */
  datatype UsageCall = UsageCall(errorMsg: string, toStdout: bool, showAll: bool)

  /**
   * What a positional callback did: how many arguments it consumed (less
   * than one is an error), its error message, the values it wrote to the
   * tree through the writer it was given, in order, and the seen-keys set as
   * it left it.
   */
  datatype Positional = Positional(numHandled: int, errorMsg: string, writes: seq<(string, string)>, seenKeys: set<string>)

  /** A positional callback: argv, index of the argument, number of positional arguments so far, seen keys. */
  type Callback = (seq<string>, nat, nat, set<string>) -> Positional

  /** noPositionalParameters_: rejects every positional argument. */
  function NoPositionalParameters(argv: seq<string>, paramIdx: nat, numPositional: nat, seenKeys: set<string>): (p: Positional)
    ensures p.numHandled == 0 && p.writes == [] && p.seenKeys == seenKeys
    ensures paramIdx < |argv| ==> p.errorMsg == "Illegal parameter \"" + argv[paramIdx] + "\"."
  {
    // the parser only passes indices of arguments
    var arg := if paramIdx < |argv| then argv[paramIdx] else "";
    Positional(0, "Illegal parameter \"" + arg + "\".", [], seenKeys)
  }

  /** The result of a parse: the returned text or the exception, the tree as left, and the printUsage call made. */
  datatype Parsed = Parsed(result: Outcome<string>, tree: Tree, usage: Option<UsageCall>)

  /** One pass of the argument loop: a finished parse, or the index, tree, seen keys and positional count to go on with. */
  datatype ArgStep = Done(parsed: Parsed) | Next(i: nat, tree: Tree, seen: set<string>, count: nat)

  predicate IsHelpFlag(arg: string)
  {
    arg == "-h" || arg == "--help" || arg == "--help-all"
  }

  /** The first help flag from index i on: Some(showAll) for it, None when there is none. */
  function HelpRequest(argv: seq<string>, i: nat): (r: Option<bool>)
    decreases |argv| - i
  {
    if i >= |argv| then None
    else if argv[i] == "-h" || argv[i] == "--help" then Some(false)
    else if argv[i] == "--help-all" then Some(true)
    else HelpRequest(argv, i + 1)
  }

  /** Options start with "--" and have at least four characters; the rest is positional. */
  predicate IsPositional(arg: string)
  {
    |arg| < 4 || arg[0] != '-' || arg[1] != '-'
  }

  function ApplyWrites(tree: Tree, writes: seq<(string, string)>): Tree
    decreases writes
  {
    if writes == [] then tree else ApplyWrites(Set(tree, writes[0].0, writes[0].1), writes[1..])
  }

  function NotLetterMessage(i: nat, arg: string): string
  {
    "Parameter name of argument " + NatToString(i) + " ('" + arg + "') is invalid because it does not start with a letter."
  }

  function DuplicateMessage(name: string): string
  {
    "Parameter '" + name + "' specified multiple times as a command line parameter"
  }

  function MissingValueMessage(name: string, arg: string): string
  {
    "Parameter '" + name + "' is missing a value. " + " Please use " + arg + "=value."
  }

  /** An error message, echoed through printUsage on std::cerr when there is a help preamble. */
  function Failed(preamble: string, msg: string, tree: Tree): Parsed
  {
    Parsed(Ok(msg), tree, if preamble == [] then None else Some(UsageCall(msg, false, false)))
  }

  /** One pass of the argument loop at index i. */
  function Step(argv: seq<string>, preamble: string, cb: Callback, i: nat, tree: Tree, seen: set<string>, count: nat): (s: ArgStep)
    requires i < |argv|
    ensures s.Next? ==> s.i > i
  {
    var arg := argv[i];
    if IsPositional(arg) then
      var p := cb(argv, i, count, seen);
      var written := ApplyWrites(tree, p.writes);
      if p.numHandled < 1 then Done(Failed(preamble, p.errorMsg, written))
      else Next(i + p.numHandled, written, p.seenKeys, count + 1)
    else if !IsAlpha(arg[2]) then Done(Failed(preamble, NotLetterMessage(i, arg), tree))
    else
      var split := SplitAt(arg[2..], IsKeyStop);
      match CanonicalKey(split.0, true, "")
      case Thrown(e) => Done(Parsed(Thrown(e), tree, None))
      case Ok(name) =>
        if name in seen then Done(Failed(preamble, DuplicateMessage(name), tree))
        else if split.1 == [] || split.1[0] != '=' then Done(Failed(preamble, MissingValueMessage(name, arg), tree))
        else Next(i + 1, Set(tree, name, split.1[1..]), seen + {name}, count)
  }

  /** The argument loop from index i on. */
  function ParseFrom(argv: seq<string>, preamble: string, cb: Callback, i: nat, tree: Tree, seen: set<string>, count: nat): Parsed
    decreases |argv| - i
  {
    if i >= |argv| then Parsed(Ok(""), tree, None)
    else
      match Step(argv, preamble, cb, i, tree, seen, count)
      case Done(p) => p
      case Next(j, t, s, c) => ParseFrom(argv, preamble, cb, j, t, s, c)
  }

  /** parseCommandLineOptions: help flags are looked for first, among all arguments, when there is a preamble. */
  function ParseCommandLine(argv: seq<string>, preamble: string, cb: Callback, tree: Tree): Parsed
  {
    if preamble != [] && HelpRequest(argv, 1).Some? then
      Parsed(Ok("Help called"), tree, Some(UsageCall("", true, HelpRequest(argv, 1).value)))
    else ParseFrom(argv, preamble, cb, 1, tree, {}, 0)
  }

  /** The body of the argument loop. */
  method ProcessArgument(argv: seq<string>, preamble: string, cb: Callback, i: nat, tree: Tree, seen: set<string>, count: nat)
    returns (s: ArgStep)
    requires i < |argv|
    ensures s == Step(argv, preamble, cb, i, tree, seen, count)
  {
    var arg := argv[i];
    if |arg| < 4 || arg[0] != '-' || arg[1] != '-' {
      var p := cb(argv, i, count, seen);
      var written := ApplyWrites(tree, p.writes);
      if p.numHandled < 1 {
        return Done(Failed(preamble, p.errorMsg, written));
      }
      return Next(i + p.numHandled, written, p.seenKeys, count + 1);
    }
    if !IsAlpha(arg[2]) {
      return Done(Failed(preamble, NotLetterMessage(i, arg), tree));
    }
    var rest := arg[2..];
    var key;
    key, rest := ParseKey(rest);
    var name := TransformKey(key, true, "");
    if name.Thrown? {
      return Done(Parsed(Thrown(name.error), tree, None));
    }
    if name.value in seen {
      return Done(Failed(preamble, DuplicateMessage(name.value), tree));
    }
    var seen' := seen + {name.value};
    if rest == [] || rest[0] != '=' {
      return Done(Failed(preamble, MissingValueMessage(name.value, arg), tree));
    }
    var value := rest[1..];
    s := Next(i + 1, Set(tree, name.value, value), seen', count);
  }

  /** parseCommandLineOptions, writing into the registry's tree. */
  method ParseCommandLineOptions(ps: ParameterSystem, argv: seq<string>, preamble: string, cb: Callback)
    returns (r: Outcome<string>, usage: Option<UsageCall>)
    modifies ps`tree
    ensures Parsed(r, ps.tree, usage) == ParseCommandLine(argv, preamble, cb, old(ps.tree))
  {
    if preamble != [] {
      var i := 1;
      while i < |argv|
        invariant 1 <= i
        invariant HelpRequest(argv, i) == HelpRequest(argv, 1)
        decreases |argv| - i
      {
        if argv[i] == "-h" || argv[i] == "--help" {
          return Ok("Help called"), Some(UsageCall("", true, false));
        }
        if argv[i] == "--help-all" {
          return Ok("Help called"), Some(UsageCall("", true, true));
        }
        i := i + 1;
      }
    }
    var seen: set<string> := {};
    var count: nat := 0;
    var i: nat := 1;
    while i < |argv|
      invariant ParseFrom(argv, preamble, cb, i, ps.tree, seen, count) == ParseCommandLine(argv, preamble, cb, old(ps.tree))
      decreases |argv| - i
    {
      var step := ProcessArgument(argv, preamble, cb, i, ps.tree, seen, count);
      match step
      case Done(p) =>
        ps.tree := p.tree;
        return p.result, p.usage;
      case Next(j, t, s, c) =>
        ps.tree := t;
        i, seen, count := j, s, c;
    }
    return Ok(""), None;
  }

  // Properties.

  lemma ParseFromNext(argv: seq<string>, preamble: string, cb: Callback, i: nat, tree: Tree, seen: set<string>, count: nat)
    requires i < |argv| && Step(argv, preamble, cb, i, tree, seen, count).Next?
    ensures var n := Step(argv, preamble, cb, i, tree, seen, count);
      ParseFrom(argv, preamble, cb, i, tree, seen, count) == ParseFrom(argv, preamble, cb, n.i, n.tree, n.seen, n.count)
  {
  }

  lemma ParseFromDone(argv: seq<string>, preamble: string, cb: Callback, i: nat, tree: Tree, seen: set<string>, count: nat)
    requires i < |argv| && Step(argv, preamble, cb, i, tree, seen, count).Done?
    ensures ParseFrom(argv, preamble, cb, i, tree, seen, count) == Step(argv, preamble, cb, i, tree, seen, count).parsed
  {
  }

  /** A help flag is found exactly when one of the arguments from index i on is one. */
  lemma {:induction false} HelpRequestFinds(argv: seq<string>, i: nat)
    ensures HelpRequest(argv, i).Some? <==> exists j :: i <= j < |argv| && IsHelpFlag(argv[j])
    ensures HelpRequest(argv, i) == Some(true) ==> "--help-all" in argv[i..]
    decreases |argv| - i
  {
    if i < |argv| {
      HelpRequestFinds(argv, i + 1);
      if HelpRequest(argv, i) == Some(true) && argv[i] != "--help-all" {
        assert argv[i + 1..] == argv[i..][1..];
      }
    }
  }

  /** With a preamble, a help flag anywhere after the program name wins: "Help called", nothing written. */
  lemma HelpIntercepts(argv: seq<string>, preamble: string, cb: Callback, tree: Tree, j: nat)
    requires preamble != [] && 1 <= j < |argv| && IsHelpFlag(argv[j])
    ensures ParseCommandLine(argv, preamble, cb, tree).result == Ok("Help called")
    ensures ParseCommandLine(argv, preamble, cb, tree).tree == tree
    ensures ParseCommandLine(argv, preamble, cb, tree).usage.Some?
  {
    HelpRequestFinds(argv, 1);
  }

  /** Without a preamble no argument is treated as a help flag. */
  lemma NoPreambleNoHelp(argv: seq<string>, cb: Callback, tree: Tree)
    ensures ParseCommandLine(argv, "", cb, tree) == ParseFrom(argv, "", cb, 1, tree, {}, 0)
    ensures ParseCommandLine(argv, "", cb, tree).usage == None
  {
    NoUsageWithoutPreamble(argv, cb, 1, tree, {}, 0);
  }

  lemma {:induction false} NoUsageWithoutPreamble(argv: seq<string>, cb: Callback, i: nat, tree: Tree, seen: set<string>, count: nat)
    ensures ParseFrom(argv, "", cb, i, tree, seen, count).usage == None
    decreases |argv| - i
  {
    if i < |argv| {
      match Step(argv, "", cb, i, tree, seen, count)
      case Done(p) =>
      case Next(j, t, s, c) => NoUsageWithoutPreamble(argv, cb, j, t, s, c);
    }
  }

  /** A positional argument the callback refuses ends the parse with its message, after its writes. */
  lemma PositionalRefused(argv: seq<string>, preamble: string, cb: Callback, i: nat, tree: Tree, seen: set<string>, count: nat)
    requires i < |argv| && IsPositional(argv[i]) && cb(argv, i, count, seen).numHandled < 1
    ensures ParseFrom(argv, preamble, cb, i, tree, seen, count).result == Ok(cb(argv, i, count, seen).errorMsg)
    ensures ParseFrom(argv, preamble, cb, i, tree, seen, count).tree == ApplyWrites(tree, cb(argv, i, count, seen).writes)
  {
    var p := cb(argv, i, count, seen);
    assert Step(argv, preamble, cb, i, tree, seen, count) == Done(Failed(preamble, p.errorMsg, ApplyWrites(tree, p.writes)));
    ParseFromDone(argv, preamble, cb, i, tree, seen, count);
  }

  /** An accepted positional argument skips numHandled arguments and counts one positional parameter. */
  lemma PositionalAccepted(argv: seq<string>, preamble: string, cb: Callback, i: nat, tree: Tree, seen: set<string>, count: nat)
    requires i < |argv| && IsPositional(argv[i]) && cb(argv, i, count, seen).numHandled >= 1
    ensures var p := cb(argv, i, count, seen);
      ParseFrom(argv, preamble, cb, i, tree, seen, count)
      == ParseFrom(argv, preamble, cb, i + p.numHandled, ApplyWrites(tree, p.writes), p.seenKeys, count + 1)
  {
    var p := cb(argv, i, count, seen);
    assert Step(argv, preamble, cb, i, tree, seen, count) == Next(i + p.numHandled, ApplyWrites(tree, p.writes), p.seenKeys, count + 1);
    ParseFromNext(argv, preamble, cb, i, tree, seen, count);
  }

  /** With the default callback, the first positional argument is an error naming it. */
  lemma IllegalPositional(argv: seq<string>, i: nat, tree: Tree, seen: set<string>, count: nat)
    requires i < |argv| && IsPositional(argv[i])
    ensures ParseFrom(argv, "", NoPositionalParameters, i, tree, seen, count)
      == Parsed(Ok("Illegal parameter \"" + argv[i] + "\"."), tree, None)
  {
    var p := NoPositionalParameters(argv, i, count, seen);
    assert ApplyWrites(tree, p.writes) == tree;
    assert Step(argv, "", NoPositionalParameters, i, tree, seen, count) == Done(Failed("", p.errorMsg, tree));
    ParseFromDone(argv, "", NoPositionalParameters, i, tree, seen, count);
  }

  /** `--` followed by something other than a letter is an error that names the argument's index. */
  lemma NotALetter(argv: seq<string>, preamble: string, cb: Callback, i: nat, tree: Tree, seen: set<string>, count: nat)
    requires i < |argv| && !IsPositional(argv[i]) && !IsAlpha(argv[i][2])
    ensures ParseFrom(argv, preamble, cb, i, tree, seen, count) == Failed(preamble, NotLetterMessage(i, argv[i]), tree)
    ensures NotLetterMessage(i, argv[i]) != ""
  {
  }

  /** The text of one option, as a user writes it. */
  function OptionArg(key: string, value: string): string
  {
    "--" + key + "=" + value
  }

  /** How parseKey splits the text after "--" of an option. */
  lemma SplitOption(key: string, value: string)
    requires WellFormedKey(key)
    ensures !IsPositional(OptionArg(key, value)) && IsAlpha(OptionArg(key, value)[2])
    ensures SplitAt(OptionArg(key, value)[2..], IsKeyStop) == (key, "=" + value)
  {
    var arg := OptionArg(key, value);
    assert arg[2] == key[0];
    assert arg[2..] == key + ("=" + value);
    WellFormedKeyHasNoStop(key);
    SplitAtUnique(arg[2..], IsKeyStop, key, "=" + value);
  }

  /** A well-formed `--key=value` stores the text after the first '=' under the canonical name. */
  lemma OptionStored(argv: seq<string>, preamble: string, cb: Callback, i: nat, tree: Tree, seen: set<string>, count: nat, key: string, value: string)
    requires i < |argv| && WellFormedKey(key) && argv[i] == OptionArg(key, value) && NameOf(key) !in seen
    ensures Step(argv, preamble, cb, i, tree, seen, count) == Next(i + 1, Set(tree, NameOf(key), value), seen + {NameOf(key)}, count)
  {
    SplitOption(key, value);
    assert ("=" + value)[1..] == value;
  }

  /** The same canonical name given twice is an error naming it; the first value stays in the tree. */
  lemma OptionTwice(argv: seq<string>, preamble: string, cb: Callback, i: nat, tree: Tree, seen: set<string>, count: nat, key: string, value: string)
    requires i < |argv| && WellFormedKey(key) && argv[i] == OptionArg(key, value) && NameOf(key) in seen
    ensures ParseFrom(argv, preamble, cb, i, tree, seen, count) == Failed(preamble, DuplicateMessage(NameOf(key)), tree)
  {
    SplitOption(key, value);
  }

  /** The duplicate check comes before the check for a missing '=': a bare `--key` seen before is reported as given twice. */
  lemma BareOptionTwice(argv: seq<string>, preamble: string, cb: Callback, i: nat, tree: Tree, seen: set<string>, count: nat, key: string)
    requires i < |argv| && WellFormedKey(key) && |key| >= 2 && argv[i] == "--" + key && NameOf(key) in seen
    ensures ParseFrom(argv, preamble, cb, i, tree, seen, count) == Failed(preamble, DuplicateMessage(NameOf(key)), tree)
  {
    var arg := argv[i];
    assert arg[2] == key[0] && arg[2..] == key;
    WellFormedKeyHasNoStop(key);
    SplitAtUnique(arg[2..], IsKeyStop, key, []);
  }

  /** `--key` with no '=' after it is an error telling the user to write `--key=value`. */
  lemma MissingValue(argv: seq<string>, preamble: string, cb: Callback, i: nat, tree: Tree, seen: set<string>, count: nat, key: string)
    requires i < |argv| && WellFormedKey(key) && |key| >= 2 && argv[i] == "--" + key && NameOf(key) !in seen
    ensures ParseFrom(argv, preamble, cb, i, tree, seen, count) == Failed(preamble, MissingValueMessage(NameOf(key), argv[i]), tree)
  {
    var arg := argv[i];
    assert arg[2] == key[0] && arg[2..] == key;
    WellFormedKeyHasNoStop(key);
    SplitAtUnique(arg[2..], IsKeyStop, key, []);
  }

  /** A key transformKey rejects makes the parser throw instead of returning a message. */
  lemma BadKeyThrows(argv: seq<string>, preamble: string, cb: Callback, i: nat, tree: Tree, seen: set<string>, count: nat, key: string, value: string)
    requires i < |argv| && argv[i] == OptionArg(key, value)
    requires |key| > 0 && IsAlpha(key[0]) && forall k :: 0 <= k < |key| ==> !IsKeyStop(key[k])
    requires !WellFormedKey(key)
    ensures ParseFrom(argv, preamble, cb, i, tree, seen, count).result.Thrown?
    ensures ParseFrom(argv, preamble, cb, i, tree, seen, count).usage == None
  {
    var arg := argv[i];
    assert arg[2] == key[0] && arg[2..] == key + ("=" + value);
    SplitAtUnique(arg[2..], IsKeyStop, key, "=" + value);
    CanonicalKeyAccepts(key, true, "");
  }

  /** Storing a list of options one after the other. */
  function StoreAll(tree: Tree, opts: seq<(string, string)>): Tree
    requires forall j :: 0 <= j < |opts| ==> WellFormedKey(opts[j].0)
    decreases opts
  {
    if opts == [] then tree else StoreAll(Set(tree, NameOf(opts[0].0), opts[0].1), opts[1..])
  }

  /** The canonical names of a list of well-formed keys are pairwise different and none of them is in seen. */
  ghost predicate FreshNames(opts: seq<(string, string)>, seen: set<string>)
    requires forall j :: 0 <= j < |opts| ==> WellFormedKey(opts[j].0)
  {
    (forall j :: 0 <= j < |opts| ==> NameOf(opts[j].0) !in seen)
    && forall j, l :: 0 <= j < l < |opts| ==> NameOf(opts[j].0) != NameOf(opts[l].0)
  }

  /**
   * Arguments that are all well-formed options with different canonical
   * names parse without error, call no usage printer and store each value
   * under its name.
   */
  lemma OptionsShift(argv: seq<string>, i: nat, seen: set<string>, opts: seq<(string, string)>)
    requires opts != [] && i + |opts| == |argv|
    requires forall j :: 0 <= j < |opts| ==> WellFormedKey(opts[j].0) && argv[i + j] == OptionArg(opts[j].0, opts[j].1)
    requires FreshNames(opts, seen)
    ensures forall j :: 0 <= j < |opts[1..]| ==> WellFormedKey(opts[1..][j].0) && argv[i + 1 + j] == OptionArg(opts[1..][j].0, opts[1..][j].1)
    ensures FreshNames(opts[1..], seen + {NameOf(opts[0].0)})
  {
    var rest := opts[1..];
    forall j | 0 <= j < |rest| ensures WellFormedKey(rest[j].0) && argv[i + 1 + j] == OptionArg(rest[j].0, rest[j].1) {
      assert rest[j] == opts[j + 1];
    }
    forall j | 0 <= j < |rest| ensures NameOf(rest[j].0) !in seen + {NameOf(opts[0].0)} {
      assert rest[j] == opts[j + 1];
    }
    forall j, l | 0 <= j < l < |rest| ensures NameOf(rest[j].0) != NameOf(rest[l].0) {
      assert rest[j] == opts[j + 1] && rest[l] == opts[l + 1];
    }
  }

  /**
   * Arguments that are all well-formed options with different canonical
   * names parse without error, call no usage printer and store each value
   * under its name.
   */
  lemma {:induction false} OptionsStored(argv: seq<string>, preamble: string, cb: Callback, i: nat, tree: Tree, seen: set<string>, count: nat, opts: seq<(string, string)>)
    requires i + |opts| == |argv|
    requires forall j :: 0 <= j < |opts| ==> WellFormedKey(opts[j].0) && argv[i + j] == OptionArg(opts[j].0, opts[j].1)
    requires FreshNames(opts, seen)
    ensures ParseFrom(argv, preamble, cb, i, tree, seen, count) == Parsed(Ok(""), StoreAll(tree, opts), None)
    decreases |opts|
  {
    if opts != [] {
      var name := NameOf(opts[0].0);
      assert WellFormedKey(opts[0].0) && argv[i + 0] == OptionArg(opts[0].0, opts[0].1);
      assert name !in seen;
      OptionStored(argv, preamble, cb, i, tree, seen, count, opts[0].0, opts[0].1);
      ParseFromNext(argv, preamble, cb, i, tree, seen, count);
      OptionsShift(argv, i, seen, opts);
      OptionsStored(argv, preamble, cb, i + 1, Set(tree, name, opts[0].1), seen + {name}, count, opts[1..]);
    }
  }

  /** The option `--upwind-weight=...` printParamUsage advertises for UpwindWeight is read back under UpwindWeight. */
  lemma KebabOptionName(name: string, value: string, prefix: string)
    requires |name| > 0 && IsUpper(name[0]) && AllAlnum(name)
    ensures CommandLineName(name)[..2] == "--"
    ensures SplitAt((CommandLineName(name) + "=" + value)[2..], IsKeyStop).0 == CommandLineName(name)[2..]
    ensures CanonicalKey(CommandLineName(name)[2..], true, prefix) == Ok(name)
  {
    CanonicalKeyOfCommandLineName(name, prefix);
    var key := CommandLineName(name)[2..];
    CanonicalKeyAccepts(key, true, prefix);
    WellFormedKeyHasNoStop(key);
    var arg := CommandLineName(name) + "=" + value;
    assert arg[2..] == key + ("=" + value);
    SplitAtUnique(arg[2..], IsKeyStop, key, "=" + value);
  }
}
