/**
 * The texts the registry prints (parametersystem.cpp): one usage line per
 * parameter (printParamUsage), the help text (printUsage), the parameter
 * lists of printValues and the report of unused parameters (printUnused).
 *
 * Each routine returns the text it would write to its stream. The terminal
 * width getTtyWidth finds is a parameter; lines are broken with the
 * corrected breakLines (see Layout).
 */
module Report {
  import opened Outcomes
  import opened Chars
  import opened KeyCodec
  import opened Params
  import opened ParamTree
  import opened Layout
  import opened Registry

  // ---------------------------------------------------------------------------
  // printParamUsage
  // ---------------------------------------------------------------------------

  /** The start of a usage line: indentation, the command-line name, the type tag and two blanks. */
  function UsageHead(info: ParamInfo, names: TypeNames): string
  {
    "    " + CommandLineName(info.paramName) + TypeTag(info.paramTypeName, names) + "  "
  }

  /** s filled up with blanks to n characters, or s itself when it is that long already. */
  function PadTo(s: string, n: int): (r: string)
    ensures |r| == if |s| < n then n else |s|
    ensures r[..|s|] == s
    ensures forall k :: |s| <= k < |r| ==> r[k] == ' '
  {
    s + Spaces(n - |s|)
  }

  /** How the default is shown: a bool as false or true, a string in quotes, anything else as stored. */
  function DefaultText(info: ParamInfo, names: TypeNames): string
  {
    if info.paramTypeName == "bool" then (if info.defaultValue == "0" then "false" else "true")
    else if IsStringType(info.paramTypeName, names) then "\"" + info.defaultValue + "\""
    else info.defaultValue
  }

  /** m ended by a full stop: one is added unless m ends with one already. */
  function WithStop(m: string): string
  {
    if |m| > 0 && m[|m| - 1] == '.' then m else m + "."
  }

  /** A parameter's usage text before line breaking; a typed parameter also shows its default. */
  function UsageMessage(info: ParamInfo, names: TypeNames): string
  {
    var m := PadTo(UsageHead(info, names), 50) + info.usageString;
    if info.paramTypeName == "" then m else WithStop(m) + " Default: " + DefaultText(info, names)
  }

  /** The printed usage line: the message broken to the terminal width with an indentation of 52, then a newline. */
  function UsageLine(info: ParamInfo, names: TypeNames, ttyWidth: int): string
  {
    var msg := UsageMessage(info, names);
    assert Plan(msg, 52, ttyWidth, false).Some? by { BreakLinesKeepsText(msg, 52, ttyWidth); }
    Render(Plan(msg, 52, ttyWidth, false).value, 52) + "\n"
  }

  /** printParamUsage's loop that converts the CamelCase name to its command-line spelling. */
  method ToCommandLineName(name: string) returns (cmdLineName: string)
    ensures cmdLineName == CommandLineName(name)
  {
    cmdLineName := "-";
    var i := 0;
    while i < |name|
      invariant 0 <= i <= |name|
      invariant cmdLineName + KebabTail(name[i..]) == CommandLineName(name)
    {
      assert name[i..][1..] == name[i + 1..];
      ghost var piece := (if IsUpper(name[i]) then "-" else "") + [ToLower(name[i])];
      assert KebabTail(name[i..]) == piece + KebabTail(name[i + 1..]);
      if IsUpper(name[i]) {
        cmdLineName := cmdLineName + "-";
      }
      cmdLineName := cmdLineName + [ToLower(name[i])];
      i := i + 1;
    }
    assert name[i..] == [];
    assert cmdLineName + [] == cmdLineName;
  }

  /** printParamUsage's loop that fills the message up to the 50th character. */
  method FillTo50(head: string) returns (msg: string)
    ensures msg == PadTo(head, 50)
  {
    msg := head;
    assert msg == head + Spaces(0);
    while |msg| < 50
      invariant |msg| >= |head| && msg == head + Spaces(|msg| - |head|)
      invariant |head| < 50 ==> |msg| <= 50
      invariant |head| >= 50 ==> msg == head
      decreases 50 - |msg|
    {
      msg := msg + " ";
    }
  }

  /** printParamUsage. */
  method PrintParamUsage(info: ParamInfo, names: TypeNames, ttyWidth: int) returns (text: string)
    ensures text == UsageLine(info, names, ttyWidth)
  {
    var cmdLineName := ToCommandLineName(info.paramName);
    var msg := FillTo50("    " + cmdLineName + TypeTag(info.paramTypeName, names) + "  ");
    msg := msg + info.usageString;
    if info.paramTypeName != "" {
      if msg[|msg| - 1] != '.' {
        msg := msg + ".";
      }
      msg := msg + " Default: ";
      if info.paramTypeName == "bool" {
        if info.defaultValue == "0" {
          msg := msg + "false";
        } else {
          msg := msg + "true";
        }
      } else if IsStringType(info.paramTypeName, names) {
        msg := msg + ("\"" + info.defaultValue + "\"");
      } else {
        msg := msg + info.defaultValue;
      }
    }
    assert msg == UsageMessage(info, names);
    var broken := BreakLines(msg, 52, ttyWidth, false);
    BreakLinesKeepsText(msg, 52, ttyWidth);
    text := broken.value + "\n";
  }

  /** Where the parts of a usage message go: the head, blanks up to column 50, the usage text, and for a typed parameter its default. */
  lemma UsageMessageLayout(info: ParamInfo, names: TypeNames)
    ensures var head := UsageHead(info, names); var m := UsageMessage(info, names);
      var col := if |head| < 50 then 50 else |head|;
      |m| >= col + |info.usageString| && m[..|head|] == head
      && (forall k :: |head| <= k < col ==> m[k] == ' ')
      && m[col..col + |info.usageString|] == info.usageString
      && (info.paramTypeName == "" ==> |m| == col + |info.usageString|)
  {
    var head := UsageHead(info, names);
    var padded := PadTo(head, 50);
    var m0 := padded + info.usageString;
    assert m0[..|padded|] == padded && m0[|padded|..] == info.usageString;
    var m := UsageMessage(info, names);
    if info.paramTypeName != "" {
      var d := " Default: " + DefaultText(info, names);
      assert m == WithStop(m0) + d;
      assert m[..|m0|] == m0;
    }
    assert m[..|m0|] == m0;
  }

  /** A typed parameter's message ends with a full stop, " Default: " and the shown default. */
  lemma TypedUsageEnds(info: ParamInfo, names: TypeNames)
    requires info.paramTypeName != ""
    ensures var d := " Default: " + DefaultText(info, names); var m := UsageMessage(info, names);
      |m| > |d| && m[|m| - |d|..] == d && m[|m| - |d| - 1] == '.'
  {
    var m0 := PadTo(UsageHead(info, names), 50) + info.usageString;
    var d := " Default: " + DefaultText(info, names);
    var w := WithStop(m0);
    assert UsageMessage(info, names) == w + d;
    assert (w + d)[|w|..] == d;
  }

  /** A bool default is shown as false exactly when it is "0", and as true otherwise. */
  lemma BoolDefaultShown(info: ParamInfo, names: TypeNames)
    requires info.paramTypeName == "bool"
    ensures DefaultText(info, names) == "false" <==> info.defaultValue == "0"
    ensures DefaultText(info, names) == "false" || DefaultText(info, names) == "true"
  {
  }

  /** The printed line is the message with some blanks replaced by a newline and 52 blanks, and nothing lost. */
  lemma UsageLineKeepsMessage(info: ParamInfo, names: TypeNames, ttyWidth: int)
    ensures var plan := Plan(UsageMessage(info, names), 52, ttyWidth, false);
      plan.Some? && UsageLine(info, names, ttyWidth) == Render(plan.value, 52) + "\n"
      && Original(plan.value) == UsageMessage(info, names) && BlankBreaks(plan.value)
  {
    BreakLinesKeepsText(UsageMessage(info, names), 52, ttyWidth);
  }

  /** A message that fits the terminal is printed unchanged. */
  lemma UsageLineFits(info: ParamInfo, names: TypeNames, ttyWidth: int)
    requires LinesFit(UsageMessage(info, names), ttyWidth)
    ensures UsageLine(info, names, ttyWidth) == UsageMessage(info, names) + "\n"
  {
    FitsUnchanged(UsageMessage(info, names), 52, ttyWidth, false);
  }

  // ---------------------------------------------------------------------------
  // printUsage
  // ---------------------------------------------------------------------------

  /** The description printUsage makes for -h and --help (a default ParamInfo with a name and a usage text). */
  function HelpInfo(): ParamInfo
  {
    ParamInfo("h,--help", "", "", "Print this help message and exit", "", false)
  }

  /** The description printUsage makes for --help-all. */
  function HelpAllInfo(): ParamInfo
  {
    ParamInfo("-help-all", "", "", "Print all parameters, including obsolete, hidden and deprecated ones.", "", false)
  }

  /**
   * A name without upper-case letters is printed as "-" and the name itself:
   * this is how the two help entries come out as -h,--help and --help-all.
   */
  lemma {:induction false} KebabTailNoUpper(n: string)
    requires NoUpper(n)
    ensures KebabTail(n) == n
    ensures CommandLineName(n) == "-" + n
    decreases |n|
  {
    if n != [] {
      KebabTailNoUpper(n[1..]);
      assert [n[0]] + n[1..] == n;
    }
  }

  lemma HelpNamesHaveNoUpper()
    ensures NoUpper(HelpInfo().paramName) && NoUpper(HelpAllInfo().paramName)
  {
  }

  predicate AllRegistered(keys: seq<string>, registry: map<string, ParamInfo>)
  {
    forall k :: k in keys ==> k in registry
  }

  predicate Increasing(keys: seq<string>)
  {
    forall i, j :: 0 <= i < j < |keys| ==> Less(keys[i], keys[j])
  }

  /** The names printUsage lists, in the order given: all with showAll, otherwise those not hidden. */
  function Shown(keys: seq<string>, registry: map<string, ParamInfo>, showAll: bool): (r: seq<string>)
    requires AllRegistered(keys, registry)
    ensures forall x :: x in r ==> x in keys
    decreases |keys|
  {
    if keys == [] then []
    else
      var last := keys[|keys| - 1];
      assert keys == keys[..|keys| - 1] + [last];
      Shown(keys[..|keys| - 1], registry, showAll) + (if showAll || !registry[last].isHidden then [last] else [])
  }

  /** The usage lines of the given names, in order. */
  function UsageLines(keys: seq<string>, registry: map<string, ParamInfo>, names: TypeNames, ttyWidth: int): string
    requires AllRegistered(keys, registry)
    decreases |keys|
  {
    if keys == [] then []
    else
      assert keys == keys[..|keys| - 1] + [keys[|keys| - 1]];
      UsageLines(keys[..|keys| - 1], registry, names, ttyWidth) + UsageLine(registry[keys[|keys| - 1]], names, ttyWidth)
  }

  lemma UsageLinesAppend(keys: seq<string>, key: string, registry: map<string, ParamInfo>, names: TypeNames, ttyWidth: int)
    requires AllRegistered(keys, registry) && key in registry
    ensures AllRegistered(keys + [key], registry)
    ensures UsageLines(keys + [key], registry, names, ttyWidth) == UsageLines(keys, registry, names, ttyWidth) + UsageLine(registry[key], names, ttyWidth)
  {
    assert (keys + [key])[..|keys|] == keys;
  }

  /** The names listed are exactly those given that are shown. */
  lemma {:induction false} ShownMembers(keys: seq<string>, registry: map<string, ParamInfo>, showAll: bool)
    requires AllRegistered(keys, registry)
    ensures forall x :: x in Shown(keys, registry, showAll) <==> x in keys && (showAll || !registry[x].isHidden)
    decreases |keys|
  {
    if keys != [] {
      var init := keys[..|keys| - 1];
      var last := keys[|keys| - 1];
      assert keys == init + [last];
      ShownMembers(init, registry, showAll);
    }
  }

  /** A subsequence of an increasing sequence is increasing: the listed names stay in name order. */
  lemma {:induction false} ShownIncreasing(keys: seq<string>, registry: map<string, ParamInfo>, showAll: bool)
    requires AllRegistered(keys, registry) && Increasing(keys)
    ensures Increasing(Shown(keys, registry, showAll))
    decreases |keys|
  {
    if keys != [] {
      var init := keys[..|keys| - 1];
      var last := keys[|keys| - 1];
      assert keys == init + [last];
      ShownIncreasing(init, registry, showAll);
      var a := Shown(init, registry, showAll);
      if showAll || !registry[last].isHidden {
        var r := a + [last];
        forall i, j | 0 <= i < j < |r| ensures Less(r[i], r[j]) {
          if j == |a| {
            assert r[i] in init;
            var k :| 0 <= k < |init| && init[k] == r[i];
            assert keys[k] == r[i] && keys[|keys| - 1] == r[j];
          } else {
            assert r[i] == a[i] && r[j] == a[j];
          }
        }
      } else {
        assert Shown(keys, registry, showAll) == a + [];
      }
    }
  }

  /** printUsage lists exactly the registered parameters not hidden (all of them with showAll), in name order. */
  lemma ListedParameters(registry: map<string, ParamInfo>, showAll: bool)
    ensures AllRegistered(InOrder(registry.Keys), registry)
    ensures var listed := Shown(InOrder(registry.Keys), registry, showAll);
      Increasing(listed) && forall x :: x in listed <==> x in registry && (showAll || !registry[x].isHidden)
  {
    InOrderSorted(registry.Keys);
    ShownIncreasing(InOrder(registry.Keys), registry, showAll);
    ShownMembers(InOrder(registry.Keys), registry, showAll);
  }

  /** The help preamble broken to the terminal width with an indentation of 2. */
  function PreambleText(preamble: string, ttyWidth: int): string
  {
    assert Plan(preamble, 2, ttyWidth, false).Some? by { BreakLinesKeepsText(preamble, 2, ttyWidth); }
    Render(Plan(preamble, 2, ttyWidth, false).value, 2)
  }

  /** What printUsage writes before the registered parameters. */
  function UsageIntro(preamble: string, errorMsg: string, names: TypeNames, ttyWidth: int): string
  {
    var intro := (if errorMsg != "" then errorMsg + "\n\n" else "") + PreambleText(preamble, ttyWidth) + "\n" + "Recognized options:\n";
    if preamble != "" then intro + UsageLine(HelpInfo(), names, ttyWidth) + UsageLine(HelpAllInfo(), names, ttyWidth)
    else intro
  }

  /** printUsage's text: the error, the preamble, the help options when there is a preamble, then the parameters in name order. */
  ghost function UsageText(registry: map<string, ParamInfo>, preamble: string, errorMsg: string, showAll: bool, names: TypeNames, ttyWidth: int): string
  {
    ListedParameters(registry, showAll);
    var listed := Shown(InOrder(registry.Keys), registry, showAll);
    UsageIntro(preamble, errorMsg, names, ttyWidth) + UsageLines(listed, registry, names, ttyWidth)
  }

  /** The first part of printUsage: the error, the preamble, the heading and the help options. */
  method PrintUsageIntro(preamble: string, errorMsg: string, names: TypeNames, ttyWidth: int) returns (text: string)
    ensures text == UsageIntro(preamble, errorMsg, names, ttyWidth)
  {
    text := if errorMsg != "" then errorMsg + "\n\n" else "";
    var broken := BreakLines(preamble, 2, ttyWidth, false);
    BreakLinesKeepsText(preamble, 2, ttyWidth);
    text := text + broken.value + "\n" + "Recognized options:\n";
    if preamble != "" {
      var help := PrintParamUsage(HelpInfo(), names, ttyWidth);
      var helpAll := PrintParamUsage(HelpAllInfo(), names, ttyWidth);
      text := text + help + helpAll;
    }
  }

  /** The usage line of a parameter printUsage shows; nothing for a hidden one unless all are shown. */
  function ShownLine(info: ParamInfo, showAll: bool, names: TypeNames, ttyWidth: int): string
  {
    if showAll || !info.isHidden then UsageLine(info, names, ttyWidth) else ""
  }

  /** The body of printUsage's loop over the registry. */
  method PrintIfShown(info: ParamInfo, showAll: bool, names: TypeNames, ttyWidth: int) returns (line: string)
    ensures line == ShownLine(info, showAll, names, ttyWidth)
  {
    line := "";
    if showAll || !info.isHidden {
      line := PrintParamUsage(info, names, ttyWidth);
    }
  }

  /** One more name: its usage line is added when it is shown. */
  lemma UsageLinesStep(sorted: seq<string>, i: nat, registry: map<string, ParamInfo>, showAll: bool, names: TypeNames, ttyWidth: int)
    requires i < |sorted| && AllRegistered(sorted, registry)
    ensures AllRegistered(sorted[..i], registry) && AllRegistered(sorted[..i + 1], registry)
    ensures UsageLines(Shown(sorted[..i + 1], registry, showAll), registry, names, ttyWidth)
      == UsageLines(Shown(sorted[..i], registry, showAll), registry, names, ttyWidth)
        + ShownLine(registry[sorted[i]], showAll, names, ttyWidth)
  {
    assert sorted[..i + 1] == sorted[..i] + [sorted[i]];
    assert sorted[..i + 1][..i] == sorted[..i];
    var before := Shown(sorted[..i], registry, showAll);
    if showAll || !registry[sorted[i]].isHidden {
      UsageLinesAppend(before, sorted[i], registry, names, ttyWidth);
    } else {
      assert Shown(sorted[..i + 1], registry, showAll) == before + [];
      assert before + [] == before;
      assert UsageLines(before, registry, names, ttyWidth) + "" == UsageLines(before, registry, names, ttyWidth);
    }
  }

  /** printUsage's loop over the registry: the usage line of every entry shown. */
  method PrintListed(registry: map<string, ParamInfo>, sorted: seq<string>, showAll: bool, names: TypeNames, ttyWidth: int)
    returns (text: string)
    requires AllRegistered(sorted, registry)
    ensures text == UsageLines(Shown(sorted, registry, showAll), registry, names, ttyWidth)
  {
    text := "";
    var i := 0;
    while i < |sorted|
      invariant 0 <= i <= |sorted|
      invariant AllRegistered(sorted[..i], registry)
      invariant text == UsageLines(Shown(sorted[..i], registry, showAll), registry, names, ttyWidth)
    {
      UsageLinesStep(sorted, i, registry, showAll, names, ttyWidth);
      var line := PrintIfShown(registry[sorted[i]], showAll, names, ttyWidth);
      text := text + line;
      i := i + 1;
    }
    assert sorted[..i] == sorted;
  }

  /** printUsage, visiting the registry in its key order. */
  method PrintUsage(ps: ParameterSystem, preamble: string, errorMsg: string, showAll: bool, names: TypeNames, ttyWidth: int)
    returns (text: string)
    ensures text == UsageText(ps.registry, preamble, errorMsg, showAll, names, ttyWidth)
  {
    var intro := PrintUsageIntro(preamble, errorMsg, names, ttyWidth);
    var sorted := SortedNames(ps.registry.Keys);
    ListedParameters(ps.registry, showAll);
    var listed := PrintListed(ps.registry, sorted, showAll, names, ttyWidth);
    text := intro + listed;
  }

  // ---------------------------------------------------------------------------
  // printParamList
  // ---------------------------------------------------------------------------

  /** One line of printParamList: the key and its text in quotes, then the default in a comment when asked for. */
  function ParamLine(key: string, info: ParamInfo, tree: Tree, printDefaults: bool): string
  {
    var value := if HasKey(tree, key) then GetOr(tree, key, "") else info.defaultValue;
    var head := key + "=\"" + value + "\"";
    var full := if printDefaults then head + " # default: \"" + info.defaultValue + "\"" else head;
    full + "\n"
  }

  /** The text shown is the tree's text for the key when it has one, and the registered default otherwise. */
  lemma ParamLineValue(key: string, info: ParamInfo, tree: Tree, printDefaults: bool)
    ensures var tail := (if printDefaults then " # default: \"" + info.defaultValue + "\"" else "") + "\n";
      ParamLine(key, info, tree, printDefaults) == key + "=\"" + GetOr(tree, key, info.defaultValue) + "\"" + tail
  {
    var value := if HasKey(tree, key) then GetOr(tree, key, "") else info.defaultValue;
    assert value == GetOr(tree, key, info.defaultValue);
    var head := key + "=\"" + value + "\"";
    if printDefaults {
      assert head + " # default: \"" + info.defaultValue + "\"" + "\n" == head + (" # default: \"" + info.defaultValue + "\"" + "\n");
    } else {
      assert head + "\n" == head + ("" + "\n");
    }
  }

  /** text printed in front of what follows, unless what follows throws. */
  function Joined(text: string, rest: Outcome<string>): Outcome<string>
  {
    match rest
    case Ok(t) => Ok(text + t)
    case Thrown(e) => Thrown(e)
  }

  lemma JoinedTwice(a: string, b: string, rest: Outcome<string>)
    ensures Joined(a, Joined(b, rest)) == Joined(a + b, rest)
  {
    if rest.Ok? {
      assert a + (b + rest.value) == (a + b) + rest.value;
    }
  }

  /** printParamList: the lines of the keys in order; `registry().at` throws std::out_of_range for an unregistered key. */
  function ParamList(keys: seq<string>, registry: map<string, ParamInfo>, tree: Tree, printDefaults: bool): Outcome<string>
  {
    if keys == [] then Ok("")
    else if keys[0] !in registry then Thrown(OutOfRange)
    else Joined(ParamLine(keys[0], registry[keys[0]], tree, printDefaults), ParamList(keys[1..], registry, tree, printDefaults))
  }

  /** printParamList succeeds exactly when every key is registered. */
  lemma {:induction false} ParamListOk(keys: seq<string>, registry: map<string, ParamInfo>, tree: Tree, printDefaults: bool)
    ensures ParamList(keys, registry, tree, printDefaults).Ok? <==> AllRegistered(keys, registry)
  {
    if keys != [] {
      ParamListOk(keys[1..], registry, tree, printDefaults);
      assert keys == [keys[0]] + keys[1..];
    }
  }

  /** printParamList. */
  method PrintParamList(ps: ParameterSystem, keys: seq<string>, printDefaults: bool) returns (r: Outcome<string>)
    ensures r == ParamList(keys, ps.registry, ps.tree, printDefaults)
  {
    var text := "";
    var i := 0;
    assert keys[0..] == keys;
    assert Joined(text, ParamList(keys, ps.registry, ps.tree, printDefaults)) == ParamList(keys, ps.registry, ps.tree, printDefaults) by {
      match ParamList(keys, ps.registry, ps.tree, printDefaults)
      case Ok(t) => assert "" + t == t;
      case Thrown(_) =>
    }
    while i < |keys|
      invariant 0 <= i <= |keys|
      invariant Joined(text, ParamList(keys[i..], ps.registry, ps.tree, printDefaults)) == ParamList(keys, ps.registry, ps.tree, printDefaults)
    {
      assert keys[i..][1..] == keys[i + 1..];
      var key := keys[i];
      if key !in ps.registry {
        return Thrown(OutOfRange);
      }
      var info := ps.registry[key];
      var value := info.defaultValue;
      if HasKey(ps.tree, key) {
        value := GetOr(ps.tree, key, "");
      }
      var line := key + "=\"" + value + "\"";
      if printDefaults {
        line := line + " # default: \"" + info.defaultValue + "\"";
      }
      line := line + "\n";
      assert line == ParamLine(key, info, ps.tree, printDefaults);
      JoinedTwice(text, line, ParamList(keys[i + 1..], ps.registry, ps.tree, printDefaults));
      text := text + line;
      i := i + 1;
    }
    assert text + "" == text;
    r := Ok(text);
  }

  // ---------------------------------------------------------------------------
  // printValues and printUnused
  // ---------------------------------------------------------------------------

  const KnownHeading := "# [known parameters which were specified at run-time]\n"
  const CompileTimeHeading := "# [parameters which were specified at compile-time]\n"
  const UnusedHeading := "# [unused run-time specified parameters]\n"

  /** The names printValues reports as specified at compile-time: those the tree has no text for, in the order given. */
  function CompileTimeKeys(keys: seq<string>, tree: Tree): (r: seq<string>)
    ensures forall x :: x in r ==> x in keys
    decreases |keys|
  {
    if keys == [] then []
    else
      var last := keys[|keys| - 1];
      assert keys == keys[..|keys| - 1] + [last];
      CompileTimeKeys(keys[..|keys| - 1], tree) + (if HasKey(tree, last) then [] else [last])
  }

  lemma {:induction false} CompileTimeMembers(keys: seq<string>, tree: Tree)
    ensures forall x :: x in CompileTimeKeys(keys, tree) <==> x in keys && !HasKey(tree, x)
    decreases |keys|
  {
    if keys != [] {
      var init := keys[..|keys| - 1];
      assert keys == init + [keys[|keys| - 1]];
      CompileTimeMembers(init, tree);
    }
  }

  lemma {:induction false} CompileTimeIncreasing(keys: seq<string>, tree: Tree)
    requires Increasing(keys)
    ensures Increasing(CompileTimeKeys(keys, tree))
    decreases |keys|
  {
    if keys != [] {
      var init := keys[..|keys| - 1];
      var last := keys[|keys| - 1];
      assert keys == init + [last];
      CompileTimeIncreasing(init, tree);
      var a := CompileTimeKeys(init, tree);
      if !HasKey(tree, last) {
        var r := a + [last];
        forall i, j | 0 <= i < j < |r| ensures Less(r[i], r[j]) {
          if j == |a| {
            assert r[i] in init;
            var k :| 0 <= k < |init| && init[k] == r[i];
            assert keys[k] == r[i] && keys[|keys| - 1] == r[j];
          } else {
            assert r[i] == a[i] && r[j] == a[j];
          }
        }
      } else {
        assert CompileTimeKeys(keys, tree) == a + [];
      }
    }
  }

  /** The lines for unused keys: each key with the tree's text for it. */
  function UnusedLines(keys: seq<string>, tree: Tree): string
    decreases |keys|
  {
    if keys == [] then []
    else
      var last := keys[|keys| - 1];
      UnusedLines(keys[..|keys| - 1], tree) + (last + "=\"" + GetOr(tree, last, "") + "\"\n")
  }

  /**
   * printValues: the run-time values of registered parameters with their
   * defaults, the registered parameters the tree has no text for (in name
   * order), and the tree's keys nobody registered, each part with its
   * heading and left out when empty.
   */
  ghost function ValuesText(registry: map<string, ParamInfo>, tree: Tree): string
  {
    var all := FlatKeys(tree, "");
    var runTime := Registered(all, registry);
    var unknown := Unregistered(all, registry);
    var compileTime := CompileTimeKeys(InOrder(registry.Keys), tree);
    assert ParamList(runTime, registry, tree, true).Ok? by {
      PartitionKeys(all, registry);
      ParamListOk(runTime, registry, tree, true);
    }
    assert ParamList(compileTime, registry, tree, false).Ok? by {
      InOrderSorted(registry.Keys);
      CompileTimeMembers(InOrder(registry.Keys), tree);
      ParamListOk(compileTime, registry, tree, false);
    }
    (if runTime != [] then KnownHeading + ParamList(runTime, registry, tree, true).value else "")
    + (if compileTime != [] then CompileTimeHeading + ParamList(compileTime, registry, tree, false).value else "")
    + (if unknown != [] then UnusedHeading + UnusedLines(unknown, tree) else "")
  }

  /** Every registered name is reported once: as run-time when the tree has a text for it, else as compile-time, in name order. */
  lemma ValuesReportEachRegistered(registry: map<string, ParamInfo>, tree: Tree)
    ensures var all := FlatKeys(tree, "");
      forall k :: k in registry ==>
        (k in Registered(all, registry) <==> HasKey(tree, k))
        && (k in CompileTimeKeys(InOrder(registry.Keys), tree) <==> !HasKey(tree, k))
    ensures Increasing(CompileTimeKeys(InOrder(registry.Keys), tree))
    ensures var all := FlatKeys(tree, "");
      forall k :: k in all ==> (k in Registered(all, registry) <==> k in registry) && (k in Unregistered(all, registry) <==> k !in registry)
  {
    var all := FlatKeys(tree, "");
    PartitionKeys(all, registry);
    InOrderSorted(registry.Keys);
    CompileTimeMembers(InOrder(registry.Keys), tree);
    CompileTimeIncreasing(InOrder(registry.Keys), tree);
    forall k | k in registry ensures HasKey(tree, k) <==> k in all {
      HasKeyListed(tree, k);
    }
  }

  /** printValues' and printUnused's loop: the flattened keys with and without a registry entry. */
  method SplitKeys(keys: seq<string>, registry: map<string, ParamInfo>) returns (known: seq<string>, unknown: seq<string>)
    ensures known == Registered(keys, registry) && unknown == Unregistered(keys, registry)
  {
    known, unknown := [], [];
    var i := 0;
    while i < |keys|
      invariant 0 <= i <= |keys|
      invariant known == Registered(keys[..i], registry) && unknown == Unregistered(keys[..i], registry)
    {
      RegisteredStep(keys, i, registry);
      if keys[i] in registry {
        known := known + [keys[i]];
      } else {
        unknown := unknown + [keys[i]];
      }
      i := i + 1;
    }
    assert keys[..i] == keys;
  }

  /** printValues' loop over the registry: the names without a text in the tree. */
  method SelectCompileTime(keys: seq<string>, tree: Tree) returns (r: seq<string>)
    ensures r == CompileTimeKeys(keys, tree)
  {
    r := [];
    var i := 0;
    while i < |keys|
      invariant 0 <= i <= |keys|
      invariant r == CompileTimeKeys(keys[..i], tree)
    {
      assert keys[..i + 1][..i] == keys[..i];
      if !HasKey(tree, keys[i]) {
        r := r + [keys[i]];
      }
      i := i + 1;
    }
    assert keys[..i] == keys;
  }

  /** The loop that prints the unused keys with their texts. */
  method PrintUnknown(keys: seq<string>, tree: Tree) returns (text: string)
    ensures text == UnusedLines(keys, tree)
  {
    text := "";
    var i := 0;
    while i < |keys|
      invariant 0 <= i <= |keys|
      invariant text == UnusedLines(keys[..i], tree)
    {
      assert keys[..i + 1][..i] == keys[..i];
      text := text + (keys[i] + "=\"" + GetOr(tree, keys[i], "") + "\"\n");
      i := i + 1;
    }
    assert keys[..i] == keys;
  }

  /** printValues. */
  method PrintValues(ps: ParameterSystem) returns (text: string)
    ensures text == ValuesText(ps.registry, ps.tree)
  {
    var all := GetFlattenedKeyList([], ps.tree, "");
    assert all == FlatKeys(ps.tree, "") by {
      assert [] + FlatKeys(ps.tree, "") == FlatKeys(ps.tree, "");
    }
    var runTime, unknown := SplitKeys(all, ps.registry);
    var sorted := SortedNames(ps.registry.Keys);
    var compileTime := SelectCompileTime(sorted, ps.tree);
    var known := "";
    if |runTime| > 0 {
      var listed := PrintParamList(ps, runTime, true);
      PartitionKeys(all, ps.registry);
      ParamListOk(runTime, ps.registry, ps.tree, true);
      known := KnownHeading + listed.value;
    }
    var fixed := "";
    if |compileTime| > 0 {
      var listed := PrintParamList(ps, compileTime, false);
      InOrderSorted(ps.registry.Keys);
      CompileTimeMembers(sorted, ps.tree);
      ParamListOk(compileTime, ps.registry, ps.tree, false);
      fixed := CompileTimeHeading + listed.value;
    }
    var unused := "";
    if |unknown| > 0 {
      var lines := PrintUnknown(unknown, ps.tree);
      unused := UnusedHeading + lines;
    }
    text := known + fixed + unused;
  }

  /** printUnused: whether some key of the tree has no registry entry, and the report of those keys. */
  method PrintUnused(ps: ParameterSystem) returns (printed: bool, text: string)
    ensures var unknown := Unregistered(FlatKeys(ps.tree, ""), ps.registry);
      text == (if unknown != [] then UnusedHeading + UnusedLines(unknown, ps.tree) else "")
    ensures printed <==> exists k :: k in FlatKeys(ps.tree, "") && k !in ps.registry
    ensures !printed ==> text == ""
  {
    var all := GetFlattenedKeyList([], ps.tree, "");
    assert all == FlatKeys(ps.tree, "") by {
      assert [] + FlatKeys(ps.tree, "") == FlatKeys(ps.tree, "");
    }
    var _, unknown := SplitKeys(all, ps.registry);
    PartitionKeys(all, ps.registry);
    if |unknown| > 0 {
      var lines := PrintUnknown(unknown, ps.tree);
      assert unknown[0] in all;
      return true, UnusedHeading + lines;
    }
    return false, "";
  }
}
