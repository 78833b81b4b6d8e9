# OPM run-time parameter registry in Dafny

This project models the parameter system of the OPM simulators
(`opm/models/utils/parametersystem.hpp` and `parametersystem.cpp`). Each
parameter is registered under a CamelCase name with a type name, a usage
text and a default. The registry collects overrides from the command line
(`--kebab-name=value`) and from INI-style files into a tree of strings. It
then resolves each parameter to its override or its default, and it prints
help texts and value listings.

The modules follow the parts of that code:

| file | module | what it holds |
|---|---|---|
| `outcomes.dfy` | `Outcomes` | `Option`, and `Outcome`, whose `Thrown(error)` stands for each C++ exception |
| `chars.dfy` | `Chars` | `<cctype>` classes in the "C" locale, `std::to_string`, the byte-wise key order of `std::map` |
| `key_codec.dfy` | `KeyCodec` | `parseQuotedValue`, `parseUnquotedValue`, `removeLeadingSpace`, `parseKey`, `transformKey` and the CamelCase to `--kebab-case` conversion |
| `params.dfy` | `Params` | `ParamInfo`, its `operator==`, the `=TYPE` tag |
| `param_tree.dfy` | `ParamTree` | the override tree, its flattened view and `getFlattenedKeyList` |
| `layout.dfy` | `Layout` | `breakLines`, as written and corrected |
| `registry.dfy` | `Registry` | class `ParameterSystem`: `MetaData` storage, `clear`/`reset`, `Register`, `Hide`, `SetDefault`, `Get`, `IsSet`, `endRegistration`, `getLists` |
| `command_line.dfy` | `CommandLine` | `parseCommandLineOptions` and `noPositionalParameters_` |
| `parameter_file.dfy` | `ParameterFile` | `parseParameterFile` |
| `report.dfy` | `Report` | `printParamUsage`, `printUsage`, `printParamList`, `printValues`, `printUnused` |

Code that mutates state or loops in C++ is a Dafny `method` with the same
loop. It is proved equal to a function that specifies it, and the
properties are lemmas about that function. Examples are the consuming
parsers, `breakLines`, `transformKey`, both tree parsers and the printers.
The registry state is a class whose methods have `modifies` clauses. The
printers return the text they would write.

Three behaviours of the code that a reader may not expect, all kept by the
model:

- The command-line spelling of a name gets a second leading `-` only when
  the name starts with an upper-case letter. The help entry `h,--help`
  prints as `-h,--help`. The length of the name plays no part.
- `Get` without the registration check, on an unregistered name, inserts a
  blank `ParamInfo` into the registry (`std::map::operator[]` at
  `parametersystem.hpp:426`). `Registry.ParameterSystem.Get` is therefore a
  method that may change the registry. A later `Register` of that name then
  conflicts (`Registry.GetBeforeRegisterConflicts`).
- The syntax checks of `parseParameterFile` construct exceptions but never
  throw them (see Findings). The file parser takes a `strict` flag:
  - `false` is the code as written;
  - `true` throws the constructed `SyntaxError`s.

## Model

| member | source | states |
|---|---|---|
| Chars.ToUpper | opm/models/utils/parametersystem.cpp:518 | `std::toupper` in the C locale: a lower-case letter becomes its upper-case letter (and back under ToLower); every other character is unchanged |
| Chars.ToLower | opm/models/utils/parametersystem.cpp:190 | `std::tolower`: an upper-case letter becomes the lower-case letter 32 code points up; every other character is unchanged |
| Chars.NatToString | opm/models/utils/parametersystem.cpp:353 | `std::to_string` of a line number: a non-empty run of decimal digits whose value is the number |
| Chars.LessIrreflexive | opm/models/utils/parametersystem.hpp:197 | the key order of the registry map is irreflexive |
| Chars.LessTransitive | opm/models/utils/parametersystem.hpp:197 | the key order of the registry map is transitive |
| Chars.LessTotal | opm/models/utils/parametersystem.hpp:197 | any two distinct keys are ordered one way or the other |
| Chars.InOrderSorted | opm/models/utils/parametersystem.cpp:325 | iterating the registry visits each name exactly once, in strictly ascending order |
| Chars.SortedNames | opm/models/utils/parametersystem.cpp:422 | the loop that collects the map's keys yields them in iteration order |
| KeyCodec.SplitAt | opm/models/utils/parametersystem.cpp:493-503 | scanning up to the first stop character: the two parts concatenate to the input, the first has no stop character, the second is empty or starts with one |
| KeyCodec.SplitAtUnique | opm/models/utils/parametersystem.cpp:493-503 | any split with those three properties is the split the scan returns |
| KeyCodec.ParseUnquotedValue | opm/models/utils/parametersystem.cpp:74-84 | value ++ remainder == input, the value has no whitespace, the remainder is empty or starts with whitespace |
| KeyCodec.ParseKey | opm/models/utils/parametersystem.cpp:493-503 | key ++ remainder == input, the key has neither whitespace nor `=`, the remainder is empty or starts with one of them |
| KeyCodec.RemoveLeadingSpace | opm/models/utils/parametersystem.cpp:86-93 | the result is the suffix left after dropping only whitespace, and it does not start with whitespace |
| KeyCodec.Unescape | opm/models/utils/parametersystem.cpp:42-71 | on success the remainder is the part of the input after a closing quote |
| KeyCodec.ParseQuotedValue | opm/models/utils/parametersystem.cpp:37-72 | input not starting with `"` throws "Expected quoted string"; otherwise the loop's result is the quoted-value decoder's |
| KeyCodec.EscapeChar | opm/models/utils/parametersystem.cpp:51-60 | each character's encoding is itself or a backslash and an escape letter that the decoder maps back to it |
| KeyCodec.UnescapeEscape | opm/models/utils/parametersystem.cpp:44-70 | decoding an encoded value followed by `"` gives back the value and exactly what follows the quote |
| KeyCodec.UnterminatedQuoteFails | opm/models/utils/parametersystem.cpp:44-70 | without a closing quote, `substr(i+1)` runs past the end and throws std::out_of_range |
| KeyCodec.QuotedRoundTrip | opm/models/utils/parametersystem.cpp:37-72 | parseQuotedValue of `"` + encoded value + `"` + rest returns the value and leaves rest |
| KeyCodec.UnknownEscapeFails | opm/models/utils/parametersystem.cpp:61-62 | a backslash followed by anything but n, r, t, `"` or `\` throws "Unknown escape character" |
| KeyCodec.CamelTail | opm/models/utils/parametersystem.cpp:522-533 | on success the converted tail is alphanumeric and one character shorter per `-` |
| KeyCodec.CanonicalKey | opm/models/utils/parametersystem.cpp:505-536 | on success the result has no `-`, is as long as the key less its number of `-`, and its first character is upper-cased exactly when asked |
| KeyCodec.TransformKey | opm/models/utils/parametersystem.cpp:505-536 | the loop's result is the canonical key, or the same exception |
| KeyCodec.KeyChar | opm/models/utils/parametersystem.cpp:522-532 | one character of the loop: a dash and a letter give the upper-case letter, an alphanumeric gives itself, anything else makes the whole tail invalid |
| KeyCodec.CamelTailAccepts | opm/models/utils/parametersystem.cpp:522-533 | the tail converts iff every `-` is followed by a letter and every other character is alphanumeric |
| KeyCodec.CanonicalKeyAccepts | opm/models/utils/parametersystem.cpp:511-533 | transformKey succeeds iff the key is non-empty, starts with a letter and has a well-formed tail |
| KeyCodec.CanonicalKeyPrefix | opm/models/utils/parametersystem.cpp:505-536 | the error prefix affects only the messages, not a successful result |
| KeyCodec.NameOf | opm/models/utils/parametersystem.cpp:505-536 | a well-formed key has one canonical name, whatever the prefix |
| KeyCodec.WellFormedKeyHasNoStop | opm/models/utils/parametersystem.cpp:493-503 | a well-formed key holds no whitespace and no `=`, so parseKey takes all of it |
| KeyCodec.CamelTailOfKebab | opm/models/utils/parametersystem.cpp:185-191 | converting back the kebab spelling of an alphanumeric tail gives the tail |
| KeyCodec.CanonicalKeyOfCommandLineName | opm/models/utils/parametersystem.cpp:185-191 | for a name made of an upper-case letter and alphanumerics, the printed name starts with `--` and transformKey of what follows gives back the name |
| KeyCodec.KebabOfCamelTail | opm/models/utils/parametersystem.cpp:185-191 | for a lower-case tail that transformKey accepts, the kebab spelling of its CamelCase form is the tail |
| KeyCodec.KebabOfCanonicalKey | opm/models/utils/parametersystem.cpp:185-191 | the kebab spelling of an accepted lower-case key's canonical name reproduces the key after a `-` |
| KeyCodec.CommandLineNameOfCanonicalKey | opm/models/utils/parametersystem.cpp:185-191 | the printed name of an accepted lower-case key's canonical name is `--` + the key |
| Params.SameIgnoresDefaultAndHidden | opm/models/utils/parametersystem.cpp:99-105 | changing default or hidden flag keeps two descriptions equal |
| Params.SameExactly | opm/models/utils/parametersystem.cpp:99-105 | operator== holds iff the descriptions agree once default and hidden flag are equalized |
| Params.SameEquivalence | opm/models/utils/parametersystem.cpp:99-105 | operator== is reflexive, symmetric and transitive |
| Params.TypeTag | opm/models/utils/parametersystem.cpp:197-226 | the tag is empty exactly for an empty, unrecognized type name; otherwise it starts with `=`, and any non-empty type name has one |
| ParamTree.SetThenLookup | opm/models/utils/parametersystem.hpp:375 | after `tree()[k] = v`, looking up k gives v and every other key is unchanged |
| ParamTree.HasKeyListed | opm/models/utils/parametersystem.cpp:264-279 | a key is in the tree iff it is among the flattened keys |
| ParamTree.EmptyHasNoKeys | opm/models/utils/parametersystem.hpp:175-181 | a fresh tree has no keys |
| ParamTree.FlatKeysPrefixed | opm/models/utils/parametersystem.cpp:264-279 | every flattened key starts with the prefix it was listed under |
| ParamTree.FlatKeysSplit | opm/models/utils/parametersystem.cpp:264-279 | the flattened keys are the node's prefixed value keys, then those of each sub-tree in order |
| ParamTree.GetFlattenedKeyList | opm/models/utils/parametersystem.cpp:264-279 | the recursive method returns `dest` followed by the flattened keys: existing contents are kept |
| Layout.Spaces | opm/models/utils/parametersystem.cpp:145-146 | the indentation is n blanks, none for n <= 0 |
| Layout.Step | opm/models/utils/parametersystem.cpp:116-149 | one loop iteration keeps the counters ordered and moves the start or the position forward, so the backwards-moving loop ends |
| Layout.AppendIndent | opm/models/utils/parametersystem.cpp:145-146 | the indentation loop appends exactly indentWidth blanks |
| Layout.LoopBody | opm/models/utils/parametersystem.cpp:117-148 | one iteration appends the rendering of the pieces its step plans and moves to the step's next counters |
| Layout.EndLine | opm/models/utils/parametersystem.cpp:129-146 | at the wrap column the line ends at the last blank, which is dropped, or at the current position, followed by a newline and the indentation, as the step plans |
| Layout.BreakLines | opm/models/utils/parametersystem.cpp:107-154 | the method returns the rendered plan: copied text, with each break as `"\n"` and exactly indentWidth blanks; None where the source's substr throws |
| Layout.FitsUnchanged | opm/models/utils/parametersystem.cpp:107-154 | if no line of the message reaches the width, the result is the message itself |
| Layout.AsWrittenDropsCharacter | opm/models/utils/parametersystem.cpp:120 | as written, `"\nabc"` at width 2 breaks after `a` and drops `b` |
| Layout.CorrectedKeepsCharacter | opm/models/utils/parametersystem.cpp:117-136 | corrected, the same call yields `"\nab\nc"` |
| Layout.AsWrittenOutOfRange | opm/models/utils/parametersystem.cpp:130-151 | as written, `"\na"` at width 0 ends with `substr` past the end (std::out_of_range); corrected it succeeds |
| Layout.BreakLinesKeepsText | opm/models/utils/parametersystem.cpp:107-154 | corrected, breakLines never fails, and removing the inserted breaks gives back the message; every break replaces a blank or nothing |
| Registry.Resolve | opm/models/utils/parametersystem.hpp:421-454 | without a tree value the converted default; with one, success iff the text converts, the value then being the converted tree text (the tree overrides the default), else an error naming the parameter and text |
| Registry.ResolveString | opm/models/utils/parametersystem.hpp:427-429 | a string parameter resolves to the tree's text, else the default text |
| Registry.ResolveBoolDefault | opm/models/utils/parametersystem.hpp:430-431 | a bool default is true iff its text is `"1"` |
| Registry.RunFinalizersOk | opm/models/utils/parametersystem.cpp:172-174 | the finalizers succeed iff each re-read succeeds; otherwise the error is that of the first one failing, unregistered or unconvertible |
| Registry.RunFinalizersRegistered | opm/models/utils/parametersystem.cpp:172-174 | when every finalizer names a registered parameter, closing can fail only with a text that does not convert |
| Registry.PartitionKeys | opm/models/utils/parametersystem.hpp:491-500 | registered and unregistered keys together are a permutation of the keys; one holds exactly the registered ones, the other the rest |
| Registry.PartitionCounts | opm/models/utils/parametersystem.hpp:491-500 | every key goes to exactly one of the two lists, as often as it occurs |
| Registry.RegisteredMembers | opm/models/utils/parametersystem.hpp:491-500 | a key is in the used list iff it was flattened and is registered |
| Registry.UnregisteredMembers | opm/models/utils/parametersystem.hpp:491-500 | a key is in the unused list iff it was flattened and is not registered |
| Registry.WithValues | opm/models/utils/parametersystem.hpp:494-498 | each listed key is paired with its tree text |
| Registry.SplitByRegistration | opm/models/utils/parametersystem.hpp:491-500 | the loop yields the registered and the unregistered keys with their texts, in order |
| Registry.ParameterSystem.constructor | opm/models/utils/parametersystem.hpp:188-194 | the storage starts with an empty registry, no finalizers, registration open, an empty tree |
| Registry.ParameterSystem.Clear | opm/models/utils/parametersystem.hpp:175-181 | clear restores that initial state |
| Registry.ParameterSystem.Reset | opm/models/utils/parametersystem.cpp:156-159 | reset is clear |
| Registry.ParameterSystem.Register | opm/models/utils/parametersystem.hpp:550-585 | closed: throws, nothing changes; open: a finalizer is appended before the duplicate check; an equal description leaves the map, an unequal one throws; a new name is inserted, not hidden |
| Registry.ParameterSystem.Hide | opm/models/utils/parametersystem.hpp:593-610 | throws when closed or unknown; otherwise only that entry's hidden flag is set |
| Registry.ParameterSystem.SetDefault | opm/models/utils/parametersystem.hpp:457-468 | throws for an unregistered name, with no lifecycle check; otherwise only that entry's default changes |
| Registry.ParameterSystem.Get | opm/models/utils/parametersystem.hpp:406-455 | with the check: throws while open or when unregistered; otherwise resolves with the entry's current default, inserting a blank entry for a missing name |
| Registry.ParameterSystem.IsSet | opm/models/utils/parametersystem.hpp:514-532 | succeeds iff unchecked or closed-and-registered, then returns exactly whether the tree has the name; the two errors otherwise |
| Registry.ParameterSystem.EndRegistration | opm/models/utils/parametersystem.cpp:161-176 | a second call throws; the first closes registration, runs the finalizers and empties their list when they all pass; with every finalizer registered, the only possible error is an unconvertible text |
| Registry.ParameterSystem.GetLists | opm/models/utils/parametersystem.hpp:476-501 | throws while open with both lists empty; otherwise the registered and unregistered flattened keys with their texts |
| Registry.GetBeforeRegisterConflicts | opm/models/utils/parametersystem.hpp:426 | an unchecked Get of an unknown name returns `""`, and registering it then throws |
| Registry.SetDefaultReachesGet | opm/models/utils/parametersystem.hpp:457-468 | a default changed by SetDefault is what Get returns |
| Registry.TreeOverridesDefault | opm/models/utils/parametersystem.hpp:454 | a tree value overrides the default, and Register after endRegistration throws |
| CommandLine.NoPositionalParameters | opm/models/utils/parametersystem.cpp:331-341 | handles nothing, writes nothing, and reports `Illegal parameter "<arg>".` |
| CommandLine.Step | opm/models/utils/parametersystem.hpp:299-376 | one argument either ends parsing or moves the index forward |
| CommandLine.ProcessArgument | opm/models/utils/parametersystem.hpp:300-375 | the loop body does what one step specifies |
| CommandLine.ParseCommandLineOptions | opm/models/utils/parametersystem.hpp:276-378 | the method's result, tree and printUsage call are the parser function's |
| CommandLine.HelpRequestFinds | opm/models/utils/parametersystem.hpp:283-295 | the help scan finds something iff some argument is `-h`, `--help` or `--help-all`; showing all needs `--help-all` |
| CommandLine.HelpIntercepts | opm/models/utils/parametersystem.hpp:282-295 | with a preamble and a help flag anywhere, the result is `"Help called"`, the tree is untouched, and usage is printed |
| CommandLine.NoPreambleNoHelp | opm/models/utils/parametersystem.hpp:283 | without a preamble there is no help scan and no usage output |
| CommandLine.NoUsageWithoutPreamble | opm/models/utils/parametersystem.hpp:312-370 | without a preamble no error path prints usage |
| CommandLine.PositionalRefused | opm/models/utils/parametersystem.hpp:300-319 | a non-option that the callback handles fewer than once ends parsing with the callback's message; the callback's writes stay |
| CommandLine.PositionalAccepted | opm/models/utils/parametersystem.hpp:320-324 | otherwise parsing continues numHandled arguments later, with the positional count one higher |
| CommandLine.IllegalPositional | opm/models/utils/parametersystem.hpp:300-319 | with the default callback, a non-option ends parsing with `Illegal parameter` and an unchanged tree |
| CommandLine.NotALetter | opm/models/utils/parametersystem.hpp:333-344 | `--` followed by a non-letter ends with a non-empty message, tree unchanged |
| CommandLine.SplitOption | opm/models/utils/parametersystem.hpp:346-350 | an option `--key=value` is an option, and parseKey splits it into key and `=value` |
| CommandLine.OptionStored | opm/models/utils/parametersystem.hpp:346-375 | a new well-formed `--key=value` stores the text after the first `=` verbatim under transformKey(key) |
| CommandLine.OptionTwice | opm/models/utils/parametersystem.hpp:351-359 | a canonical name seen before ends with "specified multiple times" and leaves the tree as it was |
| CommandLine.BareOptionTwice | opm/models/utils/parametersystem.hpp:350-367 | a bare `--key` whose name was seen before is reported as given twice: the duplicate check comes before the missing-`=` check |
| CommandLine.MissingValue | opm/models/utils/parametersystem.hpp:362-370 | `--key` without `=` ends with "is missing a value" |
| CommandLine.BadKeyThrows | opm/models/utils/parametersystem.hpp:350 | a key transformKey rejects throws instead of returning a message, and prints no usage |
| CommandLine.OptionsStored | opm/models/utils/parametersystem.hpp:299-377 | a run of distinct well-formed options stores each value and returns `""` |
| CommandLine.KebabOptionName | opm/models/utils/parametersystem.hpp:346-350 | the name printUsage shows for a parameter, given back as an option, is read as that parameter |
| ParameterFile.ReadValue | opm/models/utils/parametersystem.cpp:372-393 | the statements after the key compute the value function |
| ParameterFile.ProcessLine | opm/models/utils/parametersystem.cpp:350-393 | one loop body computes what the line means for the loop |
| ParameterFile.ReadKey | opm/models/utils/parametersystem.cpp:493-503 | the key is the text up to the first blank or `=`, the rest is left to the value, and the key is canonicalized with its first letter capitalized |
| ParameterFile.ParseParameterFile | opm/models/utils/parametersystem.cpp:343-400 | the method's outcome and tree are the file function's |
| ParameterFile.CommentsOnlyChangeNothing | opm/models/utils/parametersystem.cpp:355-360 | blank and comment lines (`#`, `;` after whitespace) change nothing |
| ParameterFile.StoreRule | opm/models/utils/parametersystem.cpp:396-398 | the tree is written only if overwrite is set or the key is absent; other keys are untouched |
| ParameterFile.LineStored | opm/models/utils/parametersystem.cpp:365-398 | a new key with a value is stored by that rule and parsing goes on with the key seen |
| ParameterFile.DuplicateKey | opm/models/utils/parametersystem.cpp:368-369 | a canonical key repeated in one file throws "seen multiple times", tree as it was |
| ParameterFile.SameKeyTwice | opm/models/utils/parametersystem.cpp:368-370 | two lines with the same key: the first is stored, the second throws |
| ParameterFile.KeyedLine | opm/models/utils/parametersystem.cpp:365-366 | a line starting with a well-formed key is keyed by its canonical name |
| ParameterFile.ValueAfterEquals | opm/models/utils/parametersystem.cpp:373-378 | whitespace, `=` and whitespace are consumed before the value |
| ParameterFile.PlainText | opm/models/utils/parametersystem.cpp:388-393 | an unquoted value followed by whitespace and a comment reads as the value |
| ParameterFile.QuotedText | opm/models/utils/parametersystem.cpp:385-393 | a quoted, escaped value reads as the value, in either mode, when what follows the closing quote is blank or a comment |
| ParameterFile.Assignment | opm/models/utils/parametersystem.cpp:365-393 | key, spaced `=` and a readable value give the canonical name and that value |
| ParameterFile.PlainAssignment | opm/models/utils/parametersystem.cpp:355-393 | `key = value # comment` stores value, in either mode |
| ParameterFile.QuotedAssignment | opm/models/utils/parametersystem.cpp:355-393 | `key = "escaped" # comment` stores the decoded value, in either mode |
| ParameterFile.StrictOnlyRejects | opm/models/utils/parametersystem.cpp:373-393 | throwing the syntax errors only rejects lines: what strict mode accepts is read the same as written, and the same lines are skipped |
| ParameterFile.StrictValueShape | opm/models/utils/parametersystem.cpp:373-381 | strict success needs `=` after the key and a value that is not empty or a comment |
| ParameterFile.UnseparatedValue | opm/models/utils/parametersystem.cpp:373-377 | a value after whitespace but no `=` loses its first character as written; strict mode throws |
| ParameterFile.MissingEqualsDropsCharacter | opm/models/utils/parametersystem.cpp:375 | `Key value` is stored as `alue` as written; strict mode throws the syntax error |
| ParameterFile.KeyAlone | opm/models/utils/parametersystem.cpp:374-377 | a key alone on its line throws std::out_of_range as written, the syntax error in strict mode |
| ParameterFile.EmptyValue | opm/models/utils/parametersystem.cpp:377-381 | `Key=` stores the empty text as written; strict mode throws |
| ParameterFile.CommentValue | opm/models/utils/parametersystem.cpp:378-388 | after `=`, a comment is read as the value as written; strict mode throws |
| ParameterFile.CommentAsValue | opm/models/utils/parametersystem.cpp:381 | `Key=#c` stores `#c` as written; strict mode throws |
| ParameterFile.TrailingValue | opm/models/utils/parametersystem.cpp:388-393 | after the value, non-comment text is ignored as written; strict mode throws |
| ParameterFile.TrailingTextIgnored | opm/models/utils/parametersystem.cpp:393 | `Key=a b` stores `a` as written; strict mode throws |
| Report.PadTo | opm/models/utils/parametersystem.cpp:228-231 | padding keeps the text, appends blanks only, and reaches at least the column |
| Report.ToCommandLineName | opm/models/utils/parametersystem.cpp:184-191 | the loop builds `-`, then per character a `-` before each upper-case letter and the lower-cased letter |
| Report.FillTo50 | opm/models/utils/parametersystem.cpp:229-231 | the padding loop fills to column 50 |
| Report.PrintParamUsage | opm/models/utils/parametersystem.cpp:178-262 | the method returns the usage line of the description |
| Report.UsageMessageLayout | opm/models/utils/parametersystem.cpp:193-235 | the message is four blanks, the name and tag, blanks up to column 50 or more, then the usage text; nothing more for a flag |
| Report.TypedUsageEnds | opm/models/utils/parametersystem.cpp:237-255 | with a type the message ends in `.` and ` Default: ` and the rendered default |
| Report.BoolDefaultShown | opm/models/utils/parametersystem.cpp:242-247 | a bool default prints `false` iff its text is `"0"`, else `true` |
| Report.UsageLineKeepsMessage | opm/models/utils/parametersystem.cpp:257-258 | the line is the message with breaks inserted at blanks, indented to 52, and a newline |
| Report.UsageLineFits | opm/models/utils/parametersystem.cpp:257-258 | a message that fits the width is printed as is |
| Report.KebabTailNoUpper | opm/models/utils/parametersystem.cpp:184-191 | a name without upper-case letters is printed after a single `-` |
| Report.HelpNamesHaveNoUpper | opm/models/utils/parametersystem.cpp:316-322 | neither help entry name has an upper-case letter, so by KebabTailNoUpper they print as `-h,--help` and `--help-all` |
| Report.Shown | opm/models/utils/parametersystem.cpp:325-328 | the listed parameters are among the registered ones |
| Report.ShownMembers | opm/models/utils/parametersystem.cpp:325-328 | a parameter is listed iff it is registered and showAll or not hidden |
| Report.ShownIncreasing | opm/models/utils/parametersystem.cpp:325-328 | filtering keeps the names in ascending order |
| Report.ListedParameters | opm/models/utils/parametersystem.cpp:325-328 | printUsage lists exactly the shown registered names, in ascending order |
| Report.PrintUsageIntro | opm/models/utils/parametersystem.cpp:306-323 | the error message and a blank line if any, the wrapped preamble, the heading, and the two help entries when there is a preamble |
| Report.PrintIfShown | opm/models/utils/parametersystem.cpp:326-327 | a hidden parameter is printed only with showAll |
| Report.PrintListed | opm/models/utils/parametersystem.cpp:325-328 | the loop prints the usage lines of the shown parameters in order |
| Report.PrintUsage | opm/models/utils/parametersystem.cpp:301-329 | the method returns the whole usage text |
| Report.ParamLineValue | opm/models/utils/parametersystem.cpp:289-297 | printParamList prints the tree's text if present, else the default, and the default in a comment when asked |
| Report.ParamListOk | opm/models/utils/parametersystem.cpp:288-289 | printParamList succeeds iff every key is registered (`at` throws otherwise) |
| Report.PrintParamList | opm/models/utils/parametersystem.cpp:282-299 | the loop returns the lines of all keys, or out_of_range for an unregistered one |
| Report.CompileTimeKeys | opm/models/utils/parametersystem.cpp:421-429 | the compile-time list is drawn from the given names |
| Report.CompileTimeMembers | opm/models/utils/parametersystem.cpp:421-429 | a name is compile-time iff it has no text in the tree |
| Report.CompileTimeIncreasing | opm/models/utils/parametersystem.cpp:422-429 | the compile-time list keeps the registry's ascending order |
| Report.ValuesReportEachRegistered | opm/models/utils/parametersystem.cpp:402-449 | each registered name is run-time iff the tree has it, compile-time iff not; each flattened key is known iff registered, unused iff not |
| Report.SplitKeys | opm/models/utils/parametersystem.cpp:409-418 | the loop yields the registered and the unregistered flattened keys, in order |
| Report.SelectCompileTime | opm/models/utils/parametersystem.cpp:421-429 | the loop yields the compile-time names |
| Report.PrintUnknown | opm/models/utils/parametersystem.cpp:445-447 | each unused key is printed with its tree text |
| Report.PrintValues | opm/models/utils/parametersystem.cpp:402-449 | the three headed sections, each left out when empty |
| Report.PrintUnused | opm/models/utils/parametersystem.cpp:451-473 | prints the unused keys under their heading and returns true iff some flattened key is unregistered; nothing otherwise |

## Left out

- `getTtyWidth` uses `isatty` and `ioctl`: the terminal width is a parameter of the printers.
- Type names come from `Dune::className<T>()` (reflection). They are strings, and the sets the tag compares against are given as `Params.TypeNames`. The literals `"bool"` and `"const char *"` are kept. `detail::getParamName` is left out too: a parameter is named by its string.
- Typed conversions (`std::from_chars`, `strtod`, `strtold`, `quad`, the tree's `get<T>`, `ostringstream` formatting of defaults) depend on floating point and on the library. They are the functions of a `Registry.Conversion` given by the caller. Strings and bools are modelled concretely.
- `Dune::ParameterTree` is not part of this model. It is replaced by a tree of value entries and named sub-trees. There is no dotted-path splitting, the parsers write top-level keys only, and key order is insertion order.
- Streams: each printer returns its text. `parseCommandLineOptions` returns the printUsage call it makes (error message, stream, showAll) instead of the printed text; `Report.PrintUsage` gives that text. `std::flush` is left out.
- Files: `parseParameterFile` gets the lines `std::getline` returns. A file that cannot be opened has none. The final empty read after the last line is a blank line, which changes nothing. The line counter is unbounded (the source's `unsigned` would wrap after 2^32 lines).
- The virtual finalizer classes are the sequence of names they re-read. A re-read's typed conversion is the `accepts` predicate given to `EndRegistration`.
- The positional callback (`std::function` or template) is a function value that returns what it handled, its message, its tree writes and its new set of seen keys.
- The static `Storage_` singleton is one `ParameterSystem` object.
- Character classes are ASCII in the "C" locale, and argument strings are taken to contain no NUL character.
- Report.PrintParamList: the lines written before `registry().at` throws are not part of the thrown outcome.
- Report.PrintParamUsage: breaks lines with the corrected breakLines. The as-written one is `Layout.BreakLines` with `asWritten` set, and its differences are the Findings below.
- Report.PrintUsageIntro and Report.PrintUsage: break the help preamble with the corrected breakLines, while printUsage calls the as-written one (parametersystem.cpp:310). A preamble `"\nabc"` at terminal width 2 is written as `"\na\n  c"` by the source and as `"\nab\n  c"` by the model.
- Layout.BreakLines: no bound on line length is proved. A break only happens once the column counter reaches the width.

## Findings

| source | as written | input that shows it | evidently intended | confidence | as-written member | corrected member |
|---|---|---|---|---|---|---|
| opm/models/utils/parametersystem.cpp:120 | after a newline of the message, `lastBreakPos = startInPos + 1` marks the second character of the next line as a break point | `breakLines("\nabc", 0, 2)` gives `"\na\nc"`, dropping `b` | `lastBreakPos = startInPos`, giving `"\nab\nc"`; only blanks are ever replaced | not executed | Layout.AsWrittenDropsCharacter | Layout.BreakLinesKeepsText |
| opm/models/utils/parametersystem.cpp:120 | the same assignment lets the next break start past the end of the message | `breakLines("\na", 0, 0)` calls `substr` past the end and throws std::out_of_range | the call succeeds | not executed | Layout.AsWrittenOutOfRange | Layout.BreakLinesKeepsText |
| opm/models/utils/parametersystem.cpp:375 | the "expecting 'key=value'" error for a missing `=` is constructed, not thrown, and `substr(1)` drops whatever character follows | the line `Key value` stores `alue` under `Key` | throw the syntax error | not executed | ParameterFile.MissingEqualsDropsCharacter | ParameterFile.StrictValueShape |
| opm/models/utils/parametersystem.cpp:375 | the same missing `throw` lets a key alone reach `substr(1)` on an empty string | the line `Key` throws std::out_of_range instead of the syntax error | throw the syntax error | not executed | ParameterFile.KeyAlone | ParameterFile.StrictValueShape |
| opm/models/utils/parametersystem.cpp:381 | the error for an empty value or a comment after `=` is constructed, not thrown | the line `Key=#c` stores `#c` | throw the syntax error | not executed | ParameterFile.CommentAsValue | ParameterFile.StrictValueShape |
| opm/models/utils/parametersystem.cpp:393 | the error for text after the value is constructed, not thrown | the line `Key=a b` stores `a` | throw the syntax error | not executed | ParameterFile.TrailingTextIgnored | ParameterFile.StrictOnlyRejects |
