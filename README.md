# WshCommander's command-line parser, modelled in Dafny

This project models the core of `src/Commander.js`. That file is a
declarative command-line parser in the style of Commander.js. A program registers one or more
*programs* (schemas). Each schema holds:

- a command line such as `play <consoleName> [gameTitle]`;
- option rows such as `['-O, --switch-no', 'Normaly opened switch']`;
- an optional version and help flag.

`parse` then reads the process arguments left to right. It fills in option
and argument values, checks them, publishes the option values under their
camel-cased names, and hands the argument values to the command's action.

The model is split the way the source is:

| module | file | what it holds |
|---|---|---|
| `Values` | `values.dfy` | JavaScript values as the parser sees them (`undefined`, booleans, strings, lists, opaque values such as numbers or transformer results), truthiness and `hasContent`, error kinds and parse outcomes |
| `FlagGrammar` | `flag_grammar.dfy` | the three token classifiers over the flag character class, and the flag-schema matcher `reFlagStr` for the `-x, --long <v>` shape |
| `Names` | `names.dfy` | `_camelcase` and `_getLongFlagVarName` |
| `SchemaCompiler` | `schema_compiler.dfy` | `_createCmdObj`, `_createOptionObjs` (the option kind/default decision table), `_creatVersionOptionObj`, `_createHelpOptionObj` |
| `HelpRenderer` | `help_renderer.dfy` | `_createCmdHelpMsg`: a specification function plus the source's loop-and-padding algorithm as methods proved equal to it |
| `ParseEngine` | `parse_engine.dfy` | one pass of the `parse` loop (`Step`), the loop itself (`Scan`), the post-scan checks, publishing, command selection and the whole parse as a function of the registry (`ParseSpec`) |
| `Registry` | `registry.dfy` | `addProgram`, `addPrograms`, `clearPrograms` and `parse` as methods of a `Registry` class holding the module-level command list `__commands` and the public option map `cmd.opt`; `parse`'s token loop as a `while` loop over the token queue |
| `Oracles` | `oracles.dfy` | concrete runs from `src/Commander.test.js` stated over the model |

The registry class keeps every command the source pushes onto `__commands`, and
`Parse` writes the values it read back into the chosen command, as the source
mutates its option and argument objects in place. A second parse without
`ClearPrograms` therefore starts from those values (`Registry.ParsedValuesStay`).

Where the source prints and calls `process.exit(CD.runs.ok)` (the help and
version flags), the model returns `Exit(ExitOk, text)` with the cached help
text or the version string; `ExitOk` stands for the success status, taken as 0
because `Wsh.Constants` is not part of this model. Where it throws, the model returns `Failed(kind)` with one of the error
kinds in `Values.ErrorKind`. A successful parse returns `Returned(call)`, where
`call` holds the arguments the action would be applied to, or `None` when the
command has no action.

## Model

| member | source | states |
|---|---|---|
| `Values.Truthy` | src/Commander.js:1104-1105 | defines JavaScript truthiness, the test `!opt.val` applies: `undefined`, `false` and the empty string are falsy, arrays always truthy |
| `Values.HasContent` | src/Commander.js:28 | defines the utility `hasContent` the parser calls (e.g. src/Commander.js:222, 520, 553): false for `undefined`, the empty string and the empty array |
| `FlagGrammar.IsShortFlag` | src/Commander.js:70-73 | defines `reShortFlag`: `-` followed by exactly one flag character |
| `FlagGrammar.IsJoinedShortFlags` | src/Commander.js:75-78 | defines `reJoinedShortFlags`: `-` followed by two or more flag characters |
| `FlagGrammar.IsLongFlag` | src/Commander.js:80-83 | defines `reLongFlag`: `--` followed by words of flag characters, split on `-`, none empty |
| `FlagGrammar.LongFlagCharacterization` | src/Commander.js:80-84 | a token is a long flag exactly when, after `--`, it consists of flag characters and single hyphens, neither first nor last a hyphen; both directions |
| `FlagGrammar.ClassifiersDisjoint` | src/Commander.js:67-84 | no token is more than one of short flag, joined short flags and long flag |
| `FlagGrammar.SplitJoin` | src/Commander.js:80-84 | splitting a string on a separator and joining the pieces back gives the string again |
| `FlagGrammar.JoinSplit` | src/Commander.js:80-84 | joining pieces that do not contain the separator, then splitting, gives the pieces back |
| `FlagGrammar.LongFlagOfWords` | src/Commander.js:80-84 | `--` followed by flag words joined with single hyphens is always a long flag |
| `FlagGrammar.MatchFlagSchemaRoundTrip` | src/Commander.js:68 | matching `reFlagStr` against a rendered `-c, --long value` schema (short flag optional, value part possibly empty) gives back the short flag, the long flag and the value part |
| `FlagGrammar.LongAndValueRoundTrip` | src/Commander.js:68 | after the separator, the optional space, the `--long` group and the `\S*` value group are found exactly where the rendered text put them |
| `FlagGrammar.MatchFlagSchema` | src/Commander.js:68 | any match has a short flag that is absent or `-` plus one character, a long flag starting with `--`, and a value part without white space |
| `Names.Camelcase` | src/Commander.js:194-199 | defines `_camelcase`: the first hyphen-separated word, then every later word with its first letter upper-cased |
| `Names.LongFlagVarName` | src/Commander.js:209-212 | defines `_getLongFlagVarName`: drops a leading `--`, then a leading `no-` in any letter case, and camel-cases the rest |
| `Names.CamelcasePieces` | src/Commander.js:194-199 | camel-casing equals the first hyphen-separated word followed by every later word with its first letter upper-cased (the `reduce` over `split('-')`) |
| `Names.CamelcaseIdempotent` | src/Commander.js:194-199 | a camel-cased name has no hyphen, and camel-casing it again changes nothing |
| `Names.LongFlagVarNameStrips` | src/Commander.js:209-212 | the option name of `--x`, `--no-x` and `--NO-x` is the camel-cased `x` |
| `Names.CamelcaseSwitchNc` | src/Commander.js:209-212 | `--no-switch-nc` is named `switchNc` |
| `Names.CamelcaseSaveFile` | src/Commander.js:209-212 | `--save-file` is named `saveFile` |
| `SchemaCompiler.SplitWs` | src/Commander.js:141 | `split(/\s+/)`: the pieces between runs of white space, always at least one (an empty first or last piece where the text starts or ends with white space) |
| `SchemaCompiler.CompileArg` | src/Commander.js:142-180 | a word compiles exactly when it is `<x>` or `[x]` with matching brackets, otherwise the schema is invalid; a compiled slot is required iff `<`, variadic iff its name ends in `...` (then it starts as `[]`), and rendering it gives the word back |
| `SchemaCompiler.CompileArgs` | src/Commander.js:138-181 | all words compile, in order and one slot per word, or the first bad word makes the schema invalid |
| `SchemaCompiler.CompileCommand` | src/Commander.js:111-184 | a blank schema gives name `""` and no slots; otherwise the name is a non-empty word without spaces and every slot starts unspecified |
| `SchemaCompiler.CommandWords` | src/Commander.js:111-184 | a name followed by space-separated argument words compiles exactly when the words compile, to that name and those slots; otherwise the command schema is invalid |
| `SchemaCompiler.TrailingBlankInvalid` | src/Commander.js:111-171 | a schema ending in a blank after its argument words is invalid, because the split leaves an empty last word |
| `SchemaCompiler.CommandRoundTrip` | src/Commander.js:111-184 | compiling `name <a> [b] ...` rendered from a name and argument declarations gives back that name and those slots |
| `SchemaCompiler.OptionBase` | src/Commander.js:400-451 | the kind/default decision table: `--no-…` is a normally-closed switch starting `true`, an empty value part a normally-open switch starting `false`, `<v>` pairs with a value, `[v]` does not, `...>`/`...]` makes a list starting `[]`, and any other value part is invalid; the name is the long flag's variable name |
| `SchemaCompiler.CompileOption` | src/Commander.js:393-473 | the decision table applied to the row's matched flag schema, then its tail: a default (wrapped in a list for list options) replaces the initial value and stops pairing, and a function third element becomes the transformer; an unmatched flag schema is invalid |
| `SchemaCompiler.ApplyTail` | src/Commander.js:457-470 | a default sets the value (wrapped for lists) and clears pairing; the transformer is the row's function; well-formedness is kept |
| `SchemaCompiler.CompileOptions` | src/Commander.js:386-475 | every row compiles, one option per row in order with the given required mark, or the first bad row makes the schema invalid |
| `SchemaCompiler.ValuedOptionRoundTrip` | src/Commander.js:393-470 | `-c, --long <v>` compiles to a scalar value option named after `--long` that pairs with a value exactly when no default is given |
| `SchemaCompiler.CompileVersion` | src/Commander.js:285-320 | no version gives none; a plain string gets `-V, --version`; a list reads the version from index 0, the flags from index 1 and the description from index 3 (the default description when that is missing or empty), and a missing or unmatched flag schema is invalid |
| `SchemaCompiler.VersionRoundTrip` | src/Commander.js:285-320 | a rendered `[version, '-c, --long', _, description]` list compiles to exactly those flags, that description and that version |
| `SchemaCompiler.CompileHelp` | src/Commander.js:597-628 | no help schema gives `-h, --help`; otherwise the flags come from the matched first element and the description from the second (the default description when that is missing or empty), and an empty or unmatched first element is invalid |
| `SchemaCompiler.HelpRoundTrip` | src/Commander.js:597-628 | a rendered `['-c, --long', description]` compiles to exactly those flags and that description |
| `HelpRenderer.HelpText` | src/Commander.js:483-562 | defines the help message: the head (usage, description, `Options:`) followed by every row rendered at the widest row's width |
| `HelpRenderer.HelpRows` | src/Commander.js:499-516 | the rows are the version row first when there is a version, the options in declared order, and the help row last |
| `HelpRenderer.MaxWidth` | src/Commander.js:524-534 | the width column is at least every row's `--long [<v>]` width and equals one of them |
| `HelpRenderer.CreateCmdHelpMsg` | src/Commander.js:483-562 | the message built by the source's steps (scan for the widest row, then pad each row one space at a time) equals the help text |
| `HelpRenderer.WidestRow` | src/Commander.js:524-534 | the `forEach` scan for the widest row computes `MaxWidth` |
| `HelpRenderer.RenderRowPadded` | src/Commander.js:536-557 | one row built piece by piece with the padding `for` loop equals the rendered row |
| `HelpRenderer.RenderAllRows` | src/Commander.js:536-558 | the `reduce` over the rows concatenates the rendered rows in order |
| `HelpRenderer.CreateHelpHead` | src/Commander.js:486-522 | the usage line, the description paragraph and the `Options:` heading are built as the help text's head |
| `HelpRenderer.ColumnsAligned` | src/Commander.js:536-557 | in a well-formed command every row's head is 6 characters plus the widest width long, so every description starts in the same column |
| `HelpRenderer.RowsFit` | src/Commander.js:538-545 | every row's short-flag cell (`  -c,` or the `    ,` filler) is 5 characters wide |
| `HelpRenderer.RowHeadWidth` | src/Commander.js:538-551 | a row no wider than the column is padded to exactly 6 characters plus the column width |
| `HelpRenderer.DefaultShownIffContent` | src/Commander.js:553-555 | a row ends in ` (default: …)` when its value has content, and otherwise is the head plus the description |
| `HelpRenderer.UsageRepeatsSchema` | src/Commander.js:488-496 | a named command's usage line repeats the command schema it was compiled from |
| `HelpRenderer.HelpTextIgnoresCache` | src/Commander.js:900-902 | the help text does not depend on the cached text, so computing it before caching is sound |
| `ParseEngine.FlagShows` | src/Commander.js:637-658 | the help/version match: a short flag matches exactly, joined short flags match when they contain the flag's letter (and fail when there is no short flag), a long flag matches exactly, anything else does not |
| `ParseEngine.Transform` | src/Commander.js:1034-1046 | the value a token gives: the option's transformer applied as `f(token, current)`, or the token itself without one (the switches call it with `undefined`, src/Commander.js:1092-1100) |
| `ParseEngine.FeedReserved` | src/Commander.js:1025-1051 | with no option reserved the token passes on unchanged; a dash token releases an option that does not pair with a value and an array option and passes on; an array option appends any other token (through its transformer) and stays reserved, and the token passes on; a scalar option takes the token as its value (through its transformer) whenever it pairs or the token has no dash, the reservation ends and the token is consumed |
| `ParseEngine.FindShort` | src/Commander.js:1061-1066 | the first option with that short flag, or -1 when there is none |
| `ParseEngine.FindLong` | src/Commander.js:1072-1077 | the first option with that long flag, or -1 when there is none |
| `ParseEngine.JoinedMatches` | src/Commander.js:1067-1071 | every joined-flag match is an option whose short flag contains the joined letters |
| `ParseEngine.MatchedIndices` | src/Commander.js:1058-1078 | a short or long flag names the first option with that flag, or -1; every index is an option's index or -1; a dash token of no flag shape (such as `-` or `--`) names nothing |
| `ParseEngine.ApplyFlag` | src/Commander.js:1081-1114 | the named option becomes specified; a switch with a transformer gets `f(undefined, current)`, a normally-open one without becomes `true` and a normally-closed one `false`; a scalar value option that does not pair keeps a truthy value and otherwise becomes `true`; a list or pairing option keeps its value; no other option and no argument changes; a value option becomes the reserved one |
| `ParseEngine.ApplyAll` | src/Commander.js:1079-1114 | the scan goes on exactly when every matched index names an option, and otherwise throws an unknown option |
| `ParseEngine.FirstOpenSlot` | src/Commander.js:1117-1123 | the first argument slot that is variadic or still `undefined`, or -1 |
| `ParseEngine.BindPositional` | src/Commander.js:1116-1133 | a bare token goes to the first slot that is variadic or still `undefined`: a variadic slot appends it, a scalar one takes it, and that slot becomes specified; with no such slot nothing changes; only values and marks change |
| `ParseEngine.Scan` | src/Commander.js:1020-1134 | the loop only changes values and `specified` marks: no slot is added, removed, renamed or un-specified |
| `ParseEngine.CheckArgs` | src/Commander.js:1136-1143 | no error exactly when every required argument has content; the error is a missing required argument |
| `ParseEngine.OptionError` | src/Commander.js:1146-1154 | one option's check: a required option without content is missing its value, then a specified option that pairs with a value and is still `undefined` is missing its argument |
| `ParseEngine.CheckOptions` | src/Commander.js:1145-1155 | no error exactly when no option fails; otherwise the error of the first failing option in declared order |
| `ParseEngine.ActionArgs` | src/Commander.js:1163-1169 | one action argument per slot in declared order: its value when specified, otherwise `undefined` |
| `ParseEngine.Finish` | src/Commander.js:1136-1181 | the parse returns exactly when both checks pass; it then publishes every option value and calls the action with the argument values, plus the option map only when the command has options |
| `ParseEngine.Publish` | src/Commander.js:1158-1160 | `cmd.opt[opt.name] = opt.val` for each option in declared order over the existing map |
| `ParseEngine.PublishKeys` | src/Commander.js:1157-1160 | publishing adds exactly the options' names to the keys already there |
| `ParseEngine.PublishKeepsOthers` | src/Commander.js:1157-1160 | keys that no option names keep their values |
| `ParseEngine.PublishLastWins` | src/Commander.js:1157-1160 | an option whose name no later option repeats is published with its value |
| `ParseEngine.PublishIgnoresEarlier` | src/Commander.js:1157-1180 | for every option name, the public map and the map given to the action agree |
| `ParseEngine.ActionSeesPublishedValues` | src/Commander.js:1157-1180 | every value the action receives in its option map is the published one |
| `ParseEngine.FindCommand` | src/Commander.js:981-991 | the first command with that name, or -1 |
| `ParseEngine.SelectCommand` | src/Commander.js:977-1012 | the command named by the first token is chosen and the token consumed; otherwise the nameless command takes every token; neither means no command |
| `ParseEngine.ParseSpec` | src/Commander.js:959-1182 | fewer than two process arguments is an invalid invocation; no command changes its name; a parse that does not return leaves the public map alone |
| `ParseEngine.ParseRuns` | src/Commander.js:959-1182 | the outcome is an exit with the printed text, the thrown error, or the post-scan result; the chosen command keeps the values the scan read |
| `ParseEngine.JoinedFlagsNameNoOption` | src/Commander.js:1067-1070 | joined short flags never match a declared option, because a two-character short flag cannot contain two or more letters |
| `ParseEngine.JoinedFlagsChangeNothing` | src/Commander.js:1054-1114 | a joined-short-flags token with nothing reserved leaves the state unchanged |
| `ParseEngine.ScalarTakesNextToken` | src/Commander.js:1025-1050 | a reserved scalar option takes the next token as its value through its transformer as `f(token, current)`, and the token is consumed: any token when it pairs with a value, a token without a dash otherwise (`[v]`, or `<v>` with a default) |
| `ParseEngine.ArrayCollectsAndBinds` | src/Commander.js:1030-1133 | a reserved list option appends the next bare token, and the token also goes on to positional binding |
| `ParseEngine.DashEndsOptionalValue` | src/Commander.js:1025-1114 | a reserved option that does not pair with a value, or is an array, releases the reservation at a `-` token, which is then read as a flag |
| `ParseEngine.FlagToken` | src/Commander.js:1054-1114 | a dash token only changes values and `specified` marks of existing slots |
| `ParseEngine.Step` | src/Commander.js:1021-1133 | one pass of the loop only changes values and `specified` marks of existing slots |
| `ParseEngine.HelpFlagExits` | src/Commander.js:637-658 | with nothing reserved, a token that asks for the help exits with the cached help text and leaves every slot as it was |
| `ParseEngine.HelpShadowsOption` | src/Commander.js:1054-1056 | an option declared with the help option's short flag is never set by that flag: the help exits first |
| `ParseEngine.VersionFlagExits` | src/Commander.js:221-244 | with nothing reserved, a token that does not ask for the help but asks for the version exits with the version string |
| `ParseEngine.JoinedFlagsWithoutShortFlagThrow` | src/Commander.js:647-648 | joined short flags throw when the help option, or a version option consulted after it, has no short flag |
| `ParseEngine.FlagAppliesToFirstMatch` | src/Commander.js:1054-1114 | a short or long flag that shows neither help nor version applies to the first option with that flag, or throws an unknown option |
| `ParseEngine.BindNext` | src/Commander.js:1115-1133 | with the first `m` slots filled, a bare token fills slot `m`, and tokens beyond the last slot are dropped |
| `ParseEngine.PositionalsFillInOrder` | src/Commander.js:1115-1133 | bare tokens fill the scalar slots one by one in declared order, options untouched |
| `ParseEngine.VariadicCollectsRest` | src/Commander.js:1115-1133 | once the slots before a variadic slot are filled, it collects every following bare token in order and becomes specified if it got one; no other slot and no option changes |
| `Registry.CompileProgram` | src/Commander.js:866-913 | an invalid command schema or a name already registered is refused; a registered command is well-formed and its name is new |
| `Registry.CompileProgramParts` | src/Commander.js:880-910 | registration succeeds exactly when every part compiles and the name is new; the command holds the compiled parts, the required options before the ordinary ones |
| `Registry.RequiredOptionsFirst` | src/Commander.js:896-897 | the required options come first and only they are marked required, each group in row order |
| `Registry.HelpTextCached` | src/Commander.js:900-902 | the help text cached at registration is the help text of the registered command |
| `Registry.WithHelpText` | src/Commander.js:902 | caching the help text changes only the cached text |
| `Registry.BuildCommand` | src/Commander.js:866-913 | the step-by-step construction of a command gives the compiled program |
| `Registry.AddAll` | src/Commander.js:924-931 | the `addPrograms` fold: compile each program against the commands so far, append it, and stop at the first error |
| `Registry.AddAllExtends` | src/Commander.js:924-931 | registering several programs keeps the earlier commands, adds one per program up to the first failure, and keeps names distinct |
| `Registry.Registry.constructor` | src/Commander.js:724-933 | a fresh registry has no commands and an empty public map |
| `Registry.Registry.AddProgram` | src/Commander.js:866-913 | a program that compiles is appended; otherwise the error is returned and nothing changes |
| `Registry.Registry.AddPrograms` | src/Commander.js:924-931 | an empty list is refused; otherwise programs are added in order up to the first failure |
| `Registry.Registry.ClearPrograms` | src/Commander.js:1235-1238 | no commands and an empty public map remain |
| `Registry.Registry.Parse` | src/Commander.js:959-1182 | the method's new commands, public map and outcome are those of `ParseSpec` on the old registry |
| `Registry.ScanTokens` | src/Commander.js:1020-1134 | the `while` loop over the token queue computes `Scan` |
| `Registry.Registry.Conclude` | src/Commander.js:1136-1181 | after the loop, the method's public map and outcome are those of `Finish`, and the commands do not change |
| `Registry.Registry.PublishValues` | src/Commander.js:1157-1160 | the loop that copies option values computes `Publish` and touches no command |
| `Registry.ParsedValuesStay` | src/Commander.js:1126-1160 | after a returned parse, each option's published value is the value stored back in the registered command, which the next parse starts from |
| `Oracles.PlayRegisters` | src/Commander.test.js:89-94 | `play <consoleName> [gameTitle]` registers a command `play` with a required and an optional slot and no options |
| `Oracles.PlayHead` | src/Commander.test.js:89-94 | the schema compiles to the name `play` and the two declared slots |
| `Oracles.PlayOneArgument` | src/Commander.test.js:110-113 | `play PC-Engine` calls the action with `PC-Engine` and `undefined` |
| `Oracles.PlayTwoArguments` | src/Commander.test.js:115-118 | `play PC-Engine "Fighting Street"` calls the action with both values |
| `Oracles.PlayNoArgument` | src/Commander.test.js:105-108 | `play` without arguments throws a missing required argument |
| `Oracles.ZipHead` | src/Commander.test.js:123 | `createZip <srcDir> <destDir> [excludes...]` compiles to the name `createZip` and its three declared slots |
| `Oracles.ZipRegisters` | src/Commander.test.js:121-136 | the program registers `createZip` with two required scalar slots, an optional variadic slot starting as an empty list, no options and an action |
| `Oracles.ZipScan` | src/Commander.js:1115-1133 | in a command with two scalar slots and a variadic third, the first two bare tokens fill the scalars and the variadic slot collects the rest in order |
| `Oracles.ZipFinish` | src/Commander.js:1136-1181 | with both directories non-empty the checks pass, and the action gets both and the collected list, or `undefined` when no token was left |
| `Oracles.ZipParse` | src/Commander.test.js:133-162 | `createZip src dest e1 … en` calls the action with `src`, `dest` and `[e1, …, en]`, or `undefined` for no excludes |
| `Oracles.ZipFourExcludes` | src/Commander.test.js:158-162 | the test's last run: the four excludes `.tmp`, `cache`, `~` and `foo bar baz` reach the action as one list, in order |
| `Oracles.PlayParse` | src/Commander.test.js:105-118 | for up to two bare tokens after `play`, the action gets them in order, or a missing first argument throws |
| `Oracles.NoDefaultCommand` | src/Commander.test.js:52-62 | with no nameless command, no token or an unknown token finds no command (also the run with no token at src/Commander.test.js:100-103) |
| `Oracles.DefaultCommandRuns` | src/Commander.test.js:64-72 | a nameless command takes every token when the first names no command |
| `Oracles.PlayFooInvalid` | src/Commander.js:142-180 | `play foo` is an invalid command schema: an argument word needs brackets |
| `Oracles.MixedBracketsInvalid` | src/Commander.js:142-180 | `play <x]` is an invalid command schema: the brackets must match |
| `Oracles.TrailingBlankPlay` | src/Commander.js:138-180 | `play <x> ` is an invalid command schema: the trailing blank leaves an empty word |
| `Oracles.UnRarRegisters` | src/Commander.test.js:505-513 | `unRar <filepath> [destDir]` with version `0.5.1` registers a command with the default version flags and that version |
| `Oracles.UnRarVersion` | src/Commander.test.js:515-527 | `unRar --version` exits with `0.5.1` and leaves the public map alone |
| `Oracles.SwitchRegisters` | src/Commander.test.js:217-223 | the two switch rows register a normally-open `switchNo` and a normally-closed `switchNc` |
| `Oracles.SwitchesCompile` | src/Commander.test.js:219-222 | the rows compile to exactly those two options |
| `Oracles.SwitchOracles` | src/Commander.test.js:225-258 | no token gives `false`/`true`; `-O -C` and `--switch-no --no-switch-nc` give `true`/`false`; `--switch-no` alone gives `true`/`true`; `--no-switch-nc` alone gives `false`/`false` |
| `Oracles.Help4Table` | src/Commander.test.js:636-667 | the options table of `conv2imgsize`: rows in order, descriptions in one column 16 characters after the flags, and a default without a description |
| `Oracles.Help4Registers` | src/Commander.test.js:640-647 | the test's schema registers `conv2imgsize` with the height and width options (the width defaulting) and the `-S, --show-usage` help option |
| `Oracles.Help4RowsOf` | src/Commander.js:499-516 | the rows of that registered command are the height row, the width row with its default and the help row |
| `Oracles.Help4UsageOf` | src/Commander.js:488-496 | its usage line repeats `conv2imgsize <file>` |
| `Oracles.Help4Text` | src/Commander.test.js:640-667 | the help text cached for the test's schema is the usage line, the `Options:` heading and the three expected rows |

## Left out

- Console output and `process.exit` in the help and version paths. The model returns `Exit(ExitOk, text)` with the cached help text or the version string.
- The exit status `CD.runs.ok` comes from `Wsh.Constants`, which is not part of this model; `ExitOk` is taken as 0.
- `util.includes(undefined, letters)` for joined short flags and an option without a short flag (src/Commander.js:1069) is taken as false: the `util` library is not part of this model, so such an option never matches.
- ParseEngine.ParseSpec: list option values are values, not shared arrays. In the source the array a list option holds is stored in `cmd.opt` (src/Commander.js:1159) and in the action's option map (1174), and later parses push onto that same array (1035, 1037); the same holds for a variadic argument's list, pushed onto at 1129 after an earlier action received it. So a later parse that pushes and then throws also changes the published list; the model's `ParseSpec` leaves the public map unchanged when a parse does not return.
- `path.basename(process.argv[1])` for the nameless usage line is the registry's `scriptName` parameter. The process arguments in the no-command error are not modelled; the error is the kind `NoMatchingCommand`.
- `util.inspect` is the registry's `inspect` parameter, an uninterpreted `Value -> string`. Error messages are modelled as error kinds, not text.
- User transformers such as `parseInt` are opaque `(Value, Value) -> Value` functions; numbers and `NaN` are opaque values with their own truthiness.
- The action is not called: a returned parse carries the argument list and option map the action would receive.
- `cmd.help` (src/Commander.js:1206-1210) prints and exits; it is I/O only and not modelled.
- The runtime type guards for non-array and non-object inputs, and `isPlainObject`, are moot under Dafny's types. The "empty command and options" check in `addProgram` (src/Commander.js:874-877) cannot fire, because the command schema always defaults to a string.
- Strings are sequences of characters, and the string and regular-expression operations follow the ECMAScript 5 standard. JScript, the engine Windows Script Host runs, departs from that standard in places; the departures known to matter here are listed below, and the list is not claimed to be complete.
- FlagGrammar.IsSpace: `\s` and `\S` use ECMAScript 5's white space and line terminators (tab, vertical tab, form feed, space, U+00A0, U+FEFF, the Unicode space separators, and LF, CR, U+2028, U+2029). JScript's `\s` is `[ \f\n\r\t\v]` only, so `reFlagStr`, the command-line match `(\S+)\s*(.*)` and `split(/\s+/)` split differently there at U+00A0, U+FEFF and the other Unicode spaces.
- FlagGrammar.IsLineTerminator: `.` stops at LF, CR, U+2028 and U+2029, as ECMAScript 5 specifies; JScript's `.` stops only at LF, so a command line holding CR or U+2028/U+2029 keeps more argument text there.
- HelpRenderer.Width: counts characters, whereas `.length` (src/Commander.js:528-533, 548-549) counts UTF-16 code units, so the help columns differ for characters outside the Basic Multilingual Plane.
- SchemaCompiler.TrailingBlankInvalid (and `Oracles.TrailingBlankPlay`): follows ECMAScript 5's `split(/\s+/)`, which keeps an empty last piece; JScript 5.x drops empty pieces from a regular-expression split, and there a trailing blank would compile.
- `reFlagStr` is modelled for the shape it is used with (`-c, --long <v>`, leftmost match, greedy groups); no general regular-expression engine is modelled.
- `toUpperCase` maps only ASCII letters; other scripts' case mapping is not modelled.
- `isSolidString` is taken as "non-empty string", so a command schema of only white space fails to match and is an invalid command schema; the `util` library itself is not part of this model.
- The module bootstrap (src/Commander.js:4-35) and the test file's subprocess runs are not modelled; the tests serve only as the oracles above.
- Aliasing between the registry's command objects and objects a caller still holds: the registry stores commands as values in a sequence, so only the registry's own copies see the values a parse writes back.
- The test file uses `\r\n` line breaks from the console; the model renders `\n` as the source does.
- The help-text oracles Help1 to Help3 (src/Commander.test.js:532-634) are covered by the general row, column and default lemmas rather than by concrete text; Help4's table is stated concretely.
