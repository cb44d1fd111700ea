# dials: a verified model of the configuration registry

`dials` is a Go configuration registry. A program declares typed settings
("dials") once. The registry then resolves each dial's value from four
sources, highest precedence first:

1. the command line;
2. environment variables;
3. JSON config files, where the file added last wins;
4. the declared default.

The package's implementation file is not part of this model; only its test
file, `dials_test.go` (package `dials`), is. The tests call the package
functions `assertValid`, `Add`, `setStringValue`, `parseArgs`, `AddConfigFile`,
`load` and the typed accessors, and `reset()` names the package state: `dials`,
`shorthandNames`, `values`, `positionals` and `configFiles`. The behaviour
modelled here is inferred from those tests, and the policies below fill in
what they leave open.

Layout, leaves first:

- `values.dfy` (`Values`): the seven value kinds, the stored-value datatype, the
  error datatype, and conversion of command-line and environment strings.
  Integers are Go's 64-bit `int`, parsed like `strconv.Atoi`. Floats are `real`.
- `declarations.dfy` (`Declarations`): a dial declaration and `assertValid`.
- `table.dfy` (`Table`): the registry invariant, the checks `Add` makes, and the
  conversion `setStringValue` applies.
- `tokenizer.dfy` (`Tokenizer`): `parseArgs` as a function over the remaining
  tokens. This covers long flags, shorthand clusters, value consumption, list
  accumulation, positionals and errors.
- `resolver.dfy` (`Resolver`): the `load` merge over pre-parsed config files and
  an environment map, with its precedence lemmas and the `TestLoad` sequence.
- `registry.dfy` (`Registries`): the class `Registry`. Its fields are the package
  state. Its methods update them in place with loops, and each method is proved
  equal to the matching specification function.
- `scenarios.dfy` (`Scenarios`): the registration and command-line test
  sequences, stated on those specification functions.

The class invariant `Registry.Valid` (`Table.Inv`) states five things:

- every dial passed `assertValid`;
- dial names are distinct;
- every registered dial has a stored value;
- every stored value belongs to a registered dial and has that dial's kind;
- `shorthandNames` maps each claimed shorthand to the dial that declared it.

`Add` and `SetStringValue` require it and preserve it; `ParseArgs` preserves
it. `Load` requires only its registration part (valid dials, distinct names,
consistent shorthands), because it reseeds `values`, and it establishes the
whole invariant.
The step methods they call (`ApplyCluster`, `ApplyFlag`, `ParseToken`,
`ApplyConfig`, `ApplyEnvironment`, `ApplyConfigFiles`) are each proved equal to
a specification function instead; that the invariant survives those functions is
proved by the lemmas `ParseKeepsInv` and `LoadKeepsInv`.

Policies the tests leave open, and the choice made:

- A bare `-` is an error (`EmptyCluster`). A bare `--` is a long flag with the
  empty name, which no dial has, so it fails with `UnknownFlag("--")`; it does not
  end the flags.
- `parseArgs` appends to `positionals`. The tests clear them by hand between
  calls.
- `load` starts over every time. It reseeds every dial's default, clears the
  positionals, applies the config files in the order they were added, then the
  environment, then the command line. Its result therefore does not depend on the
  values held before the call, so loading twice with the same inputs gives the
  same values.
- A list dial's command-line arguments are appended to the value the load reached
  before the command line: the environment's, else the latest file's, else the
  default. They do not replace it. `load` reseeds the defaults first, so the
  appends of one load never pile onto those of an earlier load. A bool dial
  named on the command line becomes true; otherwise the environment, the latest
  file and then `false` decide.
- An environment value is converted like a command-line value. A bool dial
  accepts exactly `true` or `false`. A list dial receives a one-element list.
- A config value must already have the dial's kind. The one exception is a scalar
  of a list dial's element type, which becomes a one-element list. Otherwise the
  load fails with `BadConfigValue`. Numbers are taken as the JSON decoder typed
  them: an `Int` is never accepted by a float or floats dial, nor a `Float` by
  an int or ints dial.
  The model therefore assumes a decoder that keeps integers apart from
  fractional numbers. The tests only put
  strings in config files. With `encoding/json`'s default decoding into
  `map[string]any` every number is a `float64`, and under this policy an int
  dial could then not be set from a file.
- A config key that names no dial is ignored. The file pass walks the
  registered dials and reads each one's key; it never looks at the other keys.
- A config path with no parsed contents fails the load (`ConfigUnreadable`).
- Every failure is returned as an `Error` value. Values already written before a
  command-line error stay written.

## Model

| member | source | states |
|---|---|---|
| Values.KindOf | dials_test.go:23-25 | exactly the seven kind names are recognised; only `"bool"` is the bool kind |
| Values.ParseFloat | dials_test.go:204-222 | the empty string does not parse; the accepted grammar is stated under "Left out" |
| Values.ParseInt | dials_test.go:224-242 | a parsed integer is within the 64-bit range; the empty string does not parse |
| Values.ParseFormatInt | dials_test.go:224-242 | parsing the decimal form of any 64-bit integer gives that integer back |
| Values.ParseAsFormatInt | dials_test.go:224-242 | an int dial and an ints dial read back the decimal form of any 64-bit integer |
| Values.ParseAs | dials_test.go:203-262 | a successful conversion has the requested kind; a list kind yields one element; strings pass through unchanged; a failure is `BadSyntax` naming the dial and the text |
| Values.ParseList | dials_test.go:308-319 | the list of a list kind built from arguments converted one by one has that kind and one element per argument |
| Values.ParseListConverts | dials_test.go:308-319 | that list exists exactly when every argument converts |
| Values.ExtendTwice | dials_test.go:308-319 | appending two lists of the same kind one after the other is appending their concatenation |
| Values.ExtendEmpty | dials_test.go:308-319 | appending the empty list leaves a list unchanged |
| Values.ParseListStep | dials_test.go:308-319 | the first argument's element comes before the elements of the rest |
| Values.ParseListStrings | dials_test.go:308-311 | a strings list holds its arguments unchanged, in order |
| Values.ParseListInts | dials_test.go:312-315 | an ints list holds the numbers its arguments read as, in order |
| Values.ParseListFloats | dials_test.go:316-319 | a floats list holds the numbers its arguments read as, in order |
| Values.ParseListIntsExample | dials_test.go:312-315 | `"1"`, `"2"` make the ints list [1, 2] |
| Values.ParseListFloatsExample | dials_test.go:316-319 | `"1.0"`, `"2.0"` make the floats list [1.0, 2.0] |
| Values.ParseIntExamples | dials_test.go:224-242 | `"1"` is int 1 and ints [1], `"2"` is ints [2]; `"1.0"` and `""` are not ints |
| Values.ParseFloatExamples | dials_test.go:204-222 | `"1.0"` reads as 1.0 and `"2.0"` as 2.0; `"1.0"` is float 1.0 and floats [1.0], `"2.0"` is floats [2.0] |
| Values.ParseAsFloat | dials_test.go:204-222 | a float dial and a floats dial take exactly what the decimal reader yields, the list as one element |
| Values.ParseStringExample | dials_test.go:244-256 | `"a"` converts to the string `"a"` |
| Values.Extend | dials_test.go:217-221 | a list value gets the new elements appended after the old ones, for each list kind |
| Values.ExtendKeepsKind | dials_test.go:237-241 | appending keeps the kind, including the 64-bit range of ints |
| Declarations.AssertValid | dials_test.go:18-72 | a dial is accepted exactly when the name matches `^[a-z0-9][a-z0-9-]*$`, the type is a known kind, the default matches the kind, and the shorthand is absent or one alphanumeric character; a bad name is reported first, then a bad type |
| Declarations.NameCharactersRefused | dials_test.go:30-36 | a name holding a space or an upper-case letter is refused as a bad name |
| Declarations.ShorthandRefused | dials_test.go:54-60 | a shorthand longer than one character, or a non-alphanumeric one, is refused |
| Declarations.DefaultRefused | dials_test.go:76-101 | a non-bool dial with no default, or with a default of another kind, is refused |
| Declarations.AssertValidExamples | dials_test.go:18-72 | every declaration of the validation test is accepted or refused as the test expects |
| Declarations.DefaultMismatchExamples | dials_test.go:75-100 | a string dial defaulting to 1, an int dial to 1.0, a float dial to 1, a strings dial to a string, an ints dial to 1 and a floats dial to 1.0 are each refused with `BadDefault` |
| Declarations.DefaultMatchExamples | dials_test.go:101-125 | a bool dial with no default, string dials defaulting to `""` and to `"test value"`, an int dial defaulting to 1 and a float dial to 1.0 are accepted |
| Declarations.DefaultListMatchExamples | dials_test.go:126-155 | list dials with empty list defaults, and with one-element defaults of their element type, are accepted |
| Declarations.DefaultOf | dials_test.go:180-192 | the seeded value has the dial's kind; a bool dial is seeded `false` whatever its default; any other dial is seeded with its default |
| Declarations.ValidDialKeys | dials_test.go:194-200 | a validated dial's name is never empty and its shorthand is absent or one character |
| Table.Lookup | dials_test.go:166-172 | a found dial is registered under that name; none is found exactly when no dial has the name |
| Table.AddCheck | dials_test.go:158-178 | acceptance implies a valid dial with an unregistered name; a validation error is returned unchanged |
| Table.AddAccepts | dials_test.go:158-178 | under the invariant, `Add` accepts exactly the valid dials whose name is new and whose shorthand is absent or unclaimed |
| Table.AddRefusesDuplicateName | dials_test.go:166-172 | a second dial with a registered name is refused |
| Table.AddRefusesClaimedShorthand | dials_test.go:173-178 | a shorthand claimed by a different dial is refused with `DuplicateShorthand` |
| Table.AddKeepsInv | dials_test.go:158-200 | registering an accepted dial keeps the registry invariant |
| Table.InvExcludesEmptyKey | dials_test.go:194-200 | under the invariant neither `values` nor `shorthandNames` holds the key `""` |
| Table.SetString | dials_test.go:203-262 | an unknown dial or a bad string fails; on success only the named key changes; a scalar gets the parsed value; a list gets it appended |
| Table.SetStringKeepsTyped | dials_test.go:203-262 | a successful conversion stores a value of the dial's kind |
| Tokenizer.ArgTokens | dials_test.go:294 | the program name is dropped and the rest is kept |
| Tokenizer.ScanCluster | dials_test.go:373-417 | a scan keeps earlier keys and value kinds; a pending value belongs to a non-bool dial |
| Tokenizer.FlagStep | dials_test.go:293-417 | an unknown long flag fails with `UnknownFlag`; a bare `-` fails; a pending flag names a non-bool dial |
| Tokenizer.ParseTokens | dials_test.go:293-417 | every positional added comes from the tokens and is not a flag; earlier positionals and keys are kept |
| Tokenizer.ParseKeepsInv | dials_test.go:293-417 | tokenizing keeps the registry invariant, even when it stops at an error |
| Tokenizer.PlainTokensArePositionals | dials_test.go:403-406 | tokens that are not flags all become positionals, in order, and change no value |
| Tokenizer.BoolFlagSetsTrue | dials_test.go:294-298 | a long bool flag takes no argument and sets its dial to true |
| Tokenizer.ValueFlagConsumesNext | dials_test.go:294-307 | a long value flag converts the next token as `setStringValue` does, and scanning resumes after it |
| Tokenizer.ValueFlagNeedsValue | dials_test.go:294-307 | a value flag with no token after it fails with `MissingValue` |
| Tokenizer.DoneFlagStep | dials_test.go:374-376 | a flag token that completes on its own is followed by the rest of the tokens |
| Tokenizer.PendingFlagStep | dials_test.go:387-389 | a flag token still waiting for a value converts the next token for its dial |
| Tokenizer.UnknownLongFlagFails | dials_test.go:412-414 | a long flag naming no dial fails with `UnknownFlag` and changes nothing |
| Tokenizer.LongAndShortAgree | dials_test.go:333-372 | `-c rest` and `--name rest` give the same result when `c` is the shorthand of `name` |
| Tokenizer.BoolClusterSetsAll | dials_test.go:373-385 | a cluster of bool shorthands sets every one of them to true and leaves every other value alone |
| Tokenizer.ClusterSuffix | dials_test.go:386-402 | after a run of bool shorthands, the rest of a cluster is read on the values the run left |
| Tokenizer.ValueShorthandNotLastFails | dials_test.go:408-411 | a value shorthand that is not last in its cluster fails with `ValueFlagNotLast` |
| Tokenizer.RepeatedStep | dials_test.go:308-319 | the first occurrence of a repeated value flag stores its argument as `setStringValue` does |
| Tokenizer.SetStringsStep | dials_test.go:308-311 | one argument for a strings dial is appended after the elements already held |
| Tokenizer.RepeatedFlagAccumulates | dials_test.go:308-319 | repeating a value flag converts its arguments one after another, in order |
| Tokenizer.AccumulatedStrings | dials_test.go:308-311 | N occurrences of a strings flag append all N arguments in encounter order |
| Tokenizer.AccumulatedLength | dials_test.go:308-319 | N successful occurrences of a list flag add exactly N elements |
| Tokenizer.AccumulatedCons | dials_test.go:308-319 | repeated conversion converts the first argument, then the rest on the result |
| Tokenizer.SetListStep | dials_test.go:308-319 | one argument for a list dial appends its converted element to the stored list, or fails with the conversion error |
| Tokenizer.AccumulatedList | dials_test.go:308-319 | for any list dial, repeated arguments append their converted elements in order after the stored list; the repetition fails exactly when some argument does not convert |
| Tokenizer.AccumulatedInts | dials_test.go:312-315 | N occurrences of an ints flag append the N numbers read, in encounter order |
| Tokenizer.AccumulatedFloats | dials_test.go:316-319 | N occurrences of a floats flag append the N numbers read, in encounter order |
| Tokenizer.RepeatedFlagSucceeds | dials_test.go:308-319 | if the walk gets through a repeated value flag without error, every argument converted |
| Tokenizer.PositionalStep | dials_test.go:294 | a token that is not a flag is appended to the positionals and the walk goes on with the rest, wherever it sits among flags |
| Tokenizer.UnknownShorthandFails | dials_test.go:415-417 | a cluster character that names no dial fails with `UnknownShorthand` of that character, keeping what the bool shorthands before it set |
| Tokenizer.DoubleDashFails | dials_test.go:412-414 | a bare `--` fails with `UnknownFlag("--")` and changes nothing, because no valid dial has the empty name |
| Resolver.EnvKey | dials_test.go:457-463 | the variable name has the dial name's length and each character upper-cased, with `-` as `_` |
| Resolver.EnvKeyInjective | dials_test.go:457-463 | two different valid dial names never read the same variable |
| Resolver.EnvKeyExample | dials_test.go:459 | dial `my-str` reads `MY_STR` |
| Resolver.FromConfig | dials_test.go:443-456 | an accepted config value has the dial's kind; a value of the kind is taken as is; a refused one is `BadConfigValue` |
| Resolver.Defaults | dials_test.go:420-424 | every registered dial holds a reseeded value (`Seeded`); `DefaultsAt` and `DefaultsTyped` pin which values |
| Resolver.ApplyFile | dials_test.go:443-456 | applying one file keeps every key already stored; `ApplyFileFails` states when it fails |
| Resolver.ApplyFiles | dials_test.go:443-456 | applying the files in order keeps every key already stored; `ApplyFilesAt` and `LaterFileWins` state what each dial holds, `ApplyFilesFails` when the pass fails |
| Resolver.ApplyEnv | dials_test.go:457-463 | the environment pass keeps every key already stored; `ApplyEnvAt` states what each dial holds, `ApplyEnvFails` when the pass fails |
| Resolver.LoadSpec | dials_test.go:420-470 | after any load, failed or not, every registered dial holds a value; `LoadPrecedence`, `LoadPrecedenceBool`, `LoadPrecedenceList`, `LoadRejectsBadSources` and `LoadKeepsInv` state the rest |
| Resolver.DefaultsAt | dials_test.go:420-424 | at the start of a load exactly the registered dials hold a value, each its seeded default |
| Resolver.ApplyFilesAt | dials_test.go:443-456 | after the files, a dial holds the latest file value for it, or what it held before |
| Resolver.LaterFileWins | dials_test.go:450-455 | a file added later that sets a dial overrides every earlier file |
| Resolver.ApplyEnvAt | dials_test.go:457-463 | after the environment pass, a dial holds its variable's value if set, or what it held before |
| Resolver.LoadKeepsInv | dials_test.go:420-470 | over any valid registration, a load establishes the registry invariant whatever the values held before, even when it stops at an error |
| Resolver.LoadPrecedence | dials_test.go:443-470 | for a string, int or float dial, a successful load yields the value of `--name value` if given, else the environment's, else the latest file's, else the default |
| Resolver.LoadPrecedenceBool | dials_test.go:443-470 | for a bool dial, a successful load yields true if `--name` is given, else the environment's value, else the latest file's, else false |
| Resolver.LoadPrecedenceList | dials_test.go:443-470 | for a list dial, a successful load with `--name x` repeated yields the environment's list, else the latest file's, else the default, with every converted `x` appended in order |
| Resolver.DefaultsTyped | dials_test.go:180-192 | every reseeded default belongs to a registered dial and has its kind |
| Resolver.EnvStageTyped | dials_test.go:443-463 | what the files and the environment leave stores only values of the right kinds |
| Resolver.ApplyEnvFails | dials_test.go:457-463 | the environment pass fails exactly when some value dial's variable is set and does not convert, and the error is `BadSyntax` of that dial and text |
| Resolver.ApplyFileFails | dials_test.go:443-456 | one file fails exactly when it holds, under a registered dial's name, a value that dial's kind refuses, and the error is `BadConfigValue` of that file and dial |
| Resolver.ApplyFilesFails | dials_test.go:443-456 | the file pass fails exactly when some added path was not read or holds a refused value, and the error names that path |
| Resolver.LoadRejectsBadSources | dials_test.go:443-470 | a bad file makes the load fail with a file error; good files and a bad variable make it fail with `BadSyntax`; with both good the command line alone decides |
| Resolver.LoadArgsOverride | dials_test.go:465-470 | the command line is tokenized on the values the files and the environment left |
| Resolver.LoadScenarioFiles | dials_test.go:443-455 | with `test.json` the dial reads `json`; after adding `test2.json` it reads `json2` |
| Resolver.LoadScenarioEnv | dials_test.go:457-463 | with `MY_STR=env` set, the environment overrides both files |
| Resolver.LoadScenarioArgs | dials_test.go:465-470 | `cmd -s arg` overrides the environment |
| Resolver.ShortStringFlag | dials_test.go:465-470 | `-c x` for the shorthand of a string dial stores `x` in that dial and nothing else, with no positional and no error |
| Registries.RegisteredIsStored | dials_test.go:296-319 | under the invariant, a registered dial always has a stored value of its kind |
| Registries.Registry.constructor | dials_test.go:10-16 | a fresh registry has every table empty and satisfies the invariant |
| Registries.Registry.Add | dials_test.go:158-200 | the error is `AddCheck`'s; on success the dial is appended, its shorthand claimed and its default seeded; on failure nothing changes; the invariant holds |
| Registries.Registry.AddConfigFile | dials_test.go:444-450 | the path is appended to `configFiles` and nothing else changes |
| Registries.Registry.SetStringValue | dials_test.go:203-262 | the new values are `SetString`'s on success; on failure values are unchanged and the error returned; the invariant holds |
| Registries.Registry.ApplyCluster | dials_test.go:373-402 | the character loop leaves exactly the values, pending dial and error of `ScanCluster` |
| Registries.Registry.ApplyFlag | dials_test.go:293-417 | one flag token leaves exactly the values, pending dial and error of `FlagStep` |
| Registries.Registry.ParseToken | dials_test.go:293-417 | one step of the token walk: a positional, a complete flag, or a value flag with its argument; on success the walk from the new position gives what the walk from the old one gave; an error is the walk's final result |
| Registries.Registry.ParseArgs | dials_test.go:265-417 | the token loop leaves exactly the values, positionals and error of `ParseTokens` over the arguments after the program name; it keeps the invariant |
| Registries.Registry.ApplyConfig | dials_test.go:443-456 | the dial loop leaves exactly the values and error of `ApplyFile` |
| Registries.Registry.ApplyEnvironment | dials_test.go:457-463 | the dial loop leaves exactly the values and error of `ApplyEnv` |
| Registries.Registry.ApplyConfigFiles | dials_test.go:443-456 | the file loop leaves exactly the values and error of `ApplyFiles` over the added paths, in the order added |
| Registries.Registry.Load | dials_test.go:420-470 | the values, positionals and error are `LoadSpec`'s over the registered files, the parsed file contents, the environment and the arguments; it needs only a valid registration and leaves the invariant holding |
| Registries.Registry.BoolValue | dials_test.go:296-298 | returns the stored bool of a registered bool dial |
| Registries.Registry.StringValue | dials_test.go:299-301 | returns the stored string of a registered string dial |
| Registries.Registry.IntValue | dials_test.go:302-304 | returns the stored int of a registered int dial, within 64 bits |
| Registries.Registry.FloatValue | dials_test.go:305-307 | returns the stored float of a registered float dial |
| Registries.Registry.StringValues | dials_test.go:308-311 | returns the stored list of a registered strings dial |
| Registries.Registry.IntValues | dials_test.go:312-315 | returns the stored list of a registered ints dial, each element within 64 bits |
| Registries.Registry.FloatValues | dials_test.go:316-319 | returns the stored list of a registered floats dial |
| Scenarios.AddExamples | dials_test.go:158-192 | two dials without a shorthand coexist; a duplicate name and a claimed shorthand are refused; `mybool` is seeded false and `mystring` its default |
| Scenarios.ParseTestKinds | dials_test.go:265-291 | the command-line test registers `mybool-a` and `mybool-b` as bools and `mystring` as a string |
| Scenarios.BoolClusterExample | dials_test.go:373-385 | `cmd -ba` succeeds and sets both bools |
| Scenarios.BaCluster | dials_test.go:373-385 | the cluster `ba` completes on its own and sets `mybool-a` and `mybool-b` to true |
| Scenarios.MixedClusterFlag | dials_test.go:386-402 | a run of bool shorthands followed by a string shorthand sets the bools and leaves the string dial waiting for a value |
| Scenarios.MixedClusterRun | dials_test.go:386-402 | that cluster followed by a value sets the bools and stores the value in the string dial, with no positional and no error |
| Scenarios.MixedClusterExample | dials_test.go:386-402 | `cmd -bas a` succeeds, sets both bools, and sets `mystring` to `a` |
| Scenarios.PositionalExample | dials_test.go:403-406 | `cmd test` succeeds with `test` as the one positional |
| Scenarios.ValueNotLastExample | dials_test.go:408-411 | `cmd -asb a` fails because `s` is not last in its cluster |
| Scenarios.UnknownFlagExample | dials_test.go:412-414 | `cmd --unknown` fails with `UnknownFlag` |
| Scenarios.UnknownShorthandExample | dials_test.go:415-417 | `cmd -u` fails with `UnknownShorthand` |

## Left out

- The implementation file is not part of this model. Its behaviour is inferred from the tests, and the policies above fill the gaps the tests leave open.
- File-system work (`os.Getwd`, `os.WriteFile`, `os.Remove`), reading the config files, and JSON text decoding. `load` receives each readable path's already-decoded flat map, and a path that could not be read or decoded has no entry.
- The process environment (`os.Setenv` and lookup). `load` receives the environment as a map.
- Values.ParseFloat: decimal text with an optional sign and at least one digit on either side of an optional dot (so `5`, `5.`, `.5` and `-5.25`) becomes an exact `real`. It does not model exponents, `Inf`/`NaN`, hexadecimal floats, or rounding to float64.
- Registries.Registry.BoolValue (and the other six accessors): Go panics when the dial is missing or has another kind. Here that is a precondition.
- Test glue: `log.Fatal`, `fmt.Println`, `t.Error`. The tests also assign `values` and `positionals` directly between calls; a scenario starts from the state it needs instead.
- The long-flag and shorthand forms of the big successful command (dials_test.go:293-372) are not proved as one concrete 23-token run. Each step is covered by the general lemmas: a positional between flags (`PositionalStep`), bool flags, value flags, repeated list flags with their contents in order (`AccumulatedStrings`, `AccumulatedInts`, `AccumulatedFloats`), and the long/short equivalence.
- Resolver.LoadPrecedence, LoadPrecedenceBool, LoadPrecedenceList: each takes one command-line shape for the dial (`--name value`, `--name`, `--name x` repeated); mixtures with other flags are covered only through the tokenizer lemmas.
- `Description` and usage rendering, which the tests do not exercise. Any concurrent use of the package state is also left out.
