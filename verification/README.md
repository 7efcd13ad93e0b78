# argparse, modelled in Dafny

A model of the core of a small C++ command-line parser, `argparse::parser`.

A program registers parameters. Each parameter has:

- a short name (`-v`), a long name (`--verbose`) and a description;
- a type: NONE (a presence flag), INTEGER, STRING, FLOAT or BOOL.

The program then hands the parser its command line. The parser:

- stores every parameter in a `std::map` under the key `short_name + "\n" + name`;
- keeps two indexes, from short name to key and from long name to key;
- walks the tokens after the program path;
- renders a help message from the registry in key order;
- when auto-help is on, prints that message and exits on a bad command line or on `-h`/`--help`;
- lets the caller read values back by any spelling of a name.

The model has eight modules, one per part of the core:

| module | file | what it models |
|---|---|---|
| `IntegerParsing` | `integer_parsing.dfy` | `std::stoll`/`std::stoull` as `parameter_integer::set` uses them: white space, sign, the longest digit run in the base, `invalid_argument` and `out_of_range`, and the unsigned-to-`i64` wrap-around. A reference formatter `Format` is its inverse. |
| `BoolParsing` | `bool_parsing.dfy` | `parameter_bool::set`: "C"-locale lower-casing in place, then the four truthy tokens. |
| `Parameters` | `parameter.dfy` | One `class Parameter`, covering the base class and its five variants, tagged by `ParamType`. `Cell` is a parameter's state as a value. `Convert`/`SetCell` give what `set` stores or throws. |
| `Util` | `util.dfy` | `util::create_parameter`, the factory from the integer behind the `parameter_type` enum. A tag outside the five enumerators yields no cell. |
| `Registry` | `registry.dfy` | The `std::map` as a strictly sorted sequence of cells: `std::string` ordering, `find`, `lower_bound`, `operator[]=` as `Insert`, and registration of a cell in the three tables. |
| `Scanning` | `scanning.dfy` | The token walk of `parse` as the function `Scan`, and the lookup of `get_parameter_value_to` as `Lookup`. |
| `Help` | `help.dfy` | The help text, and the program name taken from `argv[0]`. |
| `Argparse` | `parser.dfy` | `class Parser`: its methods change the registry, the indexes and the cells in place, and are proved against the functions above. |

A ninth module, `Findings` (`findings.dfy`), states the source as it actually behaves where that differs from the model: the registry with null entries, and the read of a non-bool parameter into `is_help_requested`'s `bool`. Both are described under "Findings". Two small helper modules hold shared definitions: `Options` (`options.dfy`) declares the `Option` datatype, and `Sequences` (`sequences.dfy`) holds lemmas about slicing and concatenating sequences.

The diagnostics on `std::cerr` are dropped. Printing the help message and calling `exit(0)` become the outcome `HelpExit(message)`. An exception thrown by `set` during `parse` becomes the outcome `Aborted`. During `add_parameter` it becomes the result `DefaultRejected`, and nothing is stored.

## Model

| member | source | states |
|---|---|---|
| IntegerParsing.SpaceRun | src/argparse/parameter_integer.cc:16-26 | The count of leading white-space characters that `stoll`/`stoull` skip: every one counted is a space and the next one is not. |
| IntegerParsing.DigitRun | src/argparse/parameter_integer.cc:16-26 | The longest prefix of digits valid in the base: every character in it is such a digit and the first one after it is not. |
| IntegerParsing.HexPrefix | src/argparse/parameter_integer.cc:16-26 | In base 16, a `0x` or `0X` followed by a hex digit is skipped (two characters); otherwise nothing is. |
| IntegerParsing.SplitLiteral | src/argparse/parameter_integer.cc:16-26 | The sign and digit run `strtoll` reads, after the optional `0x`/`0X` in base 16; when present, the run is non-empty and all digits in the base. |
| IntegerParsing.StoLL | src/argparse/parameter_integer.cc:18-21 | A signed conversion succeeds only inside the `i64` range, and fails with `invalid_argument` exactly when no digit is present. |
| IntegerParsing.StoULL | src/argparse/parameter_integer.cc:22-25 | An unsigned conversion succeeds only inside the `u64` range; it fails with `invalid_argument` exactly when no digit is present, and with `out_of_range` exactly when the digits' magnitude exceeds `u64` max. |
| IntegerParsing.StoULLNegation | src/argparse/parameter_integer.cc:22-25 | A successful unsigned conversion of a literal with magnitude m is m, or (2^64 - m) mod 2^64 when the literal carries a minus sign. |
| IntegerParsing.StoULLNegative | src/argparse/parameter_integer.cc:22-25 | A negative literal of magnitude 0 < m <= `u64` max converts to 2^64 - m. |
| IntegerParsing.ToI64 | src/argparse/parameter_integer.cc:24 | Storing a `u64` in the `i64` field keeps the value modulo 2^64 and lands in the `i64` range; values up to `i64` max are kept as they are. |
| IntegerParsing.ConvertInteger | src/argparse/parameter_integer.cc:16-26 | What an integer cell stores is always in the `i64` range. |
| IntegerParsing.StoLLFailure | src/argparse/parameter_integer.cc:18-21 | The signed conversion fails exactly when there is no digit or the literal's value is outside `i64`. |
| IntegerParsing.DigitsSound | src/argparse/parameter_integer.cc:16-26 | The reference formatter writes a non-empty digit string whose value in the base is the number. |
| IntegerParsing.SplitFormat | src/argparse/parameter_integer.cc:16-26 | Reading formatted text gives back exactly the sign and digits it was written with. |
| IntegerParsing.StoLLFormat | src/argparse/parameter_integer.cc:18-21 | Round trip: `stoll` reads back every formatted `i64`, in every base from 2 to 36. |
| IntegerParsing.StoULLFormat | src/argparse/parameter_integer.cc:22-25 | Round trip: `stoull` reads back every formatted `u64`. |
| IntegerParsing.StoULLFormatNegative | src/argparse/parameter_integer.cc:22-25 | `stoull` reads the text of a negative `i64` n as 2^64 + n. |
| IntegerParsing.UnsignedRoundTrip | src/argparse/parameter_integer.cc:22-25 | Round trip: the unsigned conversion, with its wrap into the `i64` field, reads back every formatted `i64`. |
| IntegerParsing.DigitsNoPrefix | src/argparse/parameter_integer.cc:16-26 | A formatted digit string never starts with a `0x` prefix, so the reader takes all of it. |
| IntegerParsing.DigitsLead | src/argparse/parameter_integer.cc:16-26 | A formatted digit string of more than one digit does not start with '0'. |
| IntegerParsing.HexPrefixSkipped | src/argparse/parameter_integer.cc:18-21 | "0x1f" in base 16 reads as 31. |
| IntegerParsing.HexPrefixAlone | src/argparse/parameter_integer.cc:18-21 | "0xg" in base 16 and "0x1f" in base 10 read as 0: the prefix is taken only before a hex digit and only in base 16. |
| BoolParsing.Lower | src/argparse/parameter_bool.cc:10-11 | Lower-casing keeps the length and maps each character through `tolower`. |
| BoolParsing.LowerInPlace | src/argparse/parameter_bool.cc:11 | `std::transform(..., ::tolower)` on the buffer leaves exactly the lower-cased old contents. |
| BoolParsing.DecideBool | src/argparse/parameter_bool.cc:9-17 | The bool stored is true exactly when the lower-cased text equals one of "1", "true", "yes" and "on". |
| BoolParsing.LowerIdempotent | src/argparse/parameter_bool.cc:10-11 | Lower-casing twice is lower-casing once. |
| BoolParsing.TruthyIgnoresCase | src/argparse/parameter_bool.cc:9-17 | Texts equal up to ASCII case read the same. |
| BoolParsing.TruthyShape | src/argparse/parameter_bool.cc:12 | A text reads true exactly when it is one of the four tokens, of its own length, up to case. |
| BoolParsing.TruthyTrueFalse | src/argparse/parser.cc:46 | The texts "true" and "false" that `add_bool` passes to `set` read as true and false. |
| BoolParsing.TruthySpellings | src/argparse/parameter_bool.cc:12-16 | "TRUE", "On", "1" and "yEs" read as true; "", "0" and "off" read as false. |
| Parameters.InitialValue | src/argparse/parameter_integer.cc:5-10 | Each variant's constructor stores a value of its own type (false, 0, "", 0.0, false). |
| Parameters.Convert | src/argparse/parameter_string.cc:14-17 | The value `set` stores has the cell's type, and only an integer cell's `set` can throw. |
| Parameters.SetCell | src/argparse/parameter_none.cc:14-17 | `set` changes only the value, and the new value has the cell's type. |
| Parameters.Parameter.constructor | src/argparse/parameter.cc:5-12 | A new parameter has the given names, description and type, is not required, and holds its variant's initial value. |
| Parameters.Parameter.SetRequired | src/argparse/parameter.cc:41-44 | `set_required` changes `required` and nothing else. |
| Parameters.Parameter.Set | src/argparse/parameter_integer.cc:16-26 | `set` leaves the cell in the state `SetCell` gives; when the conversion throws, the cell is unchanged and the error is returned. |
| Parameters.Parameter.GetValue | src/argparse/parameter_none.cc:19-22 | `get_value_to` reports the cell's value, which has the cell's type. |
| Parameters.LastSetWins | src/argparse/parameter_string.cc:14-17 | After a run of successful sets, the cell holds what the last one converted, whatever came before. |
| Parameters.SetTotalUnlessInteger | src/argparse/parameter_bool.cc:9-17 | Every `set` except the integer one accepts any text. |
| Parameters.FlagStaysSet | src/argparse/parameter_none.cc:14-17 | A presence flag ignores its argument, and once set it stays set. |
| Parameters.StringRoundTrip | src/argparse/parameter_string.cc:14-22 | A string cell reads back exactly what was set. |
| Parameters.BoolSetMeaning | src/argparse/parameter_bool.cc:9-17 | A bool cell stores the truthy test of its text. |
| Parameters.IntegerRoundTrip | src/argparse/parameter_integer.cc:16-26 | An integer cell, signed or unsigned, stores exactly the `i64` whose text in its base it is given. |
| Parameters.IntegerNoDigits | src/argparse/parameter_integer.cc:16-26 | Text with no digit makes an integer cell throw `invalid_argument`, signed or not. |
| Util.TypeOfTag | src/argparse/util.cc:8-23 | The factory selects a variant exactly for the five enumerator values. |
| Util.TagRoundTrip | src/argparse/util.cc:8-23 | Tags and variants correspond one to one. |
| Util.NewCell | src/argparse/util.cc:6-24 | The factory builds a cell exactly for the five tags. The cell is valid and not required, has the tag's variant, the given names and description, and the variant's initial value. |
| Util.CreateParameter | src/argparse/util.cc:6-24 | The factory returns null exactly for an unknown tag; otherwise a fresh parameter in the state `NewCell` gives. |
| Util.FreshCells | src/argparse/util.cc:10-19 | The fresh state of each variant: a NONE or BOOL cell reads false, an INTEGER cell 0 (base 10, signed), a STRING cell "". |
| Registry.Find | src/argparse/parser.cc:206 | The map lookup finds the first position holding the key, or none exactly when the key is absent. |
| Registry.FindSorted | src/argparse/parser.cc:127 | In a strictly sorted registry each key is found at its own position. |
| Registry.LowerBound | src/argparse/parser.cc:31 | The insertion point: every key before it is below the key, and the key there is not. |
| Registry.Insert | src/argparse/parser.cc:31 | `parameters[key] = p` stores `p` and adds no other cell. |
| Registry.InsertIsUpdate | src/argparse/parser.cc:31 | As a dictionary, inserting is the update `m[key] := p`. |
| Registry.InsertOrdered | src/argparse/parser.cc:31 | Inserting keeps the registry strictly sorted by key, which is the map's iteration order. |
| Registry.InsertKeys | src/argparse/parser.cc:31 | After inserting, the keys are the old keys plus the new one. |
| Registry.InsertLength | src/argparse/parser.cc:31 | Inserting a new key adds one cell; re-registering a key keeps the count. |
| Registry.InsertSplice | src/argparse/parser.cc:31 | Insertion puts the cell at the lower bound of its key, over the cell stored there under the same key. |
| Registry.IndexName | src/argparse/parser.cc:32-39 | A name is indexed only when it is non-empty; other names are untouched. |
| Registry.RegisterOk | src/argparse/parser.cc:21-41 | Registration keeps the registry sorted, and both indexes free of the empty name and pointing at stored keys. |
| Registry.RegisterEffect | src/argparse/parser.cc:30-39 | After registration the key maps to the new cell and every other key is unchanged; each non-empty name is (re)indexed to the key, and an empty name is not. |
| Scanning.Locate | src/argparse/parser.cc:101-118 | A flag resolves to a position inside the registry. |
| Scanning.Scan | src/argparse/parser.cc:97-155 | The scan keeps every cell valid and changes only values, never names or types. |
| Scanning.ScanFlagStep | src/argparse/parser.cc:127-131 | A presence flag marks its cell set, and the scan goes on at the next token. |
| Scanning.ScanValueFlagStep | src/argparse/parser.cc:132-145 | For a value flag: no next token, or a next token starting with '-', fails with "requires a value". A conversion error fails with that error and the cells unchanged. Otherwise the value goes into the cell and the scan skips both tokens. |
| Scanning.ScanRejectStep | src/argparse/parser.cc:118-126 | A token that is not a flag, or names no parameter, stops the scan with the cells unchanged. |
| Scanning.ScanAppend | src/argparse/parser.cc:97-155 | Scanning `a + b` after a clean scan of `a` is scanning `b` from the cells `a` left. |
| Scanning.ScanStopsAtRejected | src/argparse/parser.cc:118-126 | Fail-fast: a rejected token after a clean prefix fails the parse with exactly the prefix applied. |
| Scanning.ScanNext | src/argparse/parser.cc:97-155 | Each step either stops with the cells untouched, or changes only the cell its flag names and goes on with a shorter suffix. |
| Scanning.ScanFrame | src/argparse/parser.cc:97-155 | A cell no flag token names keeps its state, whether the parse succeeds or not. |
| Scanning.ValueSurvives | src/argparse/parser.cc:133-145 | A value given to a flag that no later token names is what the cell ends up holding. |
| Scanning.ScanLastOccurrence | src/argparse/parser.cc:133-145 | Last occurrence wins: after a clean parse, a repeated value flag holds the conversion of its last value. |
| Scanning.ScanPrefixClean | src/argparse/parser.cc:97-155 | When the tokens after a prefix are empty or start with a flag, a clean parse of the whole means a clean parse of the prefix. |
| Scanning.FlagStaysTrue | src/argparse/parameter_none.cc:14-17 | A presence flag once set stays set through any further tokens: nothing in `parse` clears it. |
| Scanning.FlagSetsAndStays | src/argparse/parser.cc:127-131 | A presence flag at the head of the tokens leaves its cell set at the end of the scan. |
| Scanning.ScanFlagSticks | src/argparse/parser.cc:127-131 | A presence flag anywhere in a clean parse leaves its cell set, whatever tokens come before and after it. |
| Scanning.DashValueIsMissing | src/argparse/parser.cc:135-143 | A value flag followed by a token starting with '-' (a negative number included) fails with "requires a value". |
| Scanning.DegenerateTokens | src/argparse/parser.cc:101-126 | "" is not a flag; "-" and "--" are unknown parameters with the empty name. |
| Scanning.LocateIndexed | src/argparse/parser.cc:110-118 | With consistent indexes, a flag names a cell exactly when its name is indexed. |
| Scanning.QueryRouting | src/argparse/parser.cc:181-204 | `--x` consults only the long index and `-x` only the short one; a bare `x` tries the short index, then the long one. |
| Scanning.LookupSpellings | src/argparse/parser.cc:176-213 | `s`, `-s` and `--n` all read the cell registered as `-s`/`--n`; so does the bare `n` when no short name shadows it. |
| Scanning.FindRegistered | src/argparse/parser.cc:30-31 | A registered cell is found again under its own key. |
| Scanning.RegisterThenLookup | src/argparse/parser.cc:21-41 | After registration, each spelling of each non-empty name of the cell reads back its value. |
| Scanning.LookupEmptyName | src/argparse/parser.cc:176-213 | "", "-" and "--" read nothing. |
| Help.LineShapes | src/argparse/parser.cc:65-75 | The three shapes of a help line; a short-only parameter keeps ", " before the tab. |
| Help.LinesAppend | src/argparse/parser.cc:63-81 | The lines of two runs of cells are the lines of each, concatenated. |
| Help.HelpErrorIff | src/argparse/parser.cc:76-80 | The help text is the error text exactly when some cell has neither name. |
| Help.HelpListsEveryCell | src/argparse/parser.cc:59-83 | With every cell named, the text is the usage line and then every cell's line, in key order. |
| Help.HelpStep | src/argparse/parser.cc:63-81 | One more named cell appends exactly its line. |
| Help.LinePieces | src/argparse/parser.cc:65-75 | The appends of one loop turn add up to the cell's line. |
| Help.HelpLineCount | src/argparse/parser.cc:59-83 | When no name or description holds a line break, the text has exactly one line per cell after the usage line. |
| Help.LastSeparator | src/argparse/parser.cc:89 | `find_last_of("\\/")`: the position of a separator with none after it, or none at all. |
| Help.BaseName | src/argparse/parser.cc:88-93 | The program name is the separator-free suffix of `argv[0]` after its last separator. |
| Help.BaseNameFixed | src/argparse/parser.cc:88-93 | A name without separators is kept whole; taking the base name twice changes nothing. |
| Help.BaseNameTail | src/argparse/parser.cc:88-93 | A directory ending in a separator, followed by a separator-free tail, has that tail as its base name. |
| Help.BaseNameUnix | src/argparse/parser.cc:88-93 | "/usr/bin/myprogram" gives "myprogram". |
| Help.BaseNameWindows | src/argparse/parser.cc:88-93 | "C:\\Program Files\\myapp.exe" gives "myapp.exe": the backslash separates too; and "" gives "". |
| Argparse.Decide | src/argparse/parser.cc:118-163 | The outcome of a scan, as four iffs. A conversion error aborts. Any other failure returns false with auto-help off, and prints the help and exits with it on. A clean scan prints the help and exits only with auto-help on and help requested, and otherwise succeeds. |
| Argparse.ParseRun | src/argparse/parser.cc:85-164 | `parse` leaves the base name of `argv[0]` as the program name, and valid cells of the same shape. |
| Argparse.Prepare | src/argparse/parser.cc:23-29 | `add_parameter` stores nothing for an unknown tag. Only an INTEGER default can be rejected. Otherwise it prepares a valid cell of the tag's variant with the given names, description and `required`. |
| Argparse.PrepareDefaults | src/argparse/parser.cc:27-28 | A NONE cell ignores the default and starts unset. A STRING cell holds the default verbatim, a FLOAT cell its text, a BOOL cell its truthy reading. An INTEGER cell holds its base-10 signed conversion, or the default is rejected with that error. |
| Argparse.BoolCell | src/argparse/parser.cc:43-47 | The cell `add_bool` stores is a valid BOOL cell. |
| Argparse.InsertAllValid | src/argparse/parser.cc:31 | Inserting a valid cell keeps every cell valid. |
| Argparse.Parser.constructor | src/argparse/parser.cc:7-10 | A new parser has empty tables and auto-help on. |
| Argparse.Parser.Store | src/argparse/parser.cc:30-39 | Storing a cell performs `Register` on the tables and keeps them consistent. |
| Argparse.Parser.Splice | src/argparse/parser.cc:31 | The in-place map assignment leaves the registry as `Insert` describes, indexes untouched. |
| Argparse.Parser.IndexNames | src/argparse/parser.cc:32-39 | Each non-empty name is indexed to the key; the registry is untouched. |
| Argparse.Parser.AddParameter | src/argparse/parser.cc:21-41 | With the header's defaults: an unknown tag or a rejected default leaves the tables unchanged; otherwise the tables become `Register` of the prepared cell. |
| Argparse.Parser.AddBool | src/argparse/parser.cc:43-57 | The tables become `Register` of the BOOL cell holding the default. |
| Argparse.Parser.NewBool | src/argparse/parser.cc:44-47 | The created cell, set from "true"/"false" and marked `required`, is exactly `BoolCell`. |
| Argparse.Parser.ParametersDistinct | src/argparse/parser.cc:30-31 | Distinct keys hold distinct parameter objects, so setting one never changes another. |
| Argparse.Parser.SetAt | src/argparse/parser.cc:130 | `set` on one registry cell changes that cell as `SetCell` says, or nothing when it throws. |
| Argparse.Parser.GetHelpMessage | src/argparse/parser.cc:59-83 | The loop builds exactly `HelpText`: the usage line and one line per cell in key order, or the error text at the first unnamed cell. |
| Argparse.Parser.AppendLine | src/argparse/parser.cc:65-75 | One loop turn appends exactly the cell's line. |
| Argparse.Parser.PrintHelpAndExit | src/argparse/parser.cc:235-239 | The outcome is exit with the help text. |
| Argparse.Parser.Reject | src/argparse/parser.cc:118-126 | A failure gives the outcome `Decide` assigns to it. |
| Argparse.Parser.Finish | src/argparse/parser.cc:157-163 | A clean scan ends with the help check, as `Decide` says. |
| Argparse.Parser.GetParameterValue | src/argparse/parser.cc:176-213 | `get_parameter_value_to` reports `Lookup`: the value of the cell the flag names in any spelling, or nothing. |
| Argparse.Parser.SetAutoHelp | src/argparse/parser.cc:215-218 | `set_auto_help` sets the switch. |
| Argparse.Parser.IsHelpRequested | src/argparse/parser.cc:220-233 | Help is requested when `h`, else `help`, names a cell that reads true. |
| Argparse.Parser.Resolve | src/argparse/parser.cc:101-117 | Stripping one or two dashes and reading the matching index finds the cell `Locate` finds. |
| Argparse.Parser.ScanToken | src/argparse/parser.cc:98-154 | One loop turn: either the scan continues at a later token with the same overall result, or it fails here as `Scan` does. |
| Argparse.Parser.ScanFlag | src/argparse/parser.cc:99-145 | A flag token naming no cell fails with "unknown parameter"; otherwise the turn proceeds as `Scan` does. |
| Argparse.Parser.ScanValue | src/argparse/parser.cc:132-145 | A missing value fails with "requires a value"; otherwise the value is converted as `Scan` does. |
| Argparse.Parser.SetFlag | src/argparse/parser.cc:128-131 | A presence flag is set and the scan goes on at the next token, as `Scan` does. |
| Argparse.Parser.SetValue | src/argparse/parser.cc:144 | The value is converted into the cell, or the conversion error ends the scan with the cells unchanged. |
| Argparse.Parser.Parse | src/argparse/parser.cc:85-164 | `parse(args)` leaves exactly the program name, cells and outcome of `ParseRun`, and never touches the registry's structure or the indexes. |
| Argparse.Parser.ParseArgv | src/argparse/parser.cc:166-174 | `parse(argc, argv)` is `parse` of the first `argc` entries. |
| Findings.Subscript | src/argparse/parser.cc:206 | `operator[]` adds at most one entry. |
| Findings.MissInsertsNullFirst | src/argparse/parser.cc:206 | A lookup of the empty key inserts a null entry at the front of the map. |
| Findings.HelpAfterMissCrashes | src/argparse/parser.cc:176-213 | As written: after a lookup of a name no index holds, the help message dereferences null. |
| Findings.LongOnlyHelpCrashes | src/argparse/parser.cc:220-233 | As written: with a `--help` flag registered without a short name, `prog --help` dereferences null while rendering the help. |
| Findings.HelpFromCells | src/argparse/parser.cc:59-83 | Rendering a registry that holds only real cells is `HelpText`. |
| Findings.HelpNeverCrashes | src/argparse/parser.cc:59-83 | Corrected: without null entries, the help message always renders. |
| Findings.SubscriptHit | src/argparse/parser.cc:206 | Reading a stored key finds its cell and inserts nothing. |
| Findings.SubscriptMiss | src/argparse/parser.cc:206 | Reading an absent key returns null. |
| Findings.QueryKeyAgrees | src/argparse/parser.cc:178-204 | The "" sentinel the source uses agrees with the model's absent key. |
| Findings.LookupAgrees | src/argparse/parser.cc:176-213 | Corrected: the non-inserting `Lookup` reports exactly what the inserting lookup reports. |
| Findings.HeightShadowsHelp | src/argparse/parser.cc:220-233 | As written: with an INTEGER `-h`/`--height` cell and a set `--help` flag, the read of `h` is undefined behaviour, while the model reports help requested. |
| Findings.HelpReadAgrees | src/argparse/parser.cc:220-233 | Wherever the as-written read is defined, `HelpRequested` gives the same answer. |
| Findings.NonBoolNeverShadowsHelp | src/argparse/parser.cc:220-233 | Corrected: a cell of another type under `h` does not hide `--help`; the answer is whether `help` reads true. |

## Left out

- Output: the `std::cerr` diagnostics are not modelled. `std::cout` and `exit(0)` in `print_help_and_exit` become the outcome `HelpExit`. Exceptions become `Aborted` (in `parse`) or `DefaultRejected` (in `add_parameter`); the caller's handling of them is not modelled.
- Memory: the destructor's `delete` loop, and the leak of a parameter replaced under an existing key, are not modelled; a replaced cell simply drops out of the sequence.
- Parameters.Convert: a FLOAT cell keeps the literal text instead of `std::stod`'s `f64`, and its `set` never fails. `stod`'s own `invalid_argument`/`out_of_range` are not modelled, because floating point is out of scope.
- Parameters.Parameter.GetValue: the caller's `void*` buffer and its type are not modelled; the value is returned tagged, and `Scanning.AsBool` states how a `bool` buffer reads a NONE or BOOL cell. A BOOL or NONE read through a buffer of another type is undefined behaviour in the source and is not modelled.
- The base class's empty `set` and `get_value_to` (src/argparse/parameter.cc:33-39) are never reached, since every variant overrides them.
- The getters `get_short_name`, `get_name`, `get_description`, `get_required` and `get_type` are the fields of `Parameter` themselves.
- IntegerParsing.ConvertInteger: only bases 2 to 36. Base 0, with the `0x` and `0` prefixes it uses to choose the base, is left out, since the factory always uses base 10. The optional `0x`/`0X` that `strtoll` accepts in base 16 is modelled.
- Argparse.Parser.Parse: requires at least one argument. `args[0]` on an empty vector is undefined behaviour in the source.
- Scanning.Lookup: the inserting side effects of `std::map::operator[]` are left out. `parse` (src/argparse/parser.cc:112-116) and `get_parameter_value_to` both add entries holding "" to `short_name_query`/`name_query`; an index entry holding "" reads like an absent one. Only `get_parameter_value_to` (src/argparse/parser.cc:206) also inserts a null pointer under the empty key in `parameters`: `parse` rejects an empty key (line 118) before it reads the registry. That null entry changes behaviour; it is modelled in `Findings`.
- Argparse.Parser.IsHelpRequested: when `h` or `help` names an INTEGER, STRING or FLOAT cell, the source writes that cell's value through the `bool*` it passes to `get_value_to` (undefined behaviour); the model reads such a cell as false. `Findings.HelpRequestedAsWritten` marks those reads as undefined.
- Registry.Key: two parameters whose names contain '\n' can share a key (`"a\nb" + "\n" + ""` vs `"a" + "\n" + "b\n"`); the model keeps the same key function and so the same collision, but proves nothing about it.
- Argparse.Parser.ScanToken: the diagnostic and the auto-help exit happen inside the loop in the source; the model returns the error to `Parse`, which decides the outcome right away. The resulting outcome and cells are the same.

## Findings

| source | as written | input that shows it | evidently intended | confidence | as-written member | corrected member |
|---|---|---|---|---|---|---|
| src/argparse/parser.cc:206 | `get_parameter_value_to` reads the registry with `parameters[key]`. For a name no index holds, this inserts a null pointer under the empty key, which sorts first. `get_help_message` (lines 63-75) then dereferences that null pointer. | Register a NONE parameter with long name `help` and no short name, keep auto-help on, and parse `prog --help`. `is_help_requested` looks up `h` first, which inserts the null entry, then finds `help` set and renders the help message. | Look the key up without inserting (`find`), so the registry only ever holds real parameters and the help message always renders. | not executed | Findings.LongOnlyHelpCrashes | Findings.HelpNeverCrashes |
| src/argparse/parser.cc:220-233 | `is_help_requested` reads `h`, then `help`, into a `bool` through `get_parameter_value_to`, whatever the type of the cell found. An INTEGER, STRING or FLOAT cell writes an `i64`, a `std::string` or an `f64` through the `bool*`. | Register an INTEGER parameter `-h`/`--height` and a NONE parameter `--help`, and parse `prog --height 1 --help`. The read of `h` writes an `i64` into the one-byte `bool`. | Read `h` and `help` as help switches only when the cell found is NONE or BOOL; treat any other cell as not requesting help. | not executed | Findings.HeightShadowsHelp | Findings.NonBoolNeverShadowsHelp |
