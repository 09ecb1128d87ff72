# rsclp command-line parser, modelled in Dafny

This project models the core of the `rsclp` Rust crate (`src/lib.rs`).
The crate is a command-line option parser. A program registers typed options:
Boolean, Integer, FPoint (floating point) or String. Each option has a
single-character flag, a long flag, or both. Registration returns a handle.
`parse` then walks the process arguments:

- it binds option values, checking each value against the option's type;
- it collects the remaining arguments;
- in positional mode, it collects every argument after `--` as positional;
- it checks that every mandatory option was set.

Values are read back through the handle with `is_set`, `get_value` and
`get_values`.

The model has these modules:

- `Literals`: the text forms that Rust's `FromStr` accepts for `bool`, the
  fixed-width integers, `f32`/`f64` and `String`.
- `OptionType`: the type tag, its name, and what a text "looks like".
- `Errors`: the fourteen error kinds, in the order of their message table,
  and the error value.
- `OptionRecord`: `CommandLineOption`, a class whose `values` grow in place,
  with `add_value`, `get_flags` and the handle.
- `Registry`: the ordered registry invariant, flag lookup, the duplicate check
  and the mandatory check.
- `Scan`: the argument walk as pure functions, one for each source loop.
- `ScanProperties`: lemmas about that walk.
- `Parser`: the `CommandLineParser` class. Its registration and scan methods
  update the registry, the side lists and the option values in place. Each
  method is proved equal to its function in `Scan`.
- `Query`: the read side.

A handle is modelled as `Fingerprint`: the data that `calculate_hash` feeds
to the hasher (the short flag if present, then the long flag if present).
Two handles are therefore equal exactly when their hash inputs are equal.
A typed read is modelled by a `Target` (`bool`, an integer of a given
signedness and width, `f32`, `f64`, `String`). On success the read returns
the text that parsed.

## Model

| member | source | states |
|---|---|---|
| Errors.MessageIndex | src/lib.rs:14-29 | every error kind has a slot below the table size of fourteen |
| Errors.KindAt | src/lib.rs:14-29 | the kind stored at a table slot maps back to that slot |
| Errors.MessageIndexRoundTrip | src/lib.rs:14-29 | the slot of each kind leads back to that same kind, so the table is indexed one-to-one |
| OptionType.TypeNameInjective | src/lib.rs:78-88 | two tags have the same type name exactly when they are the same tag, so comparing names is tag equality |
| OptionType.TypeName | src/lib.rs:79-87 | the name of each tag, as `unwrap` gives it |
| OptionType.TagOf | src/lib.rs:99-163 | every supported read target has a defined tag: `bool` exactly gives Boolean, the fixed-width integers exactly give Integer, `f32` and `f64` exactly give FPoint, and `String` exactly gives String |
| OptionType.Classify | src/lib.rs:315-331 | a text looks Boolean if `bool` parses it, otherwise Integer if `i128` does, otherwise FPoint if `f64` does, otherwise like nothing; each case holds in both directions |
| Literals.IndexOf | src/lib.rs:1132 | the first position of a character, with no earlier occurrence; none when the character is absent |
| Literals.IntegerTextIsFloatText | src/lib.rs:315-331 | every text that `i128` accepts is also accepted by `f64` |
| Literals.Parses | src/lib.rs:319-331 | `parse::<T>()` acceptance: every text parses as `String`, and no other target accepts the empty text |
| Literals.LooksBool | src/lib.rs:319-322 | the texts `parse::<bool>()` accepts |
| Literals.LooksInteger | src/lib.rs:323-326 | the texts `parse::<i128>()` accepts |
| Literals.LooksFloat | src/lib.rs:327-330 | the texts `parse::<f64>()` accepts, which are exactly those `f32` accepts |
| Literals.BoolTextIsNoNumber | src/lib.rs:319-331 | "true" and "false" are neither `i128` nor `f64` texts, so the Boolean attempt never hides a numeric one |
| Literals.IntegerTextIsWideText | src/lib.rs:323-326 | every text a signed integer type, or an unsigned type narrower than 128 bits, accepts is an `i128` text |
| OptionRecord.AddValueCheck | src/lib.rs:315-340 | an Undefined option refuses every value; a String option takes any value; other options refuse text that looks like another kind, with the mismatch kind of what it looks like, and accept everything else |
| OptionRecord.CommandLineOption.AddValue | src/lib.rs:315-340 | the outcome is `AddValueCheck`; on success the value is appended, and on failure the values are unchanged |
| OptionRecord.CommandLineOption.constructor | src/lib.rs:191-241 | a new option has the given flags, type, mandatory flag, argument and help texts, and no values |
| OptionRecord.GetFlags | src/lib.rs:254-266 | the exact flags text: empty with no flags, "-c" for a short flag only, "--name" for a long flag only, and "-c/--name" for both |
| OptionRecord.FingerprintOf | src/lib.rs:349-359 | the handle holds the short flag exactly when one is present, and then that flag; likewise the long flag (that distinct flag pairs get distinct handles is `FingerprintInjective`) |
| OptionRecord.FingerprintInjective | src/lib.rs:349-359 | two flag pairs have equal handles exactly when both flags are equal |
| OptionRecord.SameOptionSameFingerprint | src/lib.rs:362-369 | options that compare equal have equal handles |
| OptionRecord.SameOption | src/lib.rs:363-369 | `eq` compares type, short flag and long flag; equal options have the same flags text |
| OptionRecord.OptionError | src/lib.rs:1185-1189 | an error raised against an option carries that option's flags text, its type and the error kind |
| OptionRecord.NegativeIntegerExample | src/lib.rs:1507-1520 | "-12" is bound to an Integer option, and a Boolean option refuses it with the integer mismatch |
| OptionRecord.DecimalExample | src/lib.rs:1522-1534 | an Integer option refuses "123.3" with the floating-point mismatch |
| OptionRecord.DecimalIsFloat | src/lib.rs:327 | "123.3" parses as `f64` |
| OptionRecord.FPointRefusesIntegerText | src/lib.rs:323-326 | an FPoint option refuses any integer-looking text with the integer mismatch |
| OptionRecord.PlainTextAccepted | src/lib.rs:317-339 | text that looks like no kind is accepted by any defined option |
| Registry.FindOption | src/lib.rs:1271-1290 | the first option answering to the flag ("--name" matches a present long flag; otherwise the second character matches a present short flag), with no earlier match; none when nothing matches |
| Registry.MatchesFlag | src/lib.rs:1271-1290 | whether an option answers to a flag text: "--name" against a present long flag, anything else by its second character against a present short flag |
| Registry.LongFlagFound | src/lib.rs:1271-1290 | in a well-formed registry, "--" followed by a registered long flag finds that option |
| Registry.ShortFlagFound | src/lib.rs:1271-1290 | in a well-formed registry, "-" followed by a registered short flag finds that option |
| Registry.ClashKind | src/lib.rs:1303-1324 | no clash exactly when neither flag is shared; the full-duplicate kind exactly when type, short and long flag are all equal; the short-flag kind exactly when the short flag is shared and the option is not a full duplicate; the long-flag kind exactly when only the long flag is shared |
| Registry.FirstClash | src/lib.rs:1300-1326 | the first existing option that clashes, with no earlier clash; none when no option clashes |
| Registry.CheckExists | src/lib.rs:1299-1327 | passes exactly when no existing option shares the short or the long flag; otherwise the error is raised against the first clashing option, with its clash kind |
| Registry.HelpDuplicates | src/lib.rs:1381-1391 | against an existing -h/--help: ('h', "help") is a full duplicate, ('h', "help-all") a short-flag duplicate, and ('H', "help") or a long-only "help" a long-flag duplicate, each reported as "-h/--help" |
| Registry.VersionShortDuplicate | src/lib.rs:1365-1371 | a short-only 'v' against an existing -v/--version is a short-flag duplicate reported as "-v/--version" |
| Registry.RegisterKeepsWellFormed | src/lib.rs:562-567 | appending an option that passed the duplicate check keeps flags pairwise distinct and types defined |
| Registry.ShortOnlyOptionsClash | src/lib.rs:1318-1324 | once a short-only option exists, every further short-only registration fails, because both have the long flag "" |
| Registry.LongOnlyOptionsClash | src/lib.rs:1311-1317 | once a long-only option exists, every further long-only registration fails, because both have the short flag ' ' |
| Registry.FingerprintsDistinct | src/lib.rs:349-359 | in a well-formed registry, no two options share a handle |
| Registry.FindFingerprint | src/lib.rs:909-917 | the first option with the handle, with no earlier match; none when no option has it |
| Registry.FingerprintFound | src/lib.rs:909-917 | the handle returned for option i finds option i |
| Registry.FirstUnset | src/lib.rs:1109-1121 | the first mandatory option without a value, with none before it; none when all mandatory options are set |
| Registry.CheckMandatory | src/lib.rs:1109-1121 | passes exactly when every mandatory option has a value; otherwise the error is raised against the first unset mandatory option |
| Scan.SplitAssign | src/lib.rs:1220-1221 | without '=', the token comes back whole; otherwise the token is the '='-free key, then "=", then the rest |
| Scan.SplitAssignJoin | src/lib.rs:1220-1221 | joining a '='-free key and a value with "=" and splitting again returns both |
| Scan.Cluster | src/lib.rs:1131-1137 | the cluster is the text between '-' and the first '=', and the argument is the text after that '='; without '=' the cluster is the rest of the token and the argument is empty |
| Scan.Latches | src/lib.rs:1212-1217 | "--" latches positional handling only under the positional mode |
| Scan.Bind | src/lib.rs:1250-1256 | a value is bound exactly when `AddValueCheck` accepts it; then only that option's values grow; on refusal nothing changes and the error is raised against the option |
| Scan.LongStep | src/lib.rs:1211-1265 | a long-form token only appends values, and on success the index advances by at most one and stays in the argument list |
| Scan.ShortLoop | src/lib.rs:1143-1202 | a short cluster only appends values, and on success the index stays in the argument list |
| Scan.ShortStep | src/lib.rs:1129-1204 | a short-form token only appends values, and on success the index stays in the argument list |
| Scan.OptionStep | src/lib.rs:1086-1091 | an option token only appends values, and on success the index stays in the argument list |
| Scan.ScanLoop | src/lib.rs:1083-1100 | the walk only appends option values and only extends the remaining and positional lists; every token it adds to the remaining list comes from the arguments and does not start with '-'; after the latch nothing is added to the remaining list |
| Scan.ParseSpec | src/lib.rs:1076-1105 | the values and side lists are those of the walk; a walk error is the parse's error; the parse passes exactly when the walk passes and every mandatory option has a value; otherwise the error is raised against the first unset mandatory option |
| ScanProperties.LatchedTail | src/lib.rs:1095-1099 | once latched, all remaining tokens, options included, are appended to the positional list in order and nothing else changes |
| ScanProperties.PositionalAfterSeparator | src/lib.rs:1213-1216 | in positional mode, `--` latches and everything after it is positional |
| ScanProperties.DefaultModeNoPositional | src/lib.rs:1213-1216 | in default mode, no token ever becomes positional |
| ScanProperties.PlainTokensRemain | src/lib.rs:1092-1094 | for a tail of tokens that do not start with '-', all go to the remaining list in order, and nothing else changes |
| ScanProperties.RemainingInOrder | src/lib.rs:1083-1100 | with options interleaved in any way, the tokens added to the remaining list occur in the arguments in the same order (the shape of the test at src/lib.rs:1612-1636) |
| ScanProperties.LoneDashIgnored | src/lib.rs:1132-1143 | a lone "-" binds nothing and the walk continues with the next token |
| ScanProperties.DefaultModeSeparatorIgnored | src/lib.rs:1212-1217 | under the default mode a lone "--" binds nothing, latches nothing and the walk continues with the next token |
| ScanProperties.ProgramNameOnly | src/lib.rs:1076-1105 | with only the program name, nothing is bound and the outcome is the mandatory check alone |
| ScanProperties.BareBooleanLongFlag | src/lib.rs:1225-1227 | a bare Boolean long flag binds "true" |
| ScanProperties.LongFlagTakesNextToken | src/lib.rs:1228-1231 | a bare long flag of any other type binds the next token and consumes it |
| ScanProperties.LongFlagMissingAtEnd | src/lib.rs:1228-1238 | a bare valued long flag as the last token fails with a missing argument, binding nothing |
| ScanProperties.LongFlagInlineValue | src/lib.rs:1220-1256 | "--name=value" binds the value without consuming another token |
| ScanProperties.LongFlagEmptyInline | src/lib.rs:1242-1249 | "--name=" fails with a missing argument |
| ScanProperties.LongFlagUnknown | src/lib.rs:1257-1263 | an unknown long flag fails with "option not found", reporting the whole token with the Undefined type |
| ScanProperties.ClaimedArgumentEndsCluster | src/lib.rs:1150-1160 | once the cluster's argument is claimed, the next character naming an option fails with argument-already-assigned against that option, Boolean or not; with no such character the cluster passes and binds nothing more |
| ScanProperties.FirstNamed | src/lib.rs:1143-1146 | the first cluster position naming an option, with none before it; none when no later character names one |
| ScanProperties.KnownChars | src/lib.rs:1145-1146 | every character kept names an option |
| ScanProperties.KnownCharsIdempotent | src/lib.rs:1145-1146 | keeping the named characters twice is keeping them once |
| ScanProperties.SameKnownCharsSameResult | src/lib.rs:1143-1202 | two clusters with the same named characters in the same order give the same result |
| ScanProperties.UnknownCharsSkipped | src/lib.rs:1143-1202 | a cluster gives the same result as its named characters alone, so unknown characters are skipped wherever they appear |
| ScanProperties.ShortFlagMissingArgument | src/lib.rs:1169-1181 | a flag taking a value, with no cluster argument and no next token or an empty one, fails with missing-argument against that option |
| ScanProperties.ShortFlagMissingAtEnd | src/lib.rs:1438-1446 | "-c" as the last token, for a flag taking a value, fails with missing-argument and binds nothing |
| ScanProperties.ShortFlagInlineValue | src/lib.rs:1132-1137 | "-c=value" binds the value to c, Boolean or not, as `add_value` decides, without moving the index |
| ScanProperties.ShortFlagNextToken | src/lib.rs:1169-1174 | "-c value" binds the next token to a flag taking a value, as `add_value` decides, and moves the index past it |
| ScanProperties.Trues | src/lib.rs:1148 | n copies of "true" |
| ScanProperties.BooleanClusterSetsAll | src/lib.rs:1147-1168 | without a cluster argument, a cluster of Boolean flags passes, keeps the index, and appends "true" to each option once per character naming it |
| ScanProperties.SecondFlagRefusedInline | src/lib.rs:1537-1567 | "-cd=value": c takes the value, then d fails with argument-already-assigned |
| ScanProperties.SecondFlagRefusedNextToken | src/lib.rs:1537-1549 | "-cd value" with c taking a value: c takes the next token, then d fails with argument-already-assigned |
| ScanProperties.InlineArgumentClaimedOnce | src/lib.rs:1150-1198 | with an inline argument, a successful cluster names at most one option |
| ScanProperties.NextTokenClaimedOnce | src/lib.rs:1169-1198 | without an inline argument, a successful cluster has no named character after a valued flag |
| ScanProperties.EmptyInlineTakesNextToken | src/lib.rs:1132-1137 | "-c=" for a valued option binds the next token, because an empty inline argument counts as no argument |
| Parser.CommandLineParser.Values | src/lib.rs:182 | the values of every option, in registration order |
| Parser.CommandLineParser.constructor | src/lib.rs:510-543 | an empty registry and empty lists, in default mode |
| Parser.CommandLineParser.SetParsingMode | src/lib.rs:1033-1035 | sets the mode and changes nothing else |
| Parser.CommandLineParser.AddOption | src/lib.rs:604-631 | on a clash, returns the duplicate-check error and leaves the registry alone; otherwise appends a fresh option with no values and returns its handle; the registry invariant is kept |
| Parser.CommandLineParser.Register | src/lib.rs:567 | appends the option, keeping the invariant and giving it no values |
| Parser.CommandLineParser.AddShortOption | src/lib.rs:550-570 | on a clash, returns the duplicate-check error and leaves the registry alone; otherwise keeps the old options as a prefix, appends a fresh option with the given short flag and no long flag, the given type and mandatory flag and no values, and returns its handle; the other fields are unchanged |
| Parser.CommandLineParser.AddLongOption | src/lib.rs:577-596 | on a clash, returns the duplicate-check error and leaves the registry alone; otherwise keeps the old options as a prefix, appends a fresh option with no short flag and the given long flag, the given type and mandatory flag and no values, and returns its handle; the other fields are unchanged |
| Parser.CommandLineParser.AddHelpOption | src/lib.rs:890-894 | on a clash, returns the duplicate-check error and leaves the registry alone; otherwise keeps the old options as a prefix, appends a fresh optional Boolean -h/--help option with no values, and returns its handle |
| Parser.CommandLineParser.AddVersionOption | src/lib.rs:899-903 | on a clash, returns the duplicate-check error and leaves the registry alone; otherwise keeps the old options as a prefix, appends a fresh optional Boolean -v/--version option with no values, and returns its handle |
| Parser.CommandLineParser.BindValue | src/lib.rs:315-340 | `add_value` on one option of the registry: only that option's values change |
| Parser.CommandLineParser.ParseLongFormOption | src/lib.rs:1211-1265 | values, index and outcome equal `LongStep`; the latch is set for `--` in positional mode |
| Parser.CommandLineParser.ParseClusterChar | src/lib.rs:1145-1200 | one character of a cluster advances `ShortLoop` by one position |
| Parser.CommandLineParser.BindBooleanFlag | src/lib.rs:1147-1168 | a Boolean flag in a cluster advances `ShortLoop` by one position |
| Parser.CommandLineParser.BindValuedFlag | src/lib.rs:1169-1199 | a valued flag in a cluster advances `ShortLoop` by one position |
| Parser.CommandLineParser.ParseShortFormOption | src/lib.rs:1129-1204 | values, index and outcome equal `ShortStep` |
| Parser.CommandLineParser.ParseOptionToken | src/lib.rs:1086-1099 | the option token advances the walk as `ScanLoop` does, and the index moves forward |
| Parser.CommandLineParser.Parse | src/lib.rs:1076-1105 | records the program name; the values, remaining list, positional list and outcome equal `ParseSpec`; the registry is kept |
| Query.IsSet | src/lib.rs:909-917 | true exactly when the first option with the handle has a value; an unknown handle is not set |
| Query.GetValue | src/lib.rs:925-957 | "option identifier not found" exactly when no option has the handle; "is not set" against the option when it has no value; success returns its first value, which parses as the target and whose tag is the option's; otherwise "is not of the required type" against the option |
| Query.ParseAll | src/lib.rs:973-981 | one option's values all parse exactly when the result is present, and the result is those values |
| Query.Collect | src/lib.rs:970-982 | the result is present exactly when every gathered value parses, and it is the gathered values in order |
| Query.FirstFailure | src/lib.rs:974-979 | a refused list has a value that does not parse |
| Query.GetValues | src/lib.rs:968-988 | present exactly when some value was gathered and every gathered value parses; it is all values of the matching options, in order |
| Query.GatheredRegistered | src/lib.rs:970-982 | in a well-formed registry, the values gathered for option i's handle are option i's values |
| Query.IsSetRegistered | src/lib.rs:909-917 | `is_set` on option i's handle is true exactly when option i has a value |
| Query.GetValuesRegistered | src/lib.rs:968-988 | `get_values` on option i's handle gives option i's values when they are non-empty and all parse, and nothing otherwise |
| Query.UnsetOptionNotRead | src/lib.rs:944-948 | a registered option without a value reads as "is not set" for every target, and `is_set` is false |
| Query.GetValueImpliesSet | src/lib.rs:925-957 | a successful `get_value` implies `is_set` on the same handle |
| Query.ParsedMandatoryIsSet | src/lib.rs:1076-1121 | after a successful parse, every mandatory option reads as set through its handle |
| Query.ReadBackAsOwnKind | src/lib.rs:929-936 | a set option read as a target of its own tag succeeds exactly when its first value parses as that target |
| Query.MismatchedTagRefused | src/lib.rs:931-942 | a read whose target tag differs from the option's fails with "is not of the required type", even when the text parses |
| Query.NegativeTwelveReads | src/lib.rs:1507-1520 | "-12" parses as `i8` and as `f32`, but only `i8` carries the Integer tag |

## Left out

- Process I/O is not modelled: `parse_args`, `parse_args_os`, `process` and
  `process_os` (src/lib.rs:1039-1072). `parse` receives the argument list
  directly.
- Exiting on error is not modelled.
- `OsString` conversion is not modelled.
- The help text is not modelled: `help_text`, `get_help_text`, `show_help`,
  `show_help_on`, `get_max_flags_len` and `get_max_arg_text_len`. It is
  formatting only, and writes to an output stream.
- `get_remaining_args` and `get_positional_args` are not modelled as
  members. They are reads of the `remainingArgs` and `positionalArgs` fields.
- Console output is not modelled: the debug `println!` in
  `parse_short_form_option` (src/lib.rs:1149) and the `eprintln!` in
  `get_values`. Neither changes any state.
- Error message text is not modelled: the `Display` implementations and a
  custom message table passed to `new`. An error carries its kind, which is
  the index into the table; `Errors.ErrorText` looks the text up through
  `MessageIndex`, and the default English table is `DefaultMessages`.
- Parser.CommandLineParser.constructor: does not take the optional custom
  message list, for the same reason.
- The flags text and type name are modelled, but not the
  "type flags: message" rendering.
- Fingerprint: models the input of the 64-bit `DefaultHasher`, not its
  output. Hash collisions between different flag sets are therefore not
  modelled, and an arbitrary number such as `1u64` is modelled as a handle
  that no option has.
- Query.GetValue: returns the first value's text, not the value converted
  to `T`. Parsing is modelled only as acceptance, with the grammar of
  Rust's documented `FromStr` for each target.
- Floating-point values, rounding and overflow to infinity are not
  modelled. For `f32`/`f64` the model only decides whether the text is
  accepted.
- `TypeId` targets other than `bool`, the fixed-width integer types `i8`
  to `u128`, `f32`, `f64`, `&str` and `String` are not modelled. These
  include `usize` and `isize`. The source maps them to Undefined
  (src/lib.rs:99-163), so they never match a defined option's tag: for
  example, `get_value::<usize>` on an Integer option always fails with "is
  not of the required type".
- Parser.CommandLineParser.Parse: requires a non-empty argument list. The
  source indexes `args[0]` and panics on an empty list.
- The integer and float grammars are ASCII-only. Case folding for "inf" and
  "nan" covers only ASCII letters, which is all Rust's grammar uses.
- Parser.CommandLineParser.AddShortOption: one method with a type
  parameter stands for the four `add_short_*_option` methods
  (src/lib.rs:550, 633, 719 and 805).
- Parser.CommandLineParser.AddLongOption: one method stands for the four
  `add_long_*_option` methods in the same way.
- Parser.CommandLineParser.AddOption: one method stands for the four
  two-flag `add_*_option` methods (src/lib.rs:604, 690, 776 and 862). Besides
  the type tag they differ in the argument text: the Boolean variants take none
  and store the empty text, which the model states as
  `requires typ == Boolean ==> argText == []`; the others take it from the
  caller.

An integer-looking text bound to a floating-point option is refused with the
integer mismatch, because `add_value` tries `i128` before `f64`
(src/lib.rs:323-331). The model keeps this behaviour; see
`OptionRecord.FPointRefusesIntegerText`.
