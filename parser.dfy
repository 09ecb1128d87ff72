/**
 * `CommandLineParser`: the option registry, the side lists and the parsing
 * mode, with registration and the argument scan as methods that update them
 * in place.  Each scan method is proved equal to its function in `Scan`.
 */
module Parser {
  import opened Wrappers
  import opened Literals
  import opened OptionType
  import opened Errors
  import opened OptionRecord
  import opened Registry
  import opened Scan

  class CommandLineParser {
    var programName: string
    var options: seq<CommandLineOption>
    var remainingArgs: seq<string>
    var positionalArgs: seq<string>
    var parsingMode: ParsingMode

    /** The registry invariant; it also makes the option objects pairwise distinct. */
    ghost predicate Valid()
      reads this
    {
      WellFormed(options)
    }

    /** The values of every option, in registration order. */
    function Values(): (vs: seq<seq<string>>)
      reads this`options, options
      ensures |vs| == |options| && forall i :: 0 <= i < |options| ==> vs[i] == options[i].values
    {
      var os := options;
      seq(|os|, i requires 0 <= i < |os| reads os => os[i].values)
    }

    constructor ()
      ensures Valid()
      ensures programName == [] && options == [] && remainingArgs == [] && positionalArgs == []
      ensures parsingMode == DefaultParsingMode
    {
      programName := [];
      options := [];
      remainingArgs := [];
      positionalArgs := [];
      parsingMode := DefaultParsingMode;
    }

    method SetParsingMode(mode: ParsingMode)
      modifies this
      ensures parsingMode == mode
      ensures programName == old(programName) && options == old(options)
      ensures remainingArgs == old(remainingArgs) && positionalArgs == old(positionalArgs)
    {
      parsingMode := mode;
    }

    /**
     * Registration shared by every `add_*_option`: the duplicate check, then
     * the new option is appended and its handle returned. The Boolean
     * variants take no argument text and store the empty text.
     */
    method AddOption(shortForm: char, longForm: string, typ: OptType, mandatory: bool,
                     argText: string, helpText: string) returns (r: Result<Fingerprint, ParserError>)
      requires Valid() && typ != Undefined
      requires typ == Boolean ==> argText == []
      modifies this
      ensures Valid()
      ensures programName == old(programName) && parsingMode == old(parsingMode)
      ensures remainingArgs == old(remainingArgs) && positionalArgs == old(positionalArgs)
      ensures CheckExists(old(options), shortForm, longForm, typ).Fail? ==>
        r == Err(CheckExists(old(options), shortForm, longForm, typ).error) && options == old(options)
      ensures CheckExists(old(options), shortForm, longForm, typ).Pass? ==>
        r == Ok(FingerprintOf(shortForm, longForm)) &&
        |options| == |old(options)| + 1 && options[..|old(options)|] == old(options) &&
        fresh(options[|old(options)|]) &&
        options[|old(options)|].shortForm == shortForm && options[|old(options)|].longForm == longForm &&
        options[|old(options)|].typ == typ && options[|old(options)|].mandatory == mandatory
      ensures Values() == old(Values()) + if r.Ok? then [[]] else []
    {
      var check := CheckExists(options, shortForm, longForm, typ);
      if check.Fail? {
        return Err(check.error);
      }
      var option := new CommandLineOption(shortForm, longForm, typ, mandatory, argText, helpText);
      Register(option);
      r := Ok(option.Fingerprint());
    }

    /** Append an option that passed the duplicate check. */
    method Register(option: CommandLineOption)
      requires Valid() && option.typ != Undefined && option.values == [] && option !in options
      requires CheckExists(options, option.shortForm, option.longForm, option.typ).Pass?
      modifies this
      ensures Valid() && options == old(options) + [option]
      ensures programName == old(programName) && parsingMode == old(parsingMode)
      ensures remainingArgs == old(remainingArgs) && positionalArgs == old(positionalArgs)
      ensures Values() == old(Values()) + [[]]
    {
      ghost var before := Values();
      RegisterKeepsWellFormed(options, option);
      options := options + [option];
      assert Values() == before + [[]];
    }

    /** The `add_short_*_option` family: no long flag. */
    method AddShortOption(shortForm: char, typ: OptType, mandatory: bool, argText: string, helpText: string)
      returns (r: Result<Fingerprint, ParserError>)
      requires Valid() && typ != Undefined
      requires typ == Boolean ==> argText == []
      modifies this
      ensures Valid()
      ensures programName == old(programName) && parsingMode == old(parsingMode)
      ensures remainingArgs == old(remainingArgs) && positionalArgs == old(positionalArgs)
      ensures CheckExists(old(options), shortForm, [], typ).Fail? ==>
        r == Err(CheckExists(old(options), shortForm, [], typ).error) && options == old(options)
      ensures CheckExists(old(options), shortForm, [], typ).Pass? ==>
        r == Ok(FingerprintOf(shortForm, [])) &&
        |options| == |old(options)| + 1 && options[..|old(options)|] == old(options) &&
        fresh(options[|old(options)|]) &&
        options[|old(options)|].shortForm == shortForm && options[|old(options)|].longForm == [] &&
        options[|old(options)|].typ == typ && options[|old(options)|].mandatory == mandatory
      ensures Values() == old(Values()) + if r.Ok? then [[]] else []
    {
      r := AddOption(shortForm, [], typ, mandatory, argText, helpText);
    }

    /** The `add_long_*_option` family: no short flag. */
    method AddLongOption(longForm: string, typ: OptType, mandatory: bool, argText: string, helpText: string)
      returns (r: Result<Fingerprint, ParserError>)
      requires Valid() && typ != Undefined
      requires typ == Boolean ==> argText == []
      modifies this
      ensures Valid()
      ensures programName == old(programName) && parsingMode == old(parsingMode)
      ensures remainingArgs == old(remainingArgs) && positionalArgs == old(positionalArgs)
      ensures CheckExists(old(options), EmptyShortForm, longForm, typ).Fail? ==>
        r == Err(CheckExists(old(options), EmptyShortForm, longForm, typ).error) && options == old(options)
      ensures CheckExists(old(options), EmptyShortForm, longForm, typ).Pass? ==>
        r == Ok(FingerprintOf(EmptyShortForm, longForm)) &&
        |options| == |old(options)| + 1 && options[..|old(options)|] == old(options) &&
        fresh(options[|old(options)|]) &&
        options[|old(options)|].shortForm == EmptyShortForm && options[|old(options)|].longForm == longForm &&
        options[|old(options)|].typ == typ && options[|old(options)|].mandatory == mandatory
      ensures Values() == old(Values()) + if r.Ok? then [[]] else []
    {
      r := AddOption(EmptyShortForm, longForm, typ, mandatory, argText, helpText);
    }

    /** The conventional optional Boolean `-h/--help`. */
    method AddHelpOption(helpText: string) returns (r: Result<Fingerprint, ParserError>)
      requires Valid()
      modifies this
      ensures Valid()
      ensures programName == old(programName) && parsingMode == old(parsingMode)
      ensures remainingArgs == old(remainingArgs) && positionalArgs == old(positionalArgs)
      ensures CheckExists(old(options), 'h', "help", Boolean).Fail? ==>
        r == Err(CheckExists(old(options), 'h', "help", Boolean).error) && options == old(options)
      ensures CheckExists(old(options), 'h', "help", Boolean).Pass? ==>
        r == Ok(FingerprintOf('h', "help")) &&
        |options| == |old(options)| + 1 && options[..|old(options)|] == old(options) &&
        fresh(options[|old(options)|]) &&
        options[|old(options)|].shortForm == 'h' && options[|old(options)|].longForm == "help" &&
        options[|old(options)|].typ == Boolean && options[|old(options)|].mandatory == false
      ensures Values() == old(Values()) + if r.Ok? then [[]] else []
    {
      r := AddOption('h', "help", Boolean, false, [], helpText);
    }

    /** The conventional optional Boolean `-v/--version`. */
    method AddVersionOption(helpText: string) returns (r: Result<Fingerprint, ParserError>)
      requires Valid()
      modifies this
      ensures Valid()
      ensures programName == old(programName) && parsingMode == old(parsingMode)
      ensures remainingArgs == old(remainingArgs) && positionalArgs == old(positionalArgs)
      ensures CheckExists(old(options), 'v', "version", Boolean).Fail? ==>
        r == Err(CheckExists(old(options), 'v', "version", Boolean).error) && options == old(options)
      ensures CheckExists(old(options), 'v', "version", Boolean).Pass? ==>
        r == Ok(FingerprintOf('v', "version")) &&
        |options| == |old(options)| + 1 && options[..|old(options)|] == old(options) &&
        fresh(options[|old(options)|]) &&
        options[|old(options)|].shortForm == 'v' && options[|old(options)|].longForm == "version" &&
        options[|old(options)|].typ == Boolean && options[|old(options)|].mandatory == false
      ensures Values() == old(Values()) + if r.Ok? then [[]] else []
    {
      r := AddOption('v', "version", Boolean, false, [], helpText);
    }

    /** `add_value` on option `i`: only that option's values may change. */
    method BindValue(i: nat, text: string) returns (r: Outcome<ErrorKind>)
      requires Valid() && i < |options|
      modifies options[i]
      ensures r == AddValueCheck(options[i].typ, text)
      ensures Values() == if r.Pass? then old(Values())[i := old(Values())[i] + [text]] else old(Values())
    {
      ghost var before := Values();
      r := options[i].AddValue(text);
      forall j | 0 <= j < |options| && j != i
        ensures options[j].values == before[j]
      {
        assert options[j].shortForm != options[i].shortForm;
      }
    }

    /** `parse_long_form_option` for the token at `idx`; `newIdx` is where the index ends up. */
    method ParseLongFormOption(args: seq<string>, idx: nat, dashdash: bool)
      returns (newIdx: nat, newDashdash: bool, r: Outcome<ParserError>)
      requires Valid() && idx < |args| && StartsWith(args[idx], "--")
      modifies options
      ensures newDashdash == (dashdash || Latches(parsingMode, args[idx]))
      ensures var s := LongStep(options, args, idx, old(Values()));
        Values() == s.vals && newIdx == s.idx && r == s.outcome
    {
      newIdx, newDashdash := idx, dashdash;
      var arg := args[idx];
      if |arg| == 2 {
        if parsingMode == PositionalArgumentsMode {
          newDashdash := true;
        }
        return newIdx, newDashdash, Pass;
      }
      var (key, inline) := SplitAssign(arg);
      var found := FindOption(options, key, 0);
      if found.None? {
        return newIdx, newDashdash, Fail(ParserError(arg, Undefined, OptionNotFound));
      }
      var option := options[found.value];
      var optArg: string;
      if inline.None? {
        if option.typ == Boolean {
          optArg := "true";
        } else {
          newIdx := newIdx + 1;
          if newIdx < |args| {
            optArg := args[newIdx];
          } else {
            return newIdx, newDashdash, Fail(OptionError(option, MissingOptionArgument));
          }
        }
      } else {
        optArg := inline.value;
      }
      if optArg == [] {
        return newIdx, newDashdash, Fail(OptionError(option, MissingOptionArgument));
      }
      var added := BindValue(found.value, optArg);
      if added.Fail? {
        return newIdx, newDashdash, Fail(OptionError(option, added.error));
      }
      r := Pass;
    }

    /**
     * One pass of the loop of `parse_short_form_option`, for cluster
     * character `k`: `idx`, `optArg` and `claimed` are the loop's variables.
     */
    method ParseClusterChar(args: seq<string>, cluster: string, k: nat, idx: nat, optArg: string, claimed: bool)
      returns (newIdx: nat, newOptArg: string, newClaimed: bool, r: Outcome<ParserError>)
      requires Valid() && k < |cluster| && idx < |args|
      modifies options
      ensures newIdx < |args|
      ensures r.Pass? ==> (ShortLoop(options, args, cluster, k + 1, Values(), newIdx, newOptArg, newClaimed)
        == ShortLoop(options, args, cluster, k, old(Values()), idx, optArg, claimed))
      ensures r.Fail? ==> (Step(Values(), newIdx, r)
        == ShortLoop(options, args, cluster, k, old(Values()), idx, optArg, claimed))
    {
      var found := FindOption(options, ['-', cluster[k]], 0);
      if found.None? {
        return idx, optArg, claimed, Pass;
      }
      if options[found.value].typ == Boolean {
        newIdx, newOptArg := idx, optArg;
        newClaimed, r := BindBooleanFlag(args, cluster, k, found.value, idx, optArg, claimed);
      } else {
        newIdx, newOptArg, newClaimed, r := BindValuedFlag(args, cluster, k, found.value, idx, optArg, claimed);
      }
    }

    /** A Boolean flag of a cluster: "true", or the cluster's argument if no flag has claimed it. */
    method BindBooleanFlag(args: seq<string>, cluster: string, k: nat, i: nat, idx: nat, optArg: string,
                           claimed: bool) returns (newClaimed: bool, r: Outcome<ParserError>)
      requires Valid() && k < |cluster| && idx < |args|
      requires FindOption(options, ['-', cluster[k]], 0) == Some(i) && options[i].typ == Boolean
      modifies options
      ensures r.Pass? ==> (ShortLoop(options, args, cluster, k + 1, Values(), idx, optArg, newClaimed)
        == ShortLoop(options, args, cluster, k, old(Values()), idx, optArg, claimed))
      ensures r.Fail? ==> (Step(Values(), idx, r)
        == ShortLoop(options, args, cluster, k, old(Values()), idx, optArg, claimed))
    {
      newClaimed := claimed;
      var value := "true";
      if optArg != [] {
        if !claimed {
          value := optArg;
          newClaimed := true;
        } else {
          return newClaimed, Fail(OptionError(options[i], OptionArgumentAlreadyAssigned));
        }
      }
      var added := BindValue(i, value);
      if added.Fail? {
        return newClaimed, Fail(OptionError(options[i], added.error));
      }
      r := Pass;
    }

    /**
     * A flag of a cluster that takes a value: the cluster's argument, or else
     * the next token, provided no flag has claimed it yet.
     */
    method BindValuedFlag(args: seq<string>, cluster: string, k: nat, i: nat, idx: nat, optArg: string,
                          claimed: bool) returns (newIdx: nat, newOptArg: string, newClaimed: bool,
                                                  r: Outcome<ParserError>)
      requires Valid() && k < |cluster| && idx < |args|
      requires FindOption(options, ['-', cluster[k]], 0) == Some(i) && options[i].typ != Boolean
      modifies options
      ensures newIdx < |args|
      ensures r.Pass? ==> (ShortLoop(options, args, cluster, k + 1, Values(), newIdx, newOptArg, newClaimed)
        == ShortLoop(options, args, cluster, k, old(Values()), idx, optArg, claimed))
      ensures r.Fail? ==> (Step(Values(), newIdx, r)
        == ShortLoop(options, args, cluster, k, old(Values()), idx, optArg, claimed))
    {
      newIdx, newOptArg, newClaimed := idx, optArg, claimed;
      if newOptArg == [] {
        if newIdx < |args| - 1 {
          newIdx := newIdx + 1;
          newOptArg := args[newIdx];
        }
      }
      if newOptArg == [] {
        return newIdx, newOptArg, newClaimed, Fail(OptionError(options[i], MissingOptionArgument));
      }
      if !newClaimed {
        var added := BindValue(i, newOptArg);
        if added.Fail? {
          return newIdx, newOptArg, newClaimed, Fail(OptionError(options[i], added.error));
        }
        newClaimed := true;
      } else {
        return newIdx, newOptArg, newClaimed, Fail(OptionError(options[i], OptionArgumentAlreadyAssigned));
      }
      r := Pass;
    }

    /** `parse_short_form_option` for the token at `idx`; `newIdx` is where the index ends up. */
    method ParseShortFormOption(args: seq<string>, idx: nat) returns (newIdx: nat, r: Outcome<ParserError>)
      requires Valid() && idx < |args| && StartsWith(args[idx], "-")
      modifies options
      ensures var s := ShortStep(options, args, idx, old(Values()));
        Values() == s.vals && newIdx == s.idx && r == s.outcome
    {
      var (cluster, inlineArg) := Cluster(args[idx]);
      var optArg := inlineArg;
      var claimed := false;
      newIdx := idx;
      var k := 0;
      while k < |cluster|
        invariant k <= |cluster| && newIdx < |args|
        invariant ShortLoop(options, args, cluster, k, Values(), newIdx, optArg, claimed)
          == ShortStep(options, args, idx, old(Values()))
      {
        newIdx, optArg, claimed, r := ParseClusterChar(args, cluster, k, newIdx, optArg, claimed);
        if r.Fail? {
          return;
        }
        k := k + 1;
      }
      r := Pass;
    }

    /**
     * The dispatch inside `parse` for a token starting with '-' before the
     * latch: long or short form, then the latch for "--".
     */
    method ParseOptionToken(args: seq<string>, idx: nat)
      returns (newIdx: nat, newDashdash: bool, r: Outcome<ParserError>)
      requires Valid() && idx < |args| && StartsWith(args[idx], "-")
      modifies options
      ensures r.Pass? ==> idx < newIdx <= |args|
      ensures var before := ScanLoop(options, parsingMode, args, idx, false, old(Values()),
                                     remainingArgs, positionalArgs);
        if r.Fail? then before == Session(Values(), remainingArgs, positionalArgs, r)
        else before == ScanLoop(options, parsingMode, args, newIdx, newDashdash, Values(),
                                remainingArgs, positionalArgs)
    {
      ghost var s := OptionStep(options, args, idx, Values());
      ghost var latched := Latches(parsingMode, args[idx]);
      ScanOptionToken(options, parsingMode, args, idx, Values(), remainingArgs, positionalArgs);
      var next;
      if StartsWith(args[idx], "--") {
        next, newDashdash, r := ParseLongFormOption(args, idx, false);
      } else {
        assert args[idx] != "--";
        newDashdash := false;
        next, r := ParseShortFormOption(args, idx);
      }
      assert Values() == s.vals && next == s.idx && r == s.outcome && newDashdash == latched;
      newIdx := next + 1;
    }

    /**
     * `parse`: record the program name, walk the remaining arguments with an
     * index that option values can advance, then check mandatory options.
     * After the latch a token goes to the positional list, before it a "-"
     * token is an option and any other token goes to the remaining list.
     */
    method Parse(argv: seq<string>) returns (r: Outcome<ParserError>)
      requires Valid() && |argv| > 0
      modifies this, options
      ensures Valid() && options == old(options) && parsingMode == old(parsingMode)
      ensures programName == argv[0]
      ensures var s := ParseSpec(options, parsingMode, argv, old(Values()), old(remainingArgs), old(positionalArgs));
        Values() == s.vals && remainingArgs == s.remaining && positionalArgs == s.positional && r == s.outcome
    {
      ghost var total := ScanLoop(options, parsingMode, argv[1..], 0, false, Values(), remainingArgs, positionalArgs);
      programName := argv[0];
      var args := argv[1..];
      var dashdash := false;
      var idx: nat := 0;
      while idx < |args|
        invariant idx <= |args|
        invariant Valid() && options == old(options) && parsingMode == old(parsingMode) && programName == argv[0]
        invariant ScanLoop(options, parsingMode, args, idx, dashdash, Values(), remainingArgs, positionalArgs) == total
      {
        var arg := args[idx];
        if dashdash {
          ScanLatchedToken(options, parsingMode, args, idx, Values(), remainingArgs, positionalArgs);
          positionalArgs := positionalArgs + [arg];
          idx := idx + 1;
        } else if StartsWith(arg, "-") {
          idx, dashdash, r := ParseOptionToken(args, idx);
          if r.Fail? {
            return;
          }
        } else {
          ScanPlainToken(options, parsingMode, args, idx, Values(), remainingArgs, positionalArgs);
          remainingArgs := remainingArgs + [arg];
          idx := idx + 1;
        }
      }
      r := CheckMandatory(options, Values());
    }
  }
}
