/** The ordered option registry and the read-only scans over it. */
module Registry {
  import opened Wrappers
  import opened Literals
  import opened OptionType
  import opened Errors
  import opened OptionRecord

  /**
   * The registry invariant kept by registration: no two options share a short
   * flag, no two share a long flag (an absent flag, ' ' or "", included), and
   * every option has a defined type.
   */
  ghost predicate WellFormed(opts: seq<CommandLineOption>) {
    (forall i, j :: 0 <= i < j < |opts| ==>
       opts[i].shortForm != opts[j].shortForm && opts[i].longForm != opts[j].longForm) &&
    (forall i :: 0 <= i < |opts| ==> opts[i].typ != Undefined)
  }

  /**
   * Whether an option answers to a flag text: "--name" is matched against a
   * present long flag, anything else by its second character against a
   * present short flag.
   */
  predicate MatchesFlag(o: CommandLineOption, flag: string)
  {
    if StartsWith(flag, "--") then o.longForm != [] && o.longForm == flag[2..]
    else o.shortForm != EmptyShortForm && |flag| >= 2 && o.shortForm == flag[1]
  }

  /** `get_option_mut`: the first option, from position `k` on, answering to `flag`. */
  function FindOption(opts: seq<CommandLineOption>, flag: string, k: nat): (r: Option<nat>)
    requires k <= |opts|
    decreases |opts| - k
    ensures r.Some? ==> k <= r.value < |opts| && MatchesFlag(opts[r.value], flag)
    ensures r.Some? ==> forall j :: k <= j < r.value ==> !MatchesFlag(opts[j], flag)
    ensures r.None? ==> forall j :: k <= j < |opts| ==> !MatchesFlag(opts[j], flag)
  {
    if k == |opts| then None
    else if MatchesFlag(opts[k], flag) then Some(k)
    else FindOption(opts, flag, k + 1)
  }

  /** A registered long flag is found again by "--" followed by it. */
  lemma LongFlagFound(opts: seq<CommandLineOption>, i: nat)
    requires WellFormed(opts) && i < |opts| && opts[i].longForm != []
    ensures FindOption(opts, "--" + opts[i].longForm, 0) == Some(i)
  {
    var flag := "--" + opts[i].longForm;
    assert StartsWith(flag, "--") && flag[2..] == opts[i].longForm;
    assert MatchesFlag(opts[i], flag);
  }

  /** A registered short flag other than '-' is found again by "-" followed by it. */
  lemma ShortFlagFound(opts: seq<CommandLineOption>, i: nat)
    requires WellFormed(opts) && i < |opts|
    requires opts[i].shortForm != EmptyShortForm && opts[i].shortForm != '-'
    ensures FindOption(opts, ['-', opts[i].shortForm], 0) == Some(i)
  {
    assert MatchesFlag(opts[i], ['-', opts[i].shortForm]);
  }

  /**
   * The kind of clash between an existing option and a new one, checked in
   * this order: the same option (`eq`), then the same short flag, then the
   * same long flag.
   */
  function ClashKind(o: CommandLineOption, shortForm: char, longForm: string, typ: OptType): (r: Option<ErrorKind>)
    ensures r.None? <==> o.shortForm != shortForm && o.longForm != longForm
    ensures r == Some(OptionAlreadyExists) <==> o.typ == typ && o.shortForm == shortForm && o.longForm == longForm
    ensures r == Some(ShortOptionAlreadyExists) <==>
      o.shortForm == shortForm && !(o.typ == typ && o.longForm == longForm)
    ensures r == Some(LongOptionAlreadyExists) <==> o.shortForm != shortForm && o.longForm == longForm
  {
    if o.typ == typ && o.shortForm == shortForm && o.longForm == longForm then Some(OptionAlreadyExists)
    else if o.shortForm == shortForm then Some(ShortOptionAlreadyExists)
    else if o.longForm == longForm then Some(LongOptionAlreadyExists)
    else None
  }

  /** An existing option shares the short flag or the long flag of a new one. */
  predicate Clashes(o: CommandLineOption, shortForm: char, longForm: string) {
    o.shortForm == shortForm || o.longForm == longForm
  }

  /** The first existing option, from position `k` on, that clashes with the new one. */
  function FirstClash(opts: seq<CommandLineOption>, shortForm: char, longForm: string, k: nat): (r: Option<nat>)
    requires k <= |opts|
    decreases |opts| - k
    ensures r.Some? ==> k <= r.value < |opts| && Clashes(opts[r.value], shortForm, longForm)
    ensures r.Some? ==> forall j :: k <= j < r.value ==> !Clashes(opts[j], shortForm, longForm)
    ensures r.None? ==> forall j :: k <= j < |opts| ==> !Clashes(opts[j], shortForm, longForm)
  {
    if k == |opts| then None
    else if Clashes(opts[k], shortForm, longForm) then Some(k)
    else FirstClash(opts, shortForm, longForm, k + 1)
  }

  /**
   * `check_option_already_exists`: the existing options are scanned in
   * registration order, and the first clash is reported against the existing
   * option, with the kind `ClashKind` gives.
   */
  function CheckExists(opts: seq<CommandLineOption>, shortForm: char, longForm: string, typ: OptType)
    : (r: Outcome<ParserError>)
    ensures r.Pass? <==> forall j :: 0 <= j < |opts| ==> !Clashes(opts[j], shortForm, longForm)
    ensures r.Fail? ==> (FirstClash(opts, shortForm, longForm, 0).Some? &&
      var j := FirstClash(opts, shortForm, longForm, 0).value;
      r.error == OptionError(opts[j], ClashKind(opts[j], shortForm, longForm, typ).value))
  {
    match FirstClash(opts, shortForm, longForm, 0)
    case None => Pass
    case Some(j) => Fail(OptionError(opts[j], ClashKind(opts[j], shortForm, longForm, typ).value))
  }

  /**
   * The duplicate checks against an existing -h/--help option: the same
   * option, the same short flag with another long flag, and the same long
   * flag with another short flag each get their own kind, and every error
   * names the existing option as "-h/--help".
   */
  lemma HelpDuplicates(help: CommandLineOption)
    requires help.shortForm == 'h' && help.longForm == "help" && help.typ == Boolean
    ensures OptionError(help, OptionAlreadyExists).flags == "-h/--help"
    ensures CheckExists([help], 'h', "help", Boolean) == Fail(OptionError(help, OptionAlreadyExists))
    ensures CheckExists([help], 'h', "help-all", Boolean) == Fail(OptionError(help, ShortOptionAlreadyExists))
    ensures CheckExists([help], 'H', "help", Boolean) == Fail(OptionError(help, LongOptionAlreadyExists))
    ensures CheckExists([help], EmptyShortForm, "help", Boolean) == Fail(OptionError(help, LongOptionAlreadyExists))
  {
    assert "help-all" != "help" by { assert |"help-all"| != |"help"|; }
  }

  /** A short-only option clashing with an existing -v/--version reports the short flag. */
  lemma VersionShortDuplicate(version: CommandLineOption)
    requires version.shortForm == 'v' && version.longForm == "version" && version.typ == Boolean
    ensures OptionError(version, ShortOptionAlreadyExists).flags == "-v/--version"
    ensures CheckExists([version], 'v', [], Boolean) == Fail(OptionError(version, ShortOptionAlreadyExists))
  {
  }

  /** Appending an option that passed the duplicate check keeps the registry invariant. */
  lemma RegisterKeepsWellFormed(opts: seq<CommandLineOption>, o: CommandLineOption)
    requires WellFormed(opts) && o.typ != Undefined
    requires CheckExists(opts, o.shortForm, o.longForm, o.typ).Pass?
    ensures WellFormed(opts + [o])
  {
  }

  /**
   * Once an option without a long flag is registered, no other option
   * without a long flag can be: both have the long flag "".
   */
  lemma ShortOnlyOptionsClash(opts: seq<CommandLineOption>, j: nat, shortForm: char, typ: OptType)
    requires j < |opts| && opts[j].longForm == []
    ensures CheckExists(opts, shortForm, [], typ).Fail?
  {
  }

  /** Likewise two options without a short flag clash on the short flag ' '. */
  lemma LongOnlyOptionsClash(opts: seq<CommandLineOption>, j: nat, longForm: string, typ: OptType)
    requires j < |opts| && opts[j].shortForm == EmptyShortForm
    ensures CheckExists(opts, EmptyShortForm, longForm, typ).Fail?
  {
  }

  /** In a well-formed registry every option has its own handle. */
  lemma FingerprintsDistinct(opts: seq<CommandLineOption>, i: nat, j: nat)
    requires WellFormed(opts) && i < j < |opts|
    ensures opts[i].Fingerprint() != opts[j].Fingerprint()
  {
  }

  /** The first option, from position `k` on, whose handle is `fp`. */
  function FindFingerprint(opts: seq<CommandLineOption>, fp: Fingerprint, k: nat): (r: Option<nat>)
    requires k <= |opts|
    decreases |opts| - k
    ensures r.Some? ==> k <= r.value < |opts| && opts[r.value].Fingerprint() == fp
    ensures r.Some? ==> forall j :: k <= j < r.value ==> opts[j].Fingerprint() != fp
    ensures r.None? ==> forall j :: k <= j < |opts| ==> opts[j].Fingerprint() != fp
  {
    if k == |opts| then None
    else if opts[k].Fingerprint() == fp then Some(k)
    else FindFingerprint(opts, fp, k + 1)
  }

  /** The handle returned when option `i` was registered finds option `i`. */
  lemma FingerprintFound(opts: seq<CommandLineOption>, i: nat)
    requires WellFormed(opts) && i < |opts|
    ensures FindFingerprint(opts, opts[i].Fingerprint(), 0) == Some(i)
  {
    var r := FindFingerprint(opts, opts[i].Fingerprint(), 0);
    if r.Some? && r.value < i {
      FingerprintsDistinct(opts, r.value, i);
    }
  }

  /** The first mandatory option, from position `k` on, that has no value. */
  function FirstUnset(opts: seq<CommandLineOption>, vals: seq<seq<string>>, k: nat): (r: Option<nat>)
    requires |vals| == |opts| && k <= |opts|
    decreases |opts| - k
    ensures r.Some? ==> k <= r.value < |opts| && opts[r.value].mandatory && vals[r.value] == []
    ensures r.Some? ==> forall j :: k <= j < r.value ==> opts[j].mandatory ==> vals[j] != []
    ensures r.None? ==> forall j :: k <= j < |opts| ==> opts[j].mandatory ==> vals[j] != []
  {
    if k == |opts| then None
    else if opts[k].mandatory && vals[k] == [] then Some(k)
    else FirstUnset(opts, vals, k + 1)
  }

  /** `check_mandatory_options`: the first mandatory option that has no value is reported. */
  function CheckMandatory(opts: seq<CommandLineOption>, vals: seq<seq<string>>): (r: Outcome<ParserError>)
    requires |vals| == |opts|
    ensures r.Pass? <==> forall j :: 0 <= j < |opts| ==> opts[j].mandatory ==> vals[j] != []
    ensures r.Fail? ==> (FirstUnset(opts, vals, 0).Some? &&
      r.error == OptionError(opts[FirstUnset(opts, vals, 0).value], MandatoryOptionHasNotSet))
  {
    match FirstUnset(opts, vals, 0)
    case None => Pass
    case Some(j) => Fail(OptionError(opts[j], MandatoryOptionHasNotSet))
  }
}
