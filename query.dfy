/**
 * The read side of the parser: `is_set`, `get_value` and `get_values`, over
 * the registered options and their values.  A typed read is modelled by the
 * target it parses into; on success the model returns the text that parsed.
 */
module Query {
  import opened Wrappers
  import opened Literals
  import opened OptionType
  import opened Errors
  import opened OptionRecord
  import opened Registry
  import opened Scan

  /** `is_set`: the first option with handle `fp` has a value; an unknown handle is not set. */
  function IsSet(opts: seq<CommandLineOption>, vals: seq<seq<string>>, fp: Fingerprint): (r: bool)
    requires |vals| == |opts|
    ensures r <==> exists i :: (FindFingerprint(opts, fp, 0) == Some(i) && vals[i] != [])
  {
    match FindFingerprint(opts, fp, 0)
    case None => false
    case Some(i) =>
      assert FindFingerprint(opts, fp, 0) == Some(i);
      vals[i] != []
  }

  /** The error of a read whose handle matches no option. */
  const IdentifierNotFound: ParserError := ParserError([], Undefined, OptionIdentifierNotFound)

  /**
   * `get_value`: the first value of the first option with handle `fp`,
   * provided it parses as `t` and `t`'s tag is the option's tag.
   */
  function GetValue(opts: seq<CommandLineOption>, vals: seq<seq<string>>, fp: Fingerprint, t: Target)
    : (r: Result<string, ParserError>)
    requires |vals| == |opts|
    ensures r == Err(IdentifierNotFound) <==> FindFingerprint(opts, fp, 0).None?
    ensures FindFingerprint(opts, fp, 0).Some? && vals[FindFingerprint(opts, fp, 0).value] == [] ==>
      r == Err(OptionError(opts[FindFingerprint(opts, fp, 0).value], OptionIsNotSet))
    ensures r.Ok? ==> exists i :: (FindFingerprint(opts, fp, 0) == Some(i) && vals[i] != [] &&
      r.value == vals[i][0] && Parses(t, r.value) && TagOf(t) == opts[i].typ)
    ensures r.Err? && r.error.kind != OptionIdentifierNotFound ==>
      exists i :: (FindFingerprint(opts, fp, 0) == Some(i) &&
        r.error == OptionError(opts[i], if vals[i] == [] then OptionIsNotSet else OptionIsNotOfRequiredType))
  {
    match FindFingerprint(opts, fp, 0)
    case None => Err(IdentifierNotFound)
    case Some(i) =>
      assert FindFingerprint(opts, fp, 0) == Some(i);
      if vals[i] == [] then Err(OptionError(opts[i], OptionIsNotSet))
      else if Parses(t, vals[i][0]) && TagOf(t) == opts[i].typ then Ok(vals[i][0])
      else Err(OptionError(opts[i], OptionIsNotOfRequiredType))
  }

  /** The values of every option with handle `fp`, from position `k` on, in registration order. */
  ghost function Gathered(opts: seq<CommandLineOption>, vals: seq<seq<string>>, fp: Fingerprint, k: nat)
    : seq<string>
    requires |vals| == |opts| && k <= |opts|
    decreases |opts| - k
  {
    if k == |opts| then []
    else (if opts[k].Fingerprint() == fp then vals[k] else []) + Gathered(opts, vals, fp, k + 1)
  }

  /** The values of one option parsed as `t`, or nothing when one of them does not parse. */
  function ParseAll(t: Target, values: seq<string>): (r: Option<seq<string>>)
    ensures r.Some? <==> forall m :: 0 <= m < |values| ==> Parses(t, values[m])
    ensures r.Some? ==> r.value == values
  {
    if values == [] then Some([])
    else if !Parses(t, values[0]) then None
    else match ParseAll(t, values[1..])
      case None => None
      case Some(rest) => Some([values[0]] + rest)
  }

  /**
   * The loop of `get_values` from option `k`: the values of every option
   * with handle `fp` are parsed in turn, and the first that fails ends the
   * read with nothing.
   */
  function Collect(opts: seq<CommandLineOption>, vals: seq<seq<string>>, fp: Fingerprint, t: Target, k: nat)
    : (r: Option<seq<string>>)
    requires |vals| == |opts| && k <= |opts|
    decreases |opts| - k
    ensures r.Some? <==> forall x :: x in Gathered(opts, vals, fp, k) ==> Parses(t, x)
    ensures r.Some? ==> r.value == Gathered(opts, vals, fp, k)
  {
    if k == |opts| then Some([])
    else
      var mine := if opts[k].Fingerprint() == fp then ParseAll(t, vals[k]) else Some([]);
      match mine
      case None =>
        assert !Parses(t, vals[k][FirstFailure(t, vals[k])]);
        None
      case Some(head) =>
        match Collect(opts, vals, fp, t, k + 1)
        case None => None
        case Some(rest) => Some(head + rest)
  }

  /** The position of a value that does not parse, for a list `ParseAll` refuses. */
  function FirstFailure(t: Target, values: seq<string>): (m: nat)
    requires ParseAll(t, values).None?
    ensures m < |values| && !Parses(t, values[m])
  {
    if !Parses(t, values[0]) then 0 else 1 + FirstFailure(t, values[1..])
  }

  /**
   * `get_values`: all values of all options with handle `fp`, in order, or
   * nothing when one of them does not parse as `t` or there are none.  Unlike
   * `get_value`, the tag of `t` is not compared with the option's tag.
   */
  function GetValues(opts: seq<CommandLineOption>, vals: seq<seq<string>>, fp: Fingerprint, t: Target)
    : (r: Option<seq<string>>)
    requires |vals| == |opts|
    ensures r.Some? <==> (Gathered(opts, vals, fp, 0) != [] &&
      forall x :: x in Gathered(opts, vals, fp, 0) ==> Parses(t, x))
    ensures r.Some? ==> r.value == Gathered(opts, vals, fp, 0)
  {
    match Collect(opts, vals, fp, t, 0)
    case None => None
    case Some(values) => if values == [] then None else Some(values)
  }

  /** In a well-formed registry the options gathered for a registered handle are that option's values. */
  lemma {:induction false} GatheredRegistered(opts: seq<CommandLineOption>, vals: seq<seq<string>>, i: nat, k: nat)
    requires WellFormed(opts) && |vals| == |opts| && i < |opts| && k <= |opts|
    ensures Gathered(opts, vals, opts[i].Fingerprint(), k) == if k <= i then vals[i] else []
    decreases |opts| - k
  {
    if k < |opts| {
      GatheredRegistered(opts, vals, i, k + 1);
      if k != i {
        if k < i {
          FingerprintsDistinct(opts, k, i);
        } else {
          FingerprintsDistinct(opts, i, k);
        }
      }
    }
  }

  /** The handle of a registered option reads that option's state. */
  lemma IsSetRegistered(opts: seq<CommandLineOption>, vals: seq<seq<string>>, i: nat)
    requires WellFormed(opts) && |vals| == |opts| && i < |opts|
    ensures IsSet(opts, vals, opts[i].Fingerprint()) <==> vals[i] != []
  {
    FingerprintFound(opts, i);
  }

  /** `get_values` on a registered handle returns exactly that option's values, when all parse. */
  lemma GetValuesRegistered(opts: seq<CommandLineOption>, vals: seq<seq<string>>, i: nat, t: Target)
    requires WellFormed(opts) && |vals| == |opts| && i < |opts|
    ensures GetValues(opts, vals, opts[i].Fingerprint(), t) ==
      if vals[i] != [] && forall x :: x in vals[i] ==> Parses(t, x) then Some(vals[i]) else None
  {
    GatheredRegistered(opts, vals, i, 0);
  }

  /** A registered option that has no value reads as "is not set", whatever the target. */
  lemma UnsetOptionNotRead(opts: seq<CommandLineOption>, vals: seq<seq<string>>, i: nat, t: Target)
    requires WellFormed(opts) && |vals| == |opts| && i < |opts| && vals[i] == []
    ensures GetValue(opts, vals, opts[i].Fingerprint(), t) == Err(OptionError(opts[i], OptionIsNotSet))
    ensures !IsSet(opts, vals, opts[i].Fingerprint())
  {
    FingerprintFound(opts, i);
  }

  /** A value read with `get_value` belongs to an option that `is_set` reports as set. */
  lemma GetValueImpliesSet(opts: seq<CommandLineOption>, vals: seq<seq<string>>, fp: Fingerprint, t: Target)
    requires |vals| == |opts| && GetValue(opts, vals, fp, t).Ok?
    ensures IsSet(opts, vals, fp)
  {
  }

  /**
   * After a successful `parse`, every mandatory option reads as set through
   * the handle it was registered with.
   */
  lemma ParsedMandatoryIsSet(opts: seq<CommandLineOption>, mode: ParsingMode, argv: seq<string>,
                             vals: seq<seq<string>>, remaining: seq<string>, positional: seq<string>, i: nat)
    requires WellFormed(opts) && |argv| > 0 && |vals| == |opts| && i < |opts| && opts[i].mandatory
    requires ParseSpec(opts, mode, argv, vals, remaining, positional).outcome.Pass?
    ensures IsSet(opts, ParseSpec(opts, mode, argv, vals, remaining, positional).vals, opts[i].Fingerprint())
  {
    IsSetRegistered(opts, ParseSpec(opts, mode, argv, vals, remaining, positional).vals, i);
  }

  /**
   * A set option read through its handle as a target of its own kind yields
   * its first value exactly when that text parses as the target: an Integer
   * option may hold "abc", which binds but does not read as an integer, and
   * "300" reads as an `i16` but not as an `i8`.
   */
  lemma ReadBackAsOwnKind(opts: seq<CommandLineOption>, vals: seq<seq<string>>, i: nat, t: Target)
    requires WellFormed(opts) && |vals| == |opts| && i < |opts| && vals[i] != []
    requires opts[i].typ == TagOf(t)
    ensures GetValue(opts, vals, opts[i].Fingerprint(), t).Ok? <==> Parses(t, vals[i][0])
  {
    FingerprintFound(opts, i);
  }

  /** A typed read whose tag differs from the option's tag fails even when the text parses. */
  lemma MismatchedTagRefused(opts: seq<CommandLineOption>, vals: seq<seq<string>>, i: nat, t: Target)
    requires WellFormed(opts) && |vals| == |opts| && i < |opts| && vals[i] != []
    requires TagOf(t) != opts[i].typ
    ensures GetValue(opts, vals, opts[i].Fingerprint(), t) == Err(OptionError(opts[i], OptionIsNotOfRequiredType))
  {
    FingerprintFound(opts, i);
  }

  /**
   * "-12" bound to an Integer option reads as an `i8`, while a read as `f32`
   * is refused only because of the tag: the text itself parses as `f32`.
   */
  lemma NegativeTwelveReads()
    ensures Parses(IntTarget(true, W8), "-12") && Parses(F32Target, "-12")
    ensures TagOf(IntTarget(true, W8)) == Integer && TagOf(F32Target) != Integer
  {
    assert "-12"[1..] == "12";
    assert "12"[..1] == "1";
    assert DigitsValue("12") == 12;
    assert IntegerValue("-12", true) == Some(-12);
    IntegerTextIsFloatText("-12");
  }
}
