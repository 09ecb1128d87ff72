/**
 * The scan engine as functions: what one long-form token, one short-form
 * cluster and the whole argument walk do to the option values, the argument
 * index and the side lists.  The imperative parser methods are proved equal
 * to these; the lemmas here state what the scan promises.
 */
module Scan {
  import opened Wrappers
  import opened Literals
  import opened OptionType
  import opened Errors
  import opened OptionRecord
  import opened Registry

  datatype ParsingMode = DefaultParsingMode | PositionalArgumentsMode

  /** After one option token: the option values, the argument index, and how it ended. */
  datatype Step = Step(vals: seq<seq<string>>, idx: nat, outcome: Outcome<ParserError>)

  /** After the walk: the option values, the side lists, and how it ended. */
  datatype Session = Session(vals: seq<seq<string>>, remaining: seq<string>, positional: seq<string>,
                             outcome: Outcome<ParserError>)

  /** Every option's values only grew at the end. */
  ghost predicate Appended(before: seq<seq<string>>, after: seq<seq<string>>) {
    |before| == |after| && forall i :: 0 <= i < |before| ==> before[i] <= after[i]
  }

  /** Split a token at its first '=' into the text before it and, if present, the text after it. */
  function SplitAssign(arg: string): (r: (string, Option<string>))
    ensures r.1.None? ==> r.0 == arg && '=' !in arg
    ensures r.1.Some? ==> arg == r.0 + "=" + r.1.value && '=' !in r.0
  {
    match IndexOf(arg, '=')
    case None => (arg, None)
    case Some(p) =>
      assert arg == arg[..p] + "=" + arg[p + 1..];
      (arg[..p], Some(arg[p + 1..]))
  }

  /** Joining a key without '=' to a value and splitting again gives both back. */
  lemma SplitAssignJoin(key: string, value: string)
    requires '=' !in key
    ensures SplitAssign(key + "=" + value) == (key, Some(value))
  {
    var arg := key + "=" + value;
    assert arg[|key|] == '=';
    assert arg[..|key|] == key && arg[|key| + 1..] == value;
  }

  /** `add_value` on option `i`, as seen from the scan. */
  function Bind(opts: seq<CommandLineOption>, vals: seq<seq<string>>, i: nat, text: string, idx: nat): (s: Step)
    requires i < |opts| && |vals| == |opts|
    ensures Appended(vals, s.vals) && s.idx == idx
    ensures s.outcome.Pass? <==> AddValueCheck(opts[i].typ, text).Pass?
    ensures s.outcome.Pass? ==> s.vals == vals[i := vals[i] + [text]]
    ensures s.outcome.Fail? ==>
      s.vals == vals && s.outcome.error == OptionError(opts[i], AddValueCheck(opts[i].typ, text).error)
  {
    match AddValueCheck(opts[i].typ, text)
    case Fail(kind) => Step(vals, idx, Fail(OptionError(opts[i], kind)))
    case Pass => Step(vals[i := vals[i] + [text]], idx, Pass)
  }

  /** `--` latches positional mode only under PositionalArgumentsMode: the long-form token with no name. */
  predicate Latches(mode: ParsingMode, arg: string)
  {
    mode == PositionalArgumentsMode && arg == "--"
  }

  /**
   * `parse_long_form_option` for the token at `idx`.  "--" alone does nothing
   * here (the latch is `Latches`); otherwise the key before the first '=' is
   * looked up, and the value is the inline text, "true" for a bare Boolean
   * flag, or the next token.
   */
  function LongStep(opts: seq<CommandLineOption>, args: seq<string>, idx: nat, vals: seq<seq<string>>): (s: Step)
    requires idx < |args| && |vals| == |opts| && StartsWith(args[idx], "--")
    ensures Appended(vals, s.vals)
    ensures s.outcome.Pass? ==> idx <= s.idx <= idx + 1 && s.idx < |args|
  {
    var arg := args[idx];
    if |arg| == 2 then Step(vals, idx, Pass)
    else
      var (key, inline) := SplitAssign(arg);
      match FindOption(opts, key, 0)
      case None => Step(vals, idx, Fail(ParserError(arg, Undefined, OptionNotFound)))
      case Some(i) =>
        if inline.None? && opts[i].typ != Boolean && idx + 1 >= |args| then
          Step(vals, idx + 1, Fail(OptionError(opts[i], MissingOptionArgument)))
        else
          var next := if inline.None? && opts[i].typ != Boolean then idx + 1 else idx;
          var text := if inline.Some? then inline.value else if opts[i].typ == Boolean then "true" else args[next];
          if text == [] then Step(vals, next, Fail(OptionError(opts[i], MissingOptionArgument)))
          else Bind(opts, vals, i, text, next)
  }

  /**
   * The loop of `parse_short_form_option` from cluster position `k`: `optArg`
   * is the cluster's argument (inline, or taken from the next token) and
   * `claimed` records that a flag has taken it.  Characters that name no
   * option are skipped.
   */
  function ShortLoop(opts: seq<CommandLineOption>, args: seq<string>, cluster: string, k: nat,
                     vals: seq<seq<string>>, idx: nat, optArg: string, claimed: bool): (s: Step)
    requires k <= |cluster| && |vals| == |opts| && idx < |args|
    decreases |cluster| - k
    ensures Appended(vals, s.vals)
    ensures s.outcome.Pass? ==> idx <= s.idx < |args|
  {
    if k == |cluster| then Step(vals, idx, Pass)
    else
      match FindOption(opts, ['-', cluster[k]], 0)
      case None => ShortLoop(opts, args, cluster, k + 1, vals, idx, optArg, claimed)
      case Some(i) =>
        if opts[i].typ == Boolean then
          if optArg != [] && claimed then
            Step(vals, idx, Fail(OptionError(opts[i], OptionArgumentAlreadyAssigned)))
          else
            var text := if optArg != [] then optArg else "true";
            var s := Bind(opts, vals, i, text, idx);
            if s.outcome.Fail? then s
            else ShortLoop(opts, args, cluster, k + 1, s.vals, idx, optArg, claimed || optArg != [])
        else
          var takesNext := optArg == [] && idx + 1 < |args|;
          var next := if takesNext then idx + 1 else idx;
          var arg := if takesNext then args[next] else optArg;
          if arg == [] then Step(vals, next, Fail(OptionError(opts[i], MissingOptionArgument)))
          else if claimed then Step(vals, next, Fail(OptionError(opts[i], OptionArgumentAlreadyAssigned)))
          else
            var s := Bind(opts, vals, i, arg, next);
            if s.outcome.Fail? then s
            else ShortLoop(opts, args, cluster, k + 1, s.vals, next, arg, true)
  }

  /** The cluster of a short-form token: the characters between '-' and the first '=', and the inline argument. */
  function Cluster(arg: string): (r: (string, string))
    requires StartsWith(arg, "-")
    ensures '=' !in r.0
    ensures IndexOf(arg, '=').None? ==> r == (arg[1..], "")
    ensures IndexOf(arg, '=').Some? ==>
      var p := IndexOf(arg, '=').value;
      r == (arg[1..p], arg[p + 1..])
  {
    var (key, inline) := SplitAssign(arg);
    (key[1..], inline.GetOr(""))
  }

  /** `parse_short_form_option` for the token at `idx`. */
  function ShortStep(opts: seq<CommandLineOption>, args: seq<string>, idx: nat, vals: seq<seq<string>>): (s: Step)
    requires idx < |args| && |vals| == |opts| && StartsWith(args[idx], "-")
    ensures Appended(vals, s.vals)
    ensures s.outcome.Pass? ==> idx <= s.idx < |args|
  {
    var (cluster, optArg) := Cluster(args[idx]);
    ShortLoop(opts, args, cluster, 0, vals, idx, optArg, false)
  }

  /** One option token: "--" tokens are long-form, other "-" tokens short-form clusters. */
  function OptionStep(opts: seq<CommandLineOption>, args: seq<string>, idx: nat, vals: seq<seq<string>>): (s: Step)
    requires idx < |args| && |vals| == |opts| && StartsWith(args[idx], "-")
    ensures Appended(vals, s.vals)
    ensures s.outcome.Pass? ==> idx <= s.idx < |args|
  {
    if StartsWith(args[idx], "--") then LongStep(opts, args, idx, vals) else ShortStep(opts, args, idx, vals)
  }

  /**
   * The loop of `parse` from argument `idx`: before the latch, "-" tokens are
   * options, others go to `remaining`; after it, every token goes to
   * `positional`.  The first error stops the walk.
   */
  function ScanLoop(opts: seq<CommandLineOption>, mode: ParsingMode, args: seq<string>, idx: nat, dashdash: bool,
                    vals: seq<seq<string>>, remaining: seq<string>, positional: seq<string>): (r: Session)
    requires idx <= |args| && |vals| == |opts|
    decreases |args| - idx
    ensures Appended(vals, r.vals) && remaining <= r.remaining && positional <= r.positional
    ensures forall m :: |remaining| <= m < |r.remaining| ==> r.remaining[m] in args[idx..] && !StartsWith(r.remaining[m], "-")
    ensures dashdash ==> r.remaining == remaining
  {
    if idx == |args| then Session(vals, remaining, positional, Pass)
    else
      var arg := args[idx];
      if dashdash then
        ScanLoop(opts, mode, args, idx + 1, true, vals, remaining, positional + [arg])
      else if StartsWith(arg, "-") then
        var s := OptionStep(opts, args, idx, vals);
        if s.outcome.Fail? then Session(s.vals, remaining, positional, s.outcome)
        else ScanLoop(opts, mode, args, s.idx + 1, Latches(mode, arg), s.vals, remaining, positional)
      else
        ScanLoop(opts, mode, args, idx + 1, false, vals, remaining + [arg], positional)
  }

  /** One step of `ScanLoop` on an option token before the latch. */
  lemma ScanOptionToken(opts: seq<CommandLineOption>, mode: ParsingMode, args: seq<string>, idx: nat,
                        vals: seq<seq<string>>, remaining: seq<string>, positional: seq<string>)
    requires idx < |args| && |vals| == |opts| && StartsWith(args[idx], "-")
    ensures var s := OptionStep(opts, args, idx, vals);
      ScanLoop(opts, mode, args, idx, false, vals, remaining, positional)
        == if s.outcome.Fail? then Session(s.vals, remaining, positional, s.outcome)
           else ScanLoop(opts, mode, args, s.idx + 1, Latches(mode, args[idx]), s.vals, remaining, positional)
  {
  }

  /** One step of `ScanLoop` on a plain token before the latch. */
  lemma ScanPlainToken(opts: seq<CommandLineOption>, mode: ParsingMode, args: seq<string>, idx: nat,
                       vals: seq<seq<string>>, remaining: seq<string>, positional: seq<string>)
    requires idx < |args| && |vals| == |opts| && !StartsWith(args[idx], "-")
    ensures ScanLoop(opts, mode, args, idx, false, vals, remaining, positional)
      == ScanLoop(opts, mode, args, idx + 1, false, vals, remaining + [args[idx]], positional)
  {
  }

  /** One step of `ScanLoop` after the latch. */
  lemma ScanLatchedToken(opts: seq<CommandLineOption>, mode: ParsingMode, args: seq<string>, idx: nat,
                         vals: seq<seq<string>>, remaining: seq<string>, positional: seq<string>)
    requires idx < |args| && |vals| == |opts|
    ensures ScanLoop(opts, mode, args, idx, true, vals, remaining, positional)
      == ScanLoop(opts, mode, args, idx + 1, true, vals, remaining, positional + [args[idx]])
  {
  }

  /** `parse`: argv[0] is the program name, the rest is scanned, then mandatory options are checked. */
  function ParseSpec(opts: seq<CommandLineOption>, mode: ParsingMode, argv: seq<string>,
                     vals: seq<seq<string>>, remaining: seq<string>, positional: seq<string>): (r: Session)
    requires |argv| > 0 && |vals| == |opts|
    ensures Appended(vals, r.vals) && remaining <= r.remaining && positional <= r.positional
    ensures var scan := ScanLoop(opts, mode, argv[1..], 0, false, vals, remaining, positional);
      r.vals == scan.vals && r.remaining == scan.remaining && r.positional == scan.positional
    ensures var scan := ScanLoop(opts, mode, argv[1..], 0, false, vals, remaining, positional);
      scan.outcome.Fail? ==> r.outcome == scan.outcome
    ensures r.outcome.Pass? <==> (ScanLoop(opts, mode, argv[1..], 0, false, vals, remaining, positional).outcome.Pass? &&
      forall i :: 0 <= i < |opts| && opts[i].mandatory ==> r.vals[i] != [])
    ensures (ScanLoop(opts, mode, argv[1..], 0, false, vals, remaining, positional).outcome.Pass? &&
             FirstUnset(opts, r.vals, 0).Some?) ==>
      r.outcome == Fail(OptionError(opts[FirstUnset(opts, r.vals, 0).value], MandatoryOptionHasNotSet))
  {
    var r := ScanLoop(opts, mode, argv[1..], 0, false, vals, remaining, positional);
    if r.outcome.Fail? then r else r.(outcome := CheckMandatory(opts, r.vals))
  }
}
