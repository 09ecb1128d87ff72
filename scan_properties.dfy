/** What the scan engine promises: the latch, the side lists, long options and short clusters. */
module ScanProperties {
  import opened Wrappers
  import opened Literals
  import opened OptionType
  import opened Errors
  import opened OptionRecord
  import opened Registry
  import opened Scan

  // ---- the walk and the latch ----

  /** Once latched, every remaining token goes verbatim, in order, to the positional list. */
  lemma {:induction false} LatchedTail(opts: seq<CommandLineOption>, mode: ParsingMode, args: seq<string>, idx: nat,
                                       vals: seq<seq<string>>, remaining: seq<string>, positional: seq<string>)
    requires idx <= |args| && |vals| == |opts|
    ensures ScanLoop(opts, mode, args, idx, true, vals, remaining, positional)
      == Session(vals, remaining, positional + args[idx..], Pass)
    decreases |args| - idx
  {
    if idx < |args| {
      LatchedTail(opts, mode, args, idx + 1, vals, remaining, positional + [args[idx]]);
      assert positional + [args[idx]] + args[idx + 1..] == positional + args[idx..];
    } else {
      assert args[idx..] == [];
    }
  }

  /** Under PositionalArgumentsMode, "--" sends all later tokens to the positional list. */
  lemma PositionalAfterSeparator(opts: seq<CommandLineOption>, args: seq<string>, idx: nat,
                                 vals: seq<seq<string>>, remaining: seq<string>, positional: seq<string>)
    requires idx < |args| && |vals| == |opts| && args[idx] == "--"
    ensures ScanLoop(opts, PositionalArgumentsMode, args, idx, false, vals, remaining, positional)
      == Session(vals, remaining, positional + args[idx + 1..], Pass)
  {
    assert StartsWith(args[idx], "-") && StartsWith(args[idx], "--");
    LatchedTail(opts, PositionalArgumentsMode, args, idx + 1, vals, remaining, positional);
  }

  /** Under DefaultParsingMode the latch never closes, so the positional list never grows. */
  lemma {:induction false} DefaultModeNoPositional(opts: seq<CommandLineOption>, args: seq<string>, idx: nat,
                                                   vals: seq<seq<string>>, remaining: seq<string>,
                                                   positional: seq<string>)
    requires idx <= |args| && |vals| == |opts|
    ensures ScanLoop(opts, DefaultParsingMode, args, idx, false, vals, remaining, positional).positional
      == positional
    decreases |args| - idx
  {
    if idx < |args| {
      var arg := args[idx];
      if StartsWith(arg, "-") {
        var s := OptionStep(opts, args, idx, vals);
        if s.outcome.Pass? {
          DefaultModeNoPositional(opts, args, s.idx + 1, s.vals, remaining, positional);
        }
      } else {
        DefaultModeNoPositional(opts, args, idx + 1, vals, remaining + [arg], positional);
      }
    }
  }

  /** Before the latch, a tail of tokens not starting with '-' goes verbatim, in order, to the remaining list. */
  lemma {:induction false} PlainTokensRemain(opts: seq<CommandLineOption>, mode: ParsingMode, args: seq<string>,
                                             idx: nat, vals: seq<seq<string>>, remaining: seq<string>,
                                             positional: seq<string>)
    requires idx <= |args| && |vals| == |opts|
    requires forall m :: idx <= m < |args| ==> !StartsWith(args[m], "-")
    ensures ScanLoop(opts, mode, args, idx, false, vals, remaining, positional)
      == Session(vals, remaining + args[idx..], positional, Pass)
    decreases |args| - idx
  {
    if idx < |args| {
      PlainTokensRemain(opts, mode, args, idx + 1, vals, remaining + [args[idx]], positional);
      assert remaining + [args[idx]] + args[idx + 1..] == remaining + args[idx..];
    } else {
      assert args[idx..] == [];
    }
  }

  /** `s` occurs in `t` in order: its elements are elements of `t` taken at strictly increasing positions. */
  predicate InOrder(s: seq<string>, t: seq<string>)
    decreases |t|
  {
    if s == [] then true
    else if t == [] then false
    else (s[0] == t[0] && InOrder(s[1..], t[1..])) || InOrder(s, t[1..])
  }

  /** Dropping a prefix of `t` cannot put `s` out of order. */
  lemma {:induction false} InOrderDrop(s: seq<string>, t: seq<string>, n: nat)
    requires n <= |t| && InOrder(s, t[n..])
    ensures InOrder(s, t)
    decreases n
  {
    if n > 0 {
      assert t[1..][n - 1..] == t[n..];
      InOrderDrop(s, t[1..], n - 1);
    } else {
      assert t[n..] == t;
    }
  }

  /**
   * Whatever options are interleaved with them, the tokens the walk adds to
   * the remaining list are taken from the arguments in their order.
   */
  lemma {:induction false} RemainingInOrder(opts: seq<CommandLineOption>, mode: ParsingMode, args: seq<string>,
                                            idx: nat, dashdash: bool, vals: seq<seq<string>>,
                                            remaining: seq<string>, positional: seq<string>)
    requires idx <= |args| && |vals| == |opts|
    ensures var r := ScanLoop(opts, mode, args, idx, dashdash, vals, remaining, positional);
      InOrder(r.remaining[|remaining|..], args[idx..])
    decreases |args| - idx
  {
    if idx == |args| || dashdash {
      NothingAddedInOrder(ScanLoop(opts, mode, args, idx, dashdash, vals, remaining, positional).remaining,
                          remaining, args[idx..]);
    } else if StartsWith(args[idx], "-") {
      var s := OptionStep(opts, args, idx, vals);
      if s.outcome.Pass? {
        RemainingInOrder(opts, mode, args, s.idx + 1, Latches(mode, args[idx]), s.vals, remaining, positional);
      }
      OptionTokenInOrder(opts, mode, args, idx, vals, remaining, positional);
    } else {
      RemainingInOrder(opts, mode, args, idx + 1, false, vals, remaining + [args[idx]], positional);
      PlainTokenInOrder(opts, mode, args, idx, vals, remaining, positional);
    }
  }

  /** An option token adds nothing to the remaining list, so the order after it is the order from it. */
  lemma OptionTokenInOrder(opts: seq<CommandLineOption>, mode: ParsingMode, args: seq<string>, idx: nat,
                           vals: seq<seq<string>>, remaining: seq<string>, positional: seq<string>)
    requires idx < |args| && |vals| == |opts| && StartsWith(args[idx], "-")
    requires var s := OptionStep(opts, args, idx, vals);
      s.outcome.Pass? ==>
        InOrder(ScanLoop(opts, mode, args, s.idx + 1, Latches(mode, args[idx]), s.vals, remaining, positional)
                  .remaining[|remaining|..], args[s.idx + 1..])
    ensures InOrder(ScanLoop(opts, mode, args, idx, false, vals, remaining, positional).remaining[|remaining|..],
                    args[idx..])
  {
    ScanOptionToken(opts, mode, args, idx, vals, remaining, positional);
    var s := OptionStep(opts, args, idx, vals);
    if s.outcome.Fail? {
      NothingAddedInOrder(remaining, remaining, args[idx..]);
    } else {
      SkippedTokenInOrder(ScanLoop(opts, mode, args, s.idx + 1, Latches(mode, args[idx]), s.vals, remaining, positional)
                            .remaining[|remaining|..], args, idx, s.idx + 1);
    }
  }

  /** When the walk adds nothing to the remaining list, the addition is trivially in order. */
  lemma NothingAddedInOrder(result: seq<string>, remaining: seq<string>, t: seq<string>)
    requires result == remaining
    ensures InOrder(result[|remaining|..], t)
  {
    assert result[|remaining|..] == [];
  }

  /** Tokens in order after position `next` are in order after an earlier position `idx`. */
  lemma SkippedTokenInOrder(s: seq<string>, args: seq<string>, idx: nat, next: nat)
    requires idx <= next <= |args| && InOrder(s, args[next..])
    ensures InOrder(s, args[idx..])
  {
    assert args[idx..][next - idx..] == args[next..];
    InOrderDrop(s, args[idx..], next - idx);
  }

  /** A plain token goes to the remaining list ahead of the tokens after it, so the order is kept. */
  lemma PlainTokenInOrder(opts: seq<CommandLineOption>, mode: ParsingMode, args: seq<string>, idx: nat,
                          vals: seq<seq<string>>, remaining: seq<string>, positional: seq<string>)
    requires idx < |args| && |vals| == |opts| && !StartsWith(args[idx], "-")
    requires var more := remaining + [args[idx]];
      InOrder(ScanLoop(opts, mode, args, idx + 1, false, vals, more, positional).remaining[|more|..], args[idx + 1..])
    ensures InOrder(ScanLoop(opts, mode, args, idx, false, vals, remaining, positional).remaining[|remaining|..],
                    args[idx..])
  {
    var more := remaining + [args[idx]];
    ScanPlainToken(opts, mode, args, idx, vals, remaining, positional);
    var result := ScanLoop(opts, mode, args, idx + 1, false, vals, more, positional).remaining;
    assert more <= result;
    var tail := result[|remaining|..];
    assert tail[0] == args[idx] == args[idx..][0];
    assert tail[1..] == result[|more|..];
    assert args[idx..][1..] == args[idx + 1..];
  }

  /** Under DefaultParsingMode a lone "--" is consumed and nothing else happens. */
  lemma DefaultModeSeparatorIgnored(opts: seq<CommandLineOption>, args: seq<string>, idx: nat,
                                    vals: seq<seq<string>>, remaining: seq<string>, positional: seq<string>)
    requires idx < |args| && |vals| == |opts| && args[idx] == "--"
    ensures ScanLoop(opts, DefaultParsingMode, args, idx, false, vals, remaining, positional)
      == ScanLoop(opts, DefaultParsingMode, args, idx + 1, false, vals, remaining, positional)
  {
    assert StartsWith(args[idx], "-") && StartsWith(args[idx], "--");
  }

  /** The token "-" alone is a cluster with no characters: it is consumed and nothing else happens. */
  lemma LoneDashIgnored(opts: seq<CommandLineOption>, mode: ParsingMode, args: seq<string>, idx: nat,
                        vals: seq<seq<string>>, remaining: seq<string>, positional: seq<string>)
    requires idx < |args| && |vals| == |opts| && args[idx] == "-"
    ensures ScanLoop(opts, mode, args, idx, false, vals, remaining, positional)
      == ScanLoop(opts, mode, args, idx + 1, false, vals, remaining, positional)
  {
    assert IndexOf(args[idx], '=') == None;
    assert Cluster(args[idx]).0 == [];
  }

  /** With only the program name, `parse` binds nothing and reports the mandatory check alone. */
  lemma ProgramNameOnly(opts: seq<CommandLineOption>, mode: ParsingMode, argv: seq<string>,
                        vals: seq<seq<string>>, remaining: seq<string>, positional: seq<string>)
    requires |argv| == 1 && |vals| == |opts|
    ensures ParseSpec(opts, mode, argv, vals, remaining, positional)
      == Session(vals, remaining, positional, CheckMandatory(opts, vals))
  {
    assert argv[1..] == [];
  }

  // ---- long-form options ----

  /** A bare `--name` naming a Boolean option binds "true" and leaves the index where it was. */
  lemma BareBooleanLongFlag(opts: seq<CommandLineOption>, args: seq<string>, idx: nat, vals: seq<seq<string>>,
                            name: string, i: nat)
    requires idx < |args| && |vals| == |opts| && args[idx] == "--" + name && name != [] && '=' !in name
    requires FindOption(opts, args[idx], 0) == Some(i) && opts[i].typ == Boolean
    ensures LongStep(opts, args, idx, vals) == Step(vals[i := vals[i] + ["true"]], idx, Pass)
  {
    assert StartsWith(args[idx], "--");
    LongFlagHasNoAssign(name);
    assert "true"[..1] == "t";
    assert LooksBool("true");
  }

  /** A non-Boolean `--name` takes the next token as its value and advances the index by one. */
  lemma LongFlagTakesNextToken(opts: seq<CommandLineOption>, args: seq<string>, idx: nat, vals: seq<seq<string>>,
                               name: string, i: nat)
    requires idx + 1 < |args| && |vals| == |opts| && args[idx] == "--" + name && name != [] && '=' !in name
    requires FindOption(opts, args[idx], 0) == Some(i) && opts[i].typ != Boolean && args[idx + 1] != []
    ensures LongStep(opts, args, idx, vals) == Bind(opts, vals, i, args[idx + 1], idx + 1)
  {
    assert StartsWith(args[idx], "--");
    LongFlagHasNoAssign(name);
  }

  /** A non-Boolean `--name` as the last token fails with the missing-argument error. */
  lemma LongFlagMissingAtEnd(opts: seq<CommandLineOption>, args: seq<string>, vals: seq<seq<string>>,
                             name: string, i: nat)
    requires |args| > 0 && |vals| == |opts| && args[|args| - 1] == "--" + name && name != [] && '=' !in name
    requires FindOption(opts, args[|args| - 1], 0) == Some(i) && opts[i].typ != Boolean
    ensures LongStep(opts, args, |args| - 1, vals).outcome == Fail(OptionError(opts[i], MissingOptionArgument))
    ensures LongStep(opts, args, |args| - 1, vals).vals == vals
  {
    var arg := args[|args| - 1];
    assert StartsWith(arg, "--");
    LongFlagHasNoAssign(name);
  }

  /** `--name=value` binds the inline value without moving the index. */
  lemma LongFlagInlineValue(opts: seq<CommandLineOption>, args: seq<string>, idx: nat, vals: seq<seq<string>>,
                            name: string, value: string, i: nat)
    requires idx < |args| && |vals| == |opts| && args[idx] == "--" + name + "=" + value && '=' !in name
    requires FindOption(opts, "--" + name, 0) == Some(i) && value != []
    ensures LongStep(opts, args, idx, vals) == Bind(opts, vals, i, value, idx)
  {
    assert args[idx] == ("--" + name) + "=" + value;
    LongFlagHasNoAssign(name);
    SplitAssignJoin("--" + name, value);
    assert StartsWith(args[idx], "--");
  }

  /** A long flag built from a name without '=' has no '=' either. */
  lemma LongFlagHasNoAssign(name: string)
    requires '=' !in name
    ensures '=' !in "--" + name
  {
    forall m | 0 <= m < |"--" + name|
      ensures ("--" + name)[m] != '='
    {
      if m >= 2 {
        assert ("--" + name)[m] == name[m - 2];
      }
    }
  }

  /** `--name=` with nothing after '=' fails with the missing-argument error. */
  lemma LongFlagEmptyInline(opts: seq<CommandLineOption>, args: seq<string>, idx: nat, vals: seq<seq<string>>,
                            name: string, i: nat)
    requires idx < |args| && |vals| == |opts| && args[idx] == "--" + name + "=" && '=' !in name
    requires FindOption(opts, "--" + name, 0) == Some(i)
    ensures LongStep(opts, args, idx, vals) == Step(vals, idx, Fail(OptionError(opts[i], MissingOptionArgument)))
  {
    assert args[idx] == ("--" + name) + "=" + "";
    LongFlagHasNoAssign(name);
    SplitAssignJoin("--" + name, "");
    assert StartsWith(args[idx], "--");
  }

  /** A long token naming no option fails with option-not-found, carrying the whole token. */
  lemma LongFlagUnknown(opts: seq<CommandLineOption>, args: seq<string>, idx: nat, vals: seq<seq<string>>)
    requires idx < |args| && |vals| == |opts| && StartsWith(args[idx], "--") && |args[idx]| > 2
    requires FindOption(opts, SplitAssign(args[idx]).0, 0).None?
    ensures LongStep(opts, args, idx, vals) == Step(vals, idx, Fail(ParserError(args[idx], Undefined, OptionNotFound)))
  {
  }

  // ---- short-form clusters ----

  /** Character `c` names a registered short flag. */
  predicate Names(opts: seq<CommandLineOption>, c: char) {
    FindOption(opts, ['-', c], 0).Some?
  }

  /** The characters of a cluster that name an option, in order. */
  function KnownChars(opts: seq<CommandLineOption>, s: string): (r: string)
    ensures forall m :: 0 <= m < |r| ==> Names(opts, r[m])
  {
    if s == [] then []
    else (if Names(opts, s[0]) then [s[0]] else []) + KnownChars(opts, s[1..])
  }

  /** Filtering twice is filtering once. */
  lemma {:induction false} KnownCharsIdempotent(opts: seq<CommandLineOption>, s: string)
    ensures KnownChars(opts, KnownChars(opts, s)) == KnownChars(opts, s)
    decreases |s|
  {
    if s != [] {
      KnownCharsIdempotent(opts, s[1..]);
      var rest := KnownChars(opts, s[1..]);
      if Names(opts, s[0]) {
        var r := [s[0]] + rest;
        assert r[0] == s[0] && r[1..] == rest;
        assert KnownChars(opts, r) == [s[0]] + KnownChars(opts, rest);
      } else {
        assert KnownChars(opts, s) == [] + rest == rest;
      }
    }
  }

  /** Dropping the first character of a suffix that starts at `k`. */
  lemma KnownCharsStep(opts: seq<CommandLineOption>, c: string, k: nat)
    requires k < |c|
    ensures KnownChars(opts, c[k..]) == (if Names(opts, c[k]) then [c[k]] else []) + KnownChars(opts, c[k + 1..])
  {
    assert c[k..][0] == c[k] && c[k..][1..] == c[k + 1..];
  }

  /**
   * Two clusters with the same named characters, in the same order, give the
   * same result: characters that name no option play no part.
   */
  lemma {:induction false} SameKnownCharsSameResult(opts: seq<CommandLineOption>, args: seq<string>,
                                                    c1: string, k1: nat, c2: string, k2: nat,
                                                    vals: seq<seq<string>>, idx: nat, optArg: string, claimed: bool)
    requires k1 <= |c1| && k2 <= |c2| && |vals| == |opts| && idx < |args|
    requires KnownChars(opts, c1[k1..]) == KnownChars(opts, c2[k2..])
    ensures ShortLoop(opts, args, c1, k1, vals, idx, optArg, claimed)
      == ShortLoop(opts, args, c2, k2, vals, idx, optArg, claimed)
    decreases |c1| - k1 + |c2| - k2
  {
    if k1 < |c1| && !Names(opts, c1[k1]) {
      KnownCharsStep(opts, c1, k1);
      SameKnownCharsSameResult(opts, args, c1, k1 + 1, c2, k2, vals, idx, optArg, claimed);
    } else if k2 < |c2| && !Names(opts, c2[k2]) {
      KnownCharsStep(opts, c2, k2);
      SameKnownCharsSameResult(opts, args, c1, k1, c2, k2 + 1, vals, idx, optArg, claimed);
    } else if k1 == |c1| || k2 == |c2| {
      if k1 < |c1| {
        KnownCharsStep(opts, c1, k1);
        assert false;
      } else if k2 < |c2| {
        KnownCharsStep(opts, c2, k2);
        assert false;
      }
    } else {
      KnownCharsStep(opts, c1, k1);
      KnownCharsStep(opts, c2, k2);
      var rest1, rest2 := KnownChars(opts, c1[k1 + 1..]), KnownChars(opts, c2[k2 + 1..]);
      assert ([c1[k1]] + rest1)[0] == c1[k1] && ([c1[k1]] + rest1)[1..] == rest1;
      assert ([c2[k2]] + rest2)[0] == c2[k2] && ([c2[k2]] + rest2)[1..] == rest2;
      assert c1[k1] == c2[k2] && rest1 == rest2;
      var i := FindOption(opts, ['-', c1[k1]], 0).value;
      if opts[i].typ == Boolean {
        if !(optArg != [] && claimed) {
          var s := Bind(opts, vals, i, if optArg != [] then optArg else "true", idx);
          if s.outcome.Pass? {
            SameKnownCharsSameResult(opts, args, c1, k1 + 1, c2, k2 + 1, s.vals, idx, optArg, claimed || optArg != []);
          }
        }
      } else {
        var takesNext := optArg == [] && idx + 1 < |args|;
        var next := if takesNext then idx + 1 else idx;
        var arg := if takesNext then args[next] else optArg;
        if arg != [] && !claimed {
          var s := Bind(opts, vals, i, arg, next);
          if s.outcome.Pass? {
            SameKnownCharsSameResult(opts, args, c1, k1 + 1, c2, k2 + 1, s.vals, next, arg, true);
          }
        }
      }
    }
  }

  /**
   * Characters that name no option are skipped: a cluster gives the same
   * result as the cluster of its named characters alone.
   */
  lemma UnknownCharsSkipped(opts: seq<CommandLineOption>, args: seq<string>, cluster: string, k: nat,
                            vals: seq<seq<string>>, idx: nat, optArg: string, claimed: bool)
    requires k <= |cluster| && |vals| == |opts| && idx < |args|
    ensures ShortLoop(opts, args, cluster, k, vals, idx, optArg, claimed)
      == ShortLoop(opts, args, KnownChars(opts, cluster[k..]), 0, vals, idx, optArg, claimed)
  {
    var known := KnownChars(opts, cluster[k..]);
    KnownCharsIdempotent(opts, cluster[k..]);
    assert known[0..] == known;
    SameKnownCharsSameResult(opts, args, cluster, k, known, 0, vals, idx, optArg, claimed);
  }

  /** The first position, from `k` on, whose character names an option. */
  function FirstNamed(opts: seq<CommandLineOption>, cluster: string, k: nat): (r: Option<nat>)
    requires k <= |cluster|
    decreases |cluster| - k
    ensures r.Some? ==> k <= r.value < |cluster| && Names(opts, cluster[r.value])
    ensures r.Some? ==> forall m :: k <= m < r.value ==> !Names(opts, cluster[m])
    ensures r.None? ==> forall m :: k <= m < |cluster| ==> !Names(opts, cluster[m])
  {
    if k == |cluster| then None
    else if Names(opts, cluster[k]) then Some(k)
    else FirstNamed(opts, cluster, k + 1)
  }

  /**
   * Once a flag has claimed the cluster's argument, the next character that
   * names an option fails with argument-already-assigned, whether that
   * option is Boolean or not; if there is none, the cluster succeeds and
   * binds nothing more.
   */
  lemma {:induction false} ClaimedArgumentEndsCluster(opts: seq<CommandLineOption>, args: seq<string>,
                                                      cluster: string, k: nat, vals: seq<seq<string>>, idx: nat,
                                                      optArg: string)
    requires k <= |cluster| && |vals| == |opts| && idx < |args| && optArg != []
    ensures ShortLoop(opts, args, cluster, k, vals, idx, optArg, true) ==
      match FirstNamed(opts, cluster, k)
      case None => Step(vals, idx, Pass)
      case Some(m) =>
        Step(vals, idx, Fail(OptionError(opts[FindOption(opts, ['-', cluster[m]], 0).value],
                                         OptionArgumentAlreadyAssigned)))
    decreases |cluster| - k
  {
    if k < |cluster| && !Names(opts, cluster[k]) {
      ClaimedArgumentEndsCluster(opts, args, cluster, k + 1, vals, idx, optArg);
    }
  }

  /**
   * A flag that takes a value, with no cluster argument and no usable next
   * token (none, or an empty one), fails with missing-argument.
   */
  lemma ShortFlagMissingArgument(opts: seq<CommandLineOption>, args: seq<string>, cluster: string, k: nat,
                                 vals: seq<seq<string>>, idx: nat, claimed: bool, i: nat)
    requires k < |cluster| && |vals| == |opts| && idx < |args|
    requires FindOption(opts, ['-', cluster[k]], 0) == Some(i) && opts[i].typ != Boolean
    requires idx + 1 == |args| || args[idx + 1] == []
    ensures ShortLoop(opts, args, cluster, k, vals, idx, [], claimed)
      == Step(vals, if idx + 1 < |args| then idx + 1 else idx, Fail(OptionError(opts[i], MissingOptionArgument)))
  {
  }

  /** `-c` as the last token, for a flag that takes a value, fails with missing-argument. */
  lemma ShortFlagMissingAtEnd(opts: seq<CommandLineOption>, args: seq<string>, vals: seq<seq<string>>,
                              c: char, i: nat)
    requires |args| > 0 && |vals| == |opts| && args[|args| - 1] == ['-', c] && c != '='
    requires FindOption(opts, ['-', c], 0) == Some(i) && opts[i].typ != Boolean
    ensures ShortStep(opts, args, |args| - 1, vals)
      == Step(vals, |args| - 1, Fail(OptionError(opts[i], MissingOptionArgument)))
  {
    assert IndexOf(args[|args| - 1], '=') == None;
    assert Cluster(args[|args| - 1]) == ([c], "");
    ShortFlagMissingArgument(opts, args, [c], 0, vals, |args| - 1, false, i);
  }

  /** `-c=value` binds the value to `c`, Boolean or not, without moving the index. */
  lemma ShortFlagInlineValue(opts: seq<CommandLineOption>, args: seq<string>, idx: nat, vals: seq<seq<string>>,
                             c: char, value: string, i: nat)
    requires idx < |args| && |vals| == |opts| && args[idx] == ['-', c, '='] + value && c != '='
    requires FindOption(opts, ['-', c], 0) == Some(i) && value != []
    ensures ShortStep(opts, args, idx, vals) == Bind(opts, vals, i, value, idx)
  {
    assert args[idx] == ['-', c] + "=" + value;
    SplitAssignJoin(['-', c], value);
    assert Cluster(args[idx]) == ([c], value);
    var s := Bind(opts, vals, i, value, idx);
    assert ShortLoop(opts, args, [c], 1, s.vals, idx, value, true) == Step(s.vals, idx, Pass);
  }

  /** `-c value`, for a flag that takes a value, binds the next token and moves the index past it. */
  lemma ShortFlagNextToken(opts: seq<CommandLineOption>, args: seq<string>, idx: nat, vals: seq<seq<string>>,
                           c: char, i: nat)
    requires idx + 1 < |args| && |vals| == |opts| && args[idx] == ['-', c] && c != '='
    requires FindOption(opts, ['-', c], 0) == Some(i) && opts[i].typ != Boolean && args[idx + 1] != []
    ensures ShortStep(opts, args, idx, vals) == Bind(opts, vals, i, args[idx + 1], idx + 1)
  {
    assert IndexOf(args[idx], '=') == None;
    assert Cluster(args[idx]) == ([c], "");
    var s := Bind(opts, vals, i, args[idx + 1], idx + 1);
    assert ShortLoop(opts, args, [c], 1, s.vals, idx + 1, args[idx + 1], true) == Step(s.vals, idx + 1, Pass);
  }

  /** `n` copies of "true". */
  function Trues(n: nat): (r: seq<string>)
    ensures |r| == n && forall m :: 0 <= m < n ==> r[m] == "true"
  {
    if n == 0 then [] else ["true"] + Trues(n - 1)
  }

  /** How many characters of `s` name option `j`. */
  function Flagged(opts: seq<CommandLineOption>, s: string, j: nat): nat {
    if s == [] then 0
    else (if FindOption(opts, ['-', s[0]], 0) == Some(j) then 1 else 0) + Flagged(opts, s[1..], j)
  }

  /**
   * Without a cluster argument, a cluster of Boolean flags (`-xvz`) succeeds,
   * keeps the index, and appends one "true" to each option per character
   * naming it.
   */
  lemma {:induction false} BooleanClusterSetsAll(opts: seq<CommandLineOption>, args: seq<string>, cluster: string,
                                                 k: nat, vals: seq<seq<string>>, idx: nat, claimed: bool)
    requires k <= |cluster| && |vals| == |opts| && idx < |args|
    requires forall m :: k <= m < |cluster| && Names(opts, cluster[m]) ==>
      opts[FindOption(opts, ['-', cluster[m]], 0).value].typ == Boolean
    ensures var s := ShortLoop(opts, args, cluster, k, vals, idx, [], claimed);
      s.outcome == Pass && s.idx == idx && |s.vals| == |vals| &&
      forall j :: 0 <= j < |vals| ==> s.vals[j] == vals[j] + Trues(Flagged(opts, cluster[k..], j))
    decreases |cluster| - k
  {
    if k < |cluster| {
      assert cluster[k..][0] == cluster[k] && cluster[k..][1..] == cluster[k + 1..];
      match FindOption(opts, ['-', cluster[k]], 0)
      case None =>
        BooleanClusterSetsAll(opts, args, cluster, k + 1, vals, idx, claimed);
      case Some(i) =>
        assert LooksBool("true");
        var next := vals[i := vals[i] + ["true"]];
        BooleanClusterSetsAll(opts, args, cluster, k + 1, next, idx, claimed);
        forall j | 0 <= j < |vals|
          ensures next[j] + Trues(Flagged(opts, cluster[k + 1..], j)) == vals[j] + Trues(Flagged(opts, cluster[k..], j))
        {
          if j == i {
            assert Trues(Flagged(opts, cluster[k..], j)) == ["true"] + Trues(Flagged(opts, cluster[k + 1..], j));
          }
        }
    } else {
      assert forall j :: Flagged(opts, cluster[k..], j) == 0;
    }
  }

  /**
   * `-cd=value`: the first flag takes the inline value, so the second fails
   * with argument-already-assigned, after the first value has been bound.
   */
  lemma SecondFlagRefusedInline(opts: seq<CommandLineOption>, args: seq<string>, idx: nat, vals: seq<seq<string>>,
                                c: char, d: char, value: string, i: nat, j: nat)
    requires idx < |args| && |vals| == |opts| && args[idx] == ['-', c, d, '='] + value
    requires c != '=' && d != '=' && value != []
    requires FindOption(opts, ['-', c], 0) == Some(i) && FindOption(opts, ['-', d], 0) == Some(j)
    requires AddValueCheck(opts[i].typ, value).Pass?
    ensures ShortStep(opts, args, idx, vals)
      == Step(vals[i := vals[i] + [value]], idx, Fail(OptionError(opts[j], OptionArgumentAlreadyAssigned)))
  {
    assert args[idx] == ['-', c, d] + "=" + value;
    SplitAssignJoin(['-', c, d], value);
    assert Cluster(args[idx]) == ([c, d], value);
    FirstFlagClaimsInline(opts, args, [c, d], vals, idx, value, i);
    ClaimedArgumentEndsCluster(opts, args, [c, d], 1, vals[i := vals[i] + [value]], idx, value);
  }

  /** The first named flag of a cluster with an inline argument binds it and claims it, Boolean or not. */
  lemma FirstFlagClaimsInline(opts: seq<CommandLineOption>, args: seq<string>, cluster: string,
                              vals: seq<seq<string>>, idx: nat, value: string, i: nat)
    requires |cluster| > 0 && |vals| == |opts| && idx < |args| && value != []
    requires FindOption(opts, ['-', cluster[0]], 0) == Some(i) && AddValueCheck(opts[i].typ, value).Pass?
    ensures ShortLoop(opts, args, cluster, 0, vals, idx, value, false)
      == ShortLoop(opts, args, cluster, 1, vals[i := vals[i] + [value]], idx, value, true)
  {
    assert Bind(opts, vals, i, value, idx) == Step(vals[i := vals[i] + [value]], idx, Pass);
  }

  /**
   * `-cd value` with `c` taking a value: `c` takes the next token, so `d`
   * fails with argument-already-assigned, after that token has been bound.
   */
  lemma SecondFlagRefusedNextToken(opts: seq<CommandLineOption>, args: seq<string>, idx: nat,
                                   vals: seq<seq<string>>, c: char, d: char, i: nat, j: nat)
    requires idx + 1 < |args| && |vals| == |opts| && args[idx] == ['-', c, d] && c != '=' && d != '='
    requires FindOption(opts, ['-', c], 0) == Some(i) && FindOption(opts, ['-', d], 0) == Some(j)
    requires opts[i].typ != Boolean && args[idx + 1] != [] && AddValueCheck(opts[i].typ, args[idx + 1]).Pass?
    ensures ShortStep(opts, args, idx, vals)
      == Step(vals[i := vals[i] + [args[idx + 1]]], idx + 1, Fail(OptionError(opts[j], OptionArgumentAlreadyAssigned)))
  {
    assert IndexOf(args[idx], '=') == None;
    assert Cluster(args[idx]) == ([c, d], "");
    ClaimedArgumentEndsCluster(opts, args, [c, d], 1, vals[i := vals[i] + [args[idx + 1]]], idx + 1, args[idx + 1]);
  }

  /**
   * With an inline argument, a successful cluster has at most one character
   * naming an option: every named flag, Boolean or not, claims the argument.
   */
  lemma {:induction false} InlineArgumentClaimedOnce(opts: seq<CommandLineOption>, args: seq<string>,
                                                     cluster: string, k: nat, vals: seq<seq<string>>, idx: nat,
                                                     optArg: string)
    requires k <= |cluster| && |vals| == |opts| && idx < |args| && optArg != []
    requires ShortLoop(opts, args, cluster, k, vals, idx, optArg, false).outcome.Pass?
    ensures forall m1, m2 :: k <= m1 < m2 < |cluster| ==> !(Names(opts, cluster[m1]) && Names(opts, cluster[m2]))
    decreases |cluster| - k
  {
    if k < |cluster| {
      match FindOption(opts, ['-', cluster[k]], 0)
      case None =>
        InlineArgumentClaimedOnce(opts, args, cluster, k + 1, vals, idx, optArg);
      case Some(i) =>
        var s := Bind(opts, vals, i, optArg, idx);
        ClaimedArgumentEndsCluster(opts, args, cluster, k + 1, s.vals, idx, optArg);
    }
  }

  /**
   * Without an inline argument, Boolean flags bind "true"; a successful
   * cluster has at most one non-Boolean flag, and no flag after it.
   */
  lemma {:induction false} NextTokenClaimedOnce(opts: seq<CommandLineOption>, args: seq<string>, cluster: string,
                                                k: nat, vals: seq<seq<string>>, idx: nat)
    requires k <= |cluster| && |vals| == |opts| && idx < |args|
    requires ShortLoop(opts, args, cluster, k, vals, idx, [], false).outcome.Pass?
    ensures forall m1, m2 :: (k <= m1 < m2 < |cluster| && Names(opts, cluster[m1]) &&
      opts[FindOption(opts, ['-', cluster[m1]], 0).value].typ != Boolean) ==> !Names(opts, cluster[m2])
    decreases |cluster| - k
  {
    if k < |cluster| {
      match FindOption(opts, ['-', cluster[k]], 0)
      case None =>
        NextTokenClaimedOnce(opts, args, cluster, k + 1, vals, idx);
      case Some(i) =>
        if opts[i].typ == Boolean {
          var s := Bind(opts, vals, i, "true", idx);
          NextTokenClaimedOnce(opts, args, cluster, k + 1, s.vals, idx);
        } else {
          var s := Bind(opts, vals, i, args[idx + 1], idx + 1);
          ClaimedArgumentEndsCluster(opts, args, cluster, k + 1, s.vals, idx + 1, args[idx + 1]);
        }
    }
  }

  /**
   * `-c=` with nothing after '=' counts as having no inline argument, so a
   * non-Boolean `c` takes the next token and the index moves past it.
   */
  lemma EmptyInlineTakesNextToken(opts: seq<CommandLineOption>, args: seq<string>, idx: nat,
                                  vals: seq<seq<string>>, c: char, i: nat)
    requires idx + 1 < |args| && |vals| == |opts| && args[idx] == ['-', c, '='] && c != '=' && c != '-'
    requires FindOption(opts, ['-', c], 0) == Some(i) && opts[i].typ != Boolean
    requires args[idx + 1] != [] && AddValueCheck(opts[i].typ, args[idx + 1]).Pass?
    ensures ShortStep(opts, args, idx, vals) == Step(vals[i := vals[i] + [args[idx + 1]]], idx + 1, Pass)
  {
    assert args[idx] == ['-', c] + "=" + "";
    SplitAssignJoin(['-', c], "");
    assert Cluster(args[idx]) == ([c], "");
    var s := Bind(opts, vals, i, args[idx + 1], idx + 1);
    assert ShortLoop(opts, args, [c], 1, s.vals, idx + 1, args[idx + 1], true) == Step(s.vals, idx + 1, Pass);
  }
}
