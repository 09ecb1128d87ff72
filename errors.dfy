/**
 * The closed error taxonomy.  The original indexes a table of fourteen
 * (localisable) message strings by these kinds; an error value carries the
 * offending option's flags text, its type tag and the kind.
 */
module Errors {
  import opened OptionType

  datatype ErrorKind =
    | OptionAlreadyExists
    | ShortOptionAlreadyExists
    | LongOptionAlreadyExists
    | OptionIsNotSet
    | OptionIsNotOfRequiredType
    | OptionNotFound
    | OptionTypeUndefined
    | BooleanOptionMismatchValueSet
    | IntegerOptionMismatchValueSet
    | FPointOptionMismatchValueSet
    | MissingOptionArgument
    | MandatoryOptionHasNotSet
    | OptionIdentifierNotFound
    | OptionArgumentAlreadyAssigned

  const ErrorCount: nat := 14

  /** Position of the kind's message in the message table. */
  function MessageIndex(k: ErrorKind): (i: nat)
    ensures i < ErrorCount
  {
    match k
    case OptionAlreadyExists => 0
    case ShortOptionAlreadyExists => 1
    case LongOptionAlreadyExists => 2
    case OptionIsNotSet => 3
    case OptionIsNotOfRequiredType => 4
    case OptionNotFound => 5
    case OptionTypeUndefined => 6
    case BooleanOptionMismatchValueSet => 7
    case IntegerOptionMismatchValueSet => 8
    case FPointOptionMismatchValueSet => 9
    case MissingOptionArgument => 10
    case MandatoryOptionHasNotSet => 11
    case OptionIdentifierNotFound => 12
    case OptionArgumentAlreadyAssigned => 13
  }

  /** The kind whose message sits at table position `i`. */
  function KindAt(i: nat): (k: ErrorKind)
    requires i < ErrorCount
    ensures MessageIndex(k) == i
  {
    [OptionAlreadyExists, ShortOptionAlreadyExists, LongOptionAlreadyExists, OptionIsNotSet,
     OptionIsNotOfRequiredType, OptionNotFound, OptionTypeUndefined, BooleanOptionMismatchValueSet,
     IntegerOptionMismatchValueSet, FPointOptionMismatchValueSet, MissingOptionArgument,
     MandatoryOptionHasNotSet, OptionIdentifierNotFound, OptionArgumentAlreadyAssigned][i]
  }

  /** Every kind has its own slot: the table is indexed one-to-one. */
  lemma MessageIndexRoundTrip(k: ErrorKind)
    ensures KindAt(MessageIndex(k)) == k
  {
  }

  /** The default English message table, in index order. */
  const DefaultMessages: seq<string> := [
    "option already exists",
    "single character option already exists",
    "long form option already exists",
    "is not set",
    "is not of the required type",
    "option not found",
    "Undefined command line option",
    "cannot set a boolean value to this option type",
    "cannot set an integer value to this option type",
    "cannot set a floating point value to this option type",
    "missing option argument",
    "mandatory option has not been set",
    "option identifier not found",
    "option argument already assigned"
  ]

  /**
   * The error value: flags text, type tag of the option, and what failed.
   * The source stores the message text itself; the model stores the kind,
   * and `ErrorText` recovers the text through `MessageIndex` from any
   * message table laid out in index order, such as `DefaultMessages`.
   */
  datatype ParserError = ParserError(flags: string, typ: OptType, kind: ErrorKind)

  /** The message an error carries, looked up in a table of `ErrorCount` messages. */
  function ErrorText(e: ParserError, messages: seq<string>): string
    requires |messages| == ErrorCount
  {
    messages[MessageIndex(e.kind)]
  }

  /** The kind a write-time type conflict is reported with, by what the text looks like. */
  function MismatchKind(looks: OptType): ErrorKind {
    match looks
    case Boolean => BooleanOptionMismatchValueSet
    case Integer => IntegerOptionMismatchValueSet
    case _ => FPointOptionMismatchValueSet
  }
}
