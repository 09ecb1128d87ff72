/** The closed type tag of a command-line option. */
module OptionType {
  import opened Literals
  import opened Wrappers

  datatype OptType = Undefined | Boolean | Integer | FPoint | String

  /** The tag's text, as `CommandLineOptionType::unwrap` gives it. */
  function TypeName(t: OptType): string {
    match t
    case Undefined => "UndefinedCommandLineOptionType"
    case Boolean => "BooleanCommandLineOptionType"
    case Integer => "IntegerCommandLineOptionType"
    case FPoint => "FPointCommandLineOptionType"
    case String => "StringCommandLineOptionType"
  }

  /** Two tags compare equal by their names; that is plain tag equality. */
  lemma TypeNameInjective(a: OptType, b: OptType)
    ensures TypeName(a) == TypeName(b) <==> a == b
  {
  }

  /** The tag of a retrieval target type (`CommandLineOptionType::from(TypeId)`). */
  function TagOf(t: Target): (r: OptType)
    ensures r != Undefined
    ensures r == Boolean <==> t == BoolTarget
    ensures r == Integer <==> t.IntTarget?
    ensures r == FPoint <==> t == F32Target || t == F64Target
    ensures r == String <==> t == StringTarget
  {
    match t
    case BoolTarget => Boolean
    case IntTarget(_, _) => Integer
    case F32Target => FPoint
    case F64Target => FPoint
    case StringTarget => String
  }

  /**
   * What a text "looks like" when bound to an option: the first of `bool`,
   * `i128` and `f64` that accepts it, or nothing.
   */
  function Classify(text: string): (r: Option<OptType>)
    ensures r == Some(Boolean) <==> LooksBool(text)
    ensures r == Some(Integer) <==> !LooksBool(text) && LooksInteger(text)
    ensures r == Some(FPoint) <==> !LooksBool(text) && !LooksInteger(text) && LooksFloat(text)
    ensures r == None <==> !LooksBool(text) && !LooksInteger(text) && !LooksFloat(text)
  {
    if LooksBool(text) then Some(Boolean)
    else if LooksInteger(text) then Some(Integer)
    else if LooksFloat(text) then Some(FPoint)
    else None
  }
}
