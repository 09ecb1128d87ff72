/** One declared option and its accumulated values. */
module OptionRecord {
  import opened Wrappers
  import opened Literals
  import opened OptionType
  import opened Errors

  /** Stands for "no short flag". */
  const EmptyShortForm: char := ' '

  /**
   * Write-time validation of `add_value`: an Undefined option refuses every
   * value, a String option takes any text, and a Boolean, Integer or FPoint
   * option refuses text that looks like one of the other two kinds.
   */
  function AddValueCheck(typ: OptType, text: string): (r: Outcome<ErrorKind>)
    ensures typ == Undefined ==> r == Fail(OptionTypeUndefined)
    ensures typ == String ==> r == Pass
    ensures typ != Undefined && typ != String ==>
      (r.Pass? <==> Classify(text).None? || Classify(text) == Some(typ))
    ensures typ != Undefined && r.Fail? ==>
      Classify(text).Some? && Classify(text).value != typ && r.error == MismatchKind(Classify(text).value)
  {
    if typ == Undefined then Fail(OptionTypeUndefined)
    else if typ == String then Pass
    else
      match Classify(text)
      case None => Pass
      case Some(looks) => if looks == typ then Pass else Fail(MismatchKind(looks))
  }

  /** The flags text of an option: "-c", "--config" or "-c/--config". */
  function GetFlags(shortForm: char, longForm: string): (r: string)
    ensures r == [] <==> shortForm == EmptyShortForm && longForm == []
    ensures shortForm != EmptyShortForm && longForm == [] ==> r == ['-', shortForm]
    ensures shortForm == EmptyShortForm && longForm != [] ==> r == "--" + longForm
    ensures shortForm != EmptyShortForm && longForm != [] ==> r == ['-', shortForm, '/'] + "--" + longForm
  {
    var short := if shortForm != EmptyShortForm then ['-', shortForm] else [];
    if longForm == [] then short
    else if short == [] then "--" + longForm
    else short + "/" + "--" + longForm
  }

  /**
   * The handle returned at registration.  The original hashes the short flag
   * (when present) and then the long flag (when present); the model keeps the
   * hashed parts themselves, so two handles are equal exactly when the hash
   * inputs are.
   */
  datatype Fingerprint = Fingerprint(short: Option<char>, long: Option<string>)

  /**
   * The handle of a flag pair: the flags that are present. That distinct
   * pairs get distinct handles is `FingerprintInjective`.
   */
  function FingerprintOf(shortForm: char, longForm: string): (fp: Fingerprint)
    ensures fp.short == if shortForm != EmptyShortForm then Some(shortForm) else None
    ensures fp.long == if longForm != [] then Some(longForm) else None
  {
    Fingerprint(if shortForm != EmptyShortForm then Some(shortForm) else None,
                if longForm != [] then Some(longForm) else None)
  }

  /** Different flag pairs always have different handles. */
  lemma FingerprintInjective(short1: char, long1: string, short2: char, long2: string)
    ensures FingerprintOf(short1, long1) == FingerprintOf(short2, long2) <==> short1 == short2 && long1 == long2
  {
    if FingerprintOf(short1, long1) == FingerprintOf(short2, long2) {
      assert FingerprintOf(short1, long1).short == FingerprintOf(short2, long2).short;
      assert FingerprintOf(short1, long1).long == FingerprintOf(short2, long2).long;
    }
  }

  class CommandLineOption {
    const shortForm: char
    const longForm: string
    const mandatory: bool
    const argText: string
    const helpText: string
    const typ: OptType
    var values: seq<string>

    constructor (shortForm: char, longForm: string, typ: OptType, mandatory: bool,
                 argText: string, helpText: string)
      ensures this.shortForm == shortForm && this.longForm == longForm && this.typ == typ
      ensures this.mandatory == mandatory && this.argText == argText && this.helpText == helpText
      ensures values == []
    {
      this.shortForm := shortForm;
      this.longForm := longForm;
      this.typ := typ;
      this.mandatory := mandatory;
      this.argText := argText;
      this.helpText := helpText;
      values := [];
    }

    function Fingerprint(): Fingerprint {
      FingerprintOf(shortForm, longForm)
    }

    /** Validate `text` against the option's type and, if accepted, append it. */
    method AddValue(text: string) returns (r: Outcome<ErrorKind>)
      modifies this
      ensures r == AddValueCheck(typ, text)
      ensures values == if r.Pass? then old(values) + [text] else old(values)
    {
      if typ != Undefined {
        if typ != String {
          if LooksBool(text) {
            if typ != Boolean {
              return Fail(BooleanOptionMismatchValueSet);
            }
          } else if LooksInteger(text) {
            if typ != Integer {
              return Fail(IntegerOptionMismatchValueSet);
            }
          } else if LooksFloat(text) {
            if typ != FPoint {
              return Fail(FPointOptionMismatchValueSet);
            }
          }
        }
      } else {
        return Fail(OptionTypeUndefined);
      }
      values := values + [text];
      r := Pass;
    }
  }

  /** `CommandLineOption::eq`: same type tag, short flag and long flag. */
  predicate SameOption(a: CommandLineOption, b: CommandLineOption)
    ensures SameOption(a, b) ==> GetFlags(a.shortForm, a.longForm) == GetFlags(b.shortForm, b.longForm)
  {
    a.typ == b.typ && a.shortForm == b.shortForm && a.longForm == b.longForm
  }

  /** Equal options always have equal handles. */
  lemma SameOptionSameFingerprint(a: CommandLineOption, b: CommandLineOption)
    requires SameOption(a, b)
    ensures a.Fingerprint() == b.Fingerprint()
  {
  }

  /** The error reported against an option: its flags text and its type. */
  function OptionError(o: CommandLineOption, kind: ErrorKind): (e: ParserError)
    ensures e.flags == GetFlags(o.shortForm, o.longForm) && e.typ == o.typ && e.kind == kind
  {
    ParserError(GetFlags(o.shortForm, o.longForm), o.typ, kind)
  }

  /** "-12" looks like an integer: it is bound to an Integer option and refused by a Boolean one. */
  lemma NegativeIntegerExample()
    ensures AddValueCheck(Integer, "-12") == Pass
    ensures AddValueCheck(Boolean, "-12") == Fail(IntegerOptionMismatchValueSet)
  {
    assert "-12"[1..] == "12";
    assert "12"[..1] == "1";
    assert DigitsValue("12") == 12;
    assert IntegerValue("-12", true) == Some(-12);
    assert LooksInteger("-12");
  }

  /** "123.3" looks like a floating-point number, so an Integer option refuses it. */
  lemma DecimalExample()
    ensures AddValueCheck(Integer, "123.3") == Fail(FPointOptionMismatchValueSet)
  {
    // Neither `bool` nor `i128`: the fourth character is not a digit.
    assert !IsDigit("123.3"[3]);
    DecimalIsFloat();
  }

  /** "123.3" is digits with one '.', so it parses as `f64`. */
  lemma DecimalIsFloat()
    ensures LooksFloat("123.3")
  {
    var t := "123.3";
    ToLowerKeeps(t);
    assert !IsSign(t[0]);
    assert IndexOf(t, 'e') == None by {
      assert 'e' !in t;
    }
    DecimalIsMantissa();
    assert IsDecimal(t);
    assert IsFloatText(t);
  }

  /** Step of `DecimalIsFloat`, kept apart so that each proof stays small. */
  lemma DecimalIsMantissa()
    ensures IsMantissa("123.3")
  {
    var t := "123.3";
    assert IndexOf(t, '.') == Some(3) by {
      assert t[..3] == "123";
    }
    assert t[..3] == "123" && t[4..] == "3";
  }

  /**
   * Integer-looking text is refused by an FPoint option with the integer
   * mismatch, because the `i128` test comes before the `f64` test.
   */
  lemma FPointRefusesIntegerText(text: string)
    requires LooksInteger(text)
    ensures AddValueCheck(FPoint, text) == Fail(IntegerOptionMismatchValueSet)
  {
  }

  /** Text that looks like none of the three kinds is taken by any defined option. */
  lemma PlainTextAccepted(typ: OptType, text: string)
    requires typ != Undefined && Classify(text).None?
    ensures AddValueCheck(typ, text) == Pass
  {
  }
}
