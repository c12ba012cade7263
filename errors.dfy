/** The schema-validation error taxonomy: one constructor per kind of
    constraint violation plus a composite that groups several of them.
    Every value reports a status code (`Code`, 422 for every kind) and a
    message rendered from one fixed template per kind (`Message`, the
    `Error()` string). The parameter location, `in` in the Go
    signatures, is called `location` here because `in` is a Dafny keyword. */
module Errors {

  import opened Wrappers
  import opened Decimal
  import opened Text

  /** HTTP 422 Unprocessable Entity, the status of every validation failure. */
  const UnprocessableEntity: int := 422

  /** The value that failed a type check: nothing (nil), an error that
      explains the failure (only its message matters), or a string value,
      printed between double quotes. */
  datatype Value = Absent | ErrVal(msg: string) | Plain(s: string)

  datatype ValidationError =
    | InvalidType(name: string, location: string, typeName: string, value: Value)
    | DuplicateItems(name: string, location: string)
    | TooManyItems(name: string, location: string, max: int)
    | TooFewItems(name: string, location: string, min: int)
    | ExceedsMaximum(name: string, location: string, max: int, exclusive: bool)
    | ExceedsMinimum(name: string, location: string, min: int, exclusive: bool)
    | NotMultipleOf(name: string, location: string, factor: int)
    | EnumFail(name: string, location: string, actual: string, options: seq<string>)
    | Required(name: string, location: string)
    | TooLong(name: string, location: string, max: int)
    | TooShort(name: string, location: string, min: int)
    | FailedPattern(name: string, location: string, pattern: string)
    | InvalidTypeName(typeName: string)
    | InvalidCollectionFormat(name: string, location: string, format: string)
    | CompositeValidationError(errors: seq<ValidationError>)

  /** The status code the error reports; the same for every kind. */
  function Code(e: ValidationError): int
  {
    UnprocessableEntity
  }

  /** The kinds whose message starts with "<name> in <location> ". */
  predicate HasLocationPrefix(e: ValidationError) {
    !e.InvalidTypeName? && !e.InvalidCollectionFormat? && !e.CompositeValidationError?
  }

  function LocationPrefix(name: string, location: string): string {
    name + " in " + location + " "
  }

  /** The suffix the type-check failure gets for each shape of the value. */
  function TypeSuffix(v: Value): string {
    match v
    case Absent => ""
    case ErrVal(m) => ", because: " + m
    case Plain(s) => ": " + Quote(s)
  }

  /** The options of an enumeration, as a bracketed, space-separated list. */
  function OptionList(options: seq<string>): string {
    "[" + SpaceJoin(options) + "]"
  }

  /** The words an inclusive bound adds after "less than" or "greater than". */
  function InclusiveWords(exclusive: bool): string {
    if exclusive then "" else " or equal to"
  }

  /** What follows the location prefix, for the kinds that have one. */
  function Clause(e: ValidationError): string
    requires HasLocationPrefix(e)
  {
    match e
    case InvalidType(_, _, t, v) => "must be of type " + t + TypeSuffix(v)
    case DuplicateItems(_, _) => "shouldn't contain duplicates"
    case TooManyItems(_, _, m) => "should have at most " + IntToDecimal(m) + " items"
    case TooFewItems(_, _, m) => "should have at least " + IntToDecimal(m) + " items"
    case ExceedsMaximum(_, _, m, x) => "should be less than" + InclusiveWords(x) + " " + IntToDecimal(m)
    case ExceedsMinimum(_, _, m, x) => "should be greater than" + InclusiveWords(x) + " " + IntToDecimal(m)
    case NotMultipleOf(_, _, f) => "should be a multiple of " + IntToDecimal(f)
    case EnumFail(_, _, _, opts) => "should be one of " + OptionList(opts)
    case Required(_, _) => "is required"
    case TooLong(_, _, m) => "should be at most " + IntToDecimal(m) + " chars long"
    case TooShort(_, _, m) => "should be at least " + IntToDecimal(m) + " chars long"
    case FailedPattern(_, _, p) => "should match '" + p + "'"
  }

  /** The error's message. */
  function Message(e: ValidationError): string {
    match e
    case InvalidTypeName(t) => t + " is an invalid type name"
    case InvalidCollectionFormat(n, l, f) =>
      "the collection format \"" + f + "\" is not supported for the " + l + " param \"" + n + "\""
    case CompositeValidationError(_) => "validation failure list"
    case _ => LocationPrefix(e.name, e.location) + Clause(e)
  }

  /** The message of a type-check failure without any suffix. */
  function TypeBase(name: string, location: string, typeName: string): string {
    LocationPrefix(name, location) + "must be of type " + typeName
  }

  /** Reads back the value of a type-check failure from its suffix. */
  function ValueOfSuffix(suffix: string): Option<Value> {
    if suffix == "" then Some(Absent)
    else if |suffix| >= 11 && suffix[..11] == ", because: " then Some(ErrVal(suffix[11..]))
    else if |suffix| >= 4 && suffix[..2] == ": " && suffix[2..] == Quote(Unquote(suffix[2..]))
    then Some(Plain(Unquote(suffix[2..])))
    else None
  }

  /** Reads back the value of a type-check failure for the given name,
      location and type from a message, if the message is one. */
  function InvalidTypeValue(name: string, location: string, typeName: string, msg: string): Option<Value> {
    var base := TypeBase(name, location, typeName);
    if base <= msg then ValueOfSuffix(msg[|base|..]) else None
  }
}
