/** The pydantic field constraints the schemas declare, and the shape of a validation result.

    A body either validates, or fails with one error per failing field (FastAPI answers 422), or
    makes a validator raise an exception pydantic does not catch. Pydantic turns only `ValueError`
    and `AssertionError` into field errors, so any other exception leaves validation and the
    framework answers 500. */
module Fields {
  import opened Common
  import Patterns

  /** The constraint a field failed. */
  datatype Violation = TooShort | TooLong | PatternMismatch | TooSmall | TooBig

  datatype FieldError = FieldError(field: string, violation: Violation)

  datatype Parsed<+T> = Valid(value: T) | Invalid(errors: seq<FieldError>) | Escaped(exception: string)

  /** `Field(min_length=…, max_length=…, pattern=r"^[C]+$")` on a string, checked in that order;
      lengths count characters and the pattern is matched by pydantic's engine, whose `$` admits
      no final newline. */
  function StrField(minLength: Option<nat>, maxLength: Option<nat>, pattern: Option<char -> bool>,
                    value: string): (r: Option<Violation>)
    ensures r.None? <==> (minLength.Some? ==> minLength.value <= |value|)
                         && (maxLength.Some? ==> |value| <= maxLength.value)
                         && (pattern.Some? ==> Patterns.MatchPlus(pattern.value, value))
    ensures r == Some(TooShort) <==> minLength.Some? && |value| < minLength.value
    ensures r == Some(TooLong) <==> (minLength.Some? ==> minLength.value <= |value|)
                                    && maxLength.Some? && maxLength.value < |value|
    ensures r == Some(PatternMismatch) <==> (minLength.Some? ==> minLength.value <= |value|)
                                            && (maxLength.Some? ==> |value| <= maxLength.value)
                                            && pattern.Some? && !Patterns.MatchPlus(pattern.value, value)
    ensures r.Some? ==> r.value in {TooShort, TooLong, PatternMismatch}
  {
    if minLength.Some? && |value| < minLength.value then Some(TooShort)
    else if maxLength.Some? && |value| > maxLength.value then Some(TooLong)
    else if pattern.Some? && !Patterns.MatchPlus(pattern.value, value) then Some(PatternMismatch)
    else None
  }

  /** `conint(ge=…, le=…)`. */
  function IntField(ge: int, le: int, value: int): (r: Option<Violation>)
    ensures r.None? <==> ge <= value <= le
    ensures r == Some(TooSmall) <==> value < ge
    ensures r == Some(TooBig) <==> ge <= value && le < value
  {
    if value < ge then Some(TooSmall) else if value > le then Some(TooBig) else None
  }

  /** The error list one field contributes. */
  function ErrorsOf(field: string, v: Option<Violation>): (r: seq<FieldError>)
    ensures r == [] <==> v.None?
    ensures v.Some? ==> r == [FieldError(field, v.value)]
  {
    match v
    case None => []
    case Some(x) => [FieldError(field, x)]
  }
}
