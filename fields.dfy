/**
 * The REST framework's text field as the serializers declare it
 * (`required=True`, blank not allowed, `trim_whitespace` on, an optional
 * `min_length` and extra validators): how one raw request value becomes a
 * validated value or a field error.
 */
module Fields {
  import opened Wrappers
  import opened Text

  /** Why a single field is rejected; each becomes an entry keyed by the field's name in the 400 body. */
  datatype FieldError = Required | Blank | TooShort | NullCharacter | Rejected

  /** The keys of a 400 response body: field names, or `non_field_errors`. */
  datatype Invalid = Invalid(fields: set<string>)

  const NonFieldErrors := "non_field_errors"

  /**
   * Cleans one text field: missing is `Required`, whitespace only is `Blank`,
   * fewer than `minLength` characters after stripping is `TooShort`, a NUL
   * character is `NullCharacter` (the validator every text field carries),
   * and a value the field's extra validators refuse is `Rejected`.
   */
  function CleanText(raw: Option<string>, minLength: nat, accepts: string -> bool): (r: Result<string, FieldError>)
    ensures r.Success? <==>
      && raw.Some? && Trim(raw.value) != "" && |Trim(raw.value)| >= minLength
      && '\0' !in Trim(raw.value) && accepts(Trim(raw.value))
    ensures raw.None? <==> r == Failure(Required)
    ensures r.Success? ==> r.value == Trim(raw.value) && |r.value| >= minLength
  {
    match raw
    case None => Failure(Required)
    case Some(s) =>
      var t := Trim(s);
      if t == "" then Failure(Blank)
      else if |t| < minLength then Failure(TooShort)
      else if '\0' in t then Failure(NullCharacter)
      else if !accepts(t) then Failure(Rejected)
      else Success(t)
  }

  /** A field without extra validators. */
  function AnyText(s: string): bool { true }

  /** A cleaned value submitted again is accepted as it is: cleaning is idempotent. */
  lemma CleanTextIdempotent(raw: Option<string>, minLength: nat, accepts: string -> bool)
    requires CleanText(raw, minLength, accepts).Success?
    ensures CleanText(Some(CleanText(raw, minLength, accepts).value), minLength, accepts)
         == CleanText(raw, minLength, accepts)
  {
    TrimIdempotent(raw.value);
  }

  /** The set of names of the fields whose cleaning failed. */
  function FailedFields<T>(name: string, r: Result<T, FieldError>): set<string> {
    if r.Failure? then {name} else {}
  }
}
