/** The part of the serializer framework the two serializers rely on: reading
    one field of a request body, with the framework's own messages for a
    missing, null, blank or over-long value. Whitespace trimming and the
    generated uniqueness validators are not part of this model. */
module Fields {
  import opened Outcomes
  import opened Text
  import opened Records

  /** The outcome of validating one field. */
  datatype Checked<T> = Accepted(value: T) | Rejected(message: string)

  const REQUIRED_MSG: string := "This field is required."
  const NULL_MSG: string := "This field may not be null."
  const BLANK_MSG: string := "This field may not be blank."

  function TooLongMsg(maxLength: nat): string {
    "Ensure this field has no more than " + NatToString(maxLength) + " characters."
  }

  /** The text a JSON value stands for, as a character field reads it: a
      number is read as its decimal form. */
  function AsText(v: Value): Option<string> {
    match v
    case Str(s) => Some(s)
    case Num(n) => Some(IntToString(n))
    case Null => None
  }

  /** A character field with a length limit, applied to a value that is
      present in the request. */
  function CharValue(v: Value, maxLength: nat): (r: Checked<string>)
    ensures r.Accepted? <==> v != Null && AsText(v).value != "" && |AsText(v).value| <= maxLength
    ensures r.Accepted? ==> r.value == AsText(v).value
  {
    match AsText(v)
    case None => Rejected(NULL_MSG)
    case Some(text) =>
      if text == "" then Rejected(BLANK_MSG)
      else if |text| > maxLength then Rejected(TooLongMsg(maxLength))
      else Accepted(text)
  }

  /** A required character field: a missing key is an error. */
  function RequiredChar(data: Body, key: string, maxLength: nat): (r: Checked<string>)
    ensures key !in data ==> r == Rejected(REQUIRED_MSG)
    ensures key in data ==> r == CharValue(data[key], maxLength)
  {
    if key in data then CharValue(data[key], maxLength) else Rejected(REQUIRED_MSG)
  }

  /** A non-empty string within the limit is accepted as it is. */
  lemma RequiredCharAccepts(data: Body, key: string, maxLength: nat, s: string)
    requires key in data && data[key] == Str(s) && s != "" && |s| <= maxLength
    ensures RequiredChar(data, key, maxLength) == Accepted(s)
  {
  }

  /** The single-message error map for a rejected field, empty otherwise. */
  function ErrorEntry<T>(key: string, c: Checked<T>): (m: FieldErrors)
    ensures c.Rejected? ==> m == map[key := [c.message]]
    ensures c.Accepted? ==> m == map[]
  {
    if c.Rejected? then map[key := [c.message]] else map[]
  }
}
