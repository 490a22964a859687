/**
 * The constraints on an inquiry's text (backend/app/models/inquiry.py): a
 * required field of 10 to 256 characters, where pydantic counts Unicode
 * code points (a Dafny `char`), and unique in the table.
 */
module InquiryModel {
  import opened Wrappers

  const MinLength: nat := 10
  const MaxLength: nat := 256

  /** Why pydantic rejects the `text` field (status 422). */
  datatype TextIssue =
    | Missing    // "Field required"
    | TooShort   // "String should have at least 10 characters"
    | TooLong    // "String should have at most 256 characters"

  /** `Field(min_length=MIN_LENGTH, max_length=MAX_LENGTH)`: 10 to 256 characters. */
  predicate ValidText(t: string)
  {
    MinLength <= |t| <= MaxLength
  }

  /** The `Field(min_length=MIN_LENGTH, max_length=MAX_LENGTH)` check on a request's `text`, if present. */
  function CheckText(text: Option<string>): (r: Result<string, TextIssue>)
    ensures r.Ok? <==> text.Some? && ValidText(text.value)
    ensures r.Ok? ==> r.value == text.value
    ensures r == Err(Missing) <==> text.None?
    ensures r == Err(TooShort) <==> text.Some? && |text.value| < MinLength
    ensures r == Err(TooLong) <==> text.Some? && MaxLength < |text.value|
  {
    match text
    case None => Err(Missing)
    case Some(t) =>
      if |t| < MinLength then Err(TooShort)
      else if MaxLength < |t| then Err(TooLong)
      else Ok(t)
  }

  /** A stored inquiry. */
  datatype Inquiry = Inquiry(id: int, text: string)

  /** The table's constraints: valid text, unique ids, unique texts (`unique=True`). */
  predicate WellFormed(inquiries: seq<Inquiry>)
  {
    && (forall k :: 0 <= k < |inquiries| ==> ValidText(inquiries[k].text))
    && (forall i, j :: 0 <= i < j < |inquiries| ==> inquiries[i].id != inquiries[j].id)
    && (forall i, j :: 0 <= i < j < |inquiries| ==> inquiries[i].text != inquiries[j].text)
  }
}
