/**
 * The add- and update-inquiry forms: the validation rules on the text (and
 * on the hidden id of the update form), with the messages the form shows,
 * the update form's prefilled values, and the `theme_id` clean-up done in
 * place before a form is sent.  JavaScript measures a string's length in
 * UTF-16 code units, so a character outside the Basic Multilingual Plane
 * counts twice here, while the backend counts it once.
 */
module InquiryForm {
  import opened Wrappers
  import opened Decimal
  import opened QueueEditing
  import InquiryModel

  const MinInquiryLength: nat := 10
  const MaxInquiryLength: nat := 256

  const TextRequired := "Inquiry text is required."
  const NotUnicode := "Inquiry must be a valid unicode string."
  const IdRequired := "ID required."

  /** The minimum-length message, built from the constant as the template string is. */
  function TooShortMessage(): string
  {
    "Inquiry must be at least " + NatToString(MinInquiryLength) + " characters."
  }

  /** The maximum-length message, built from the constant. */
  function TooLongMessage(): string
  {
    "Inquiry can not be greater than " + NatToString(MaxInquiryLength) + " characters."
  }

  /** The two messages spelled out. */
  lemma MessagesSpelledOut()
    ensures TooShortMessage() == "Inquiry must be at least 10 characters."
    ensures TooLongMessage() == "Inquiry can not be greater than 256 characters."
  {
    assert NatToString(10) == "10" by {
      assert NatToString(1) == "1";
    }
    assert NatToString(256) == "256" by {
      assert NatToString(2) == "2";
      assert NatToString(25) == "25";
    }
  }

  /** `value.length`: UTF-16 code units, two for a character above U+FFFF. */
  function Utf16Length(s: string): (n: nat)
    ensures |s| <= n <= 2 * |s|
    ensures n == |s| <==> forall i :: 0 <= i < |s| ==> s[i] as int < 0x1_0000
    decreases |s|
  {
    if |s| == 0 then 0
    else (if s[0] as int < 0x1_0000 then 1 else 2) + Utf16Length(s[1..])
  }

  /**
   * The text field's rules in react-hook-form's order: required, minimum
   * length, maximum length, then `isValidUnicode` (a helper outside this
   * model, hence a parameter); the first failing rule's message, or `None`.
   */
  function ValidateText(value: string, isValidUnicode: string -> bool): (r: Option<string>)
    ensures r.None? <==> value != "" && MinInquiryLength <= Utf16Length(value) <= MaxInquiryLength && isValidUnicode(value)
    ensures r == Some(TextRequired) <==> value == ""
    ensures r == Some(TooShortMessage()) <==> value != "" && Utf16Length(value) < MinInquiryLength
    ensures r == Some(TooLongMessage()) <==> MaxInquiryLength < Utf16Length(value)
    ensures r == Some(NotUnicode) <==>
      MinInquiryLength <= Utf16Length(value) <= MaxInquiryLength && !isValidUnicode(value)
  {
    MessagesSpelledOut();
    if value == "" then Some(TextRequired)
    else if Utf16Length(value) < MinInquiryLength then Some(TooShortMessage())
    else if MaxInquiryLength < Utf16Length(value) then Some(TooLongMessage())
    else if !isValidUnicode(value) then Some(NotUnicode)
    else None
  }

  /** The update form's hidden id field: required. */
  function ValidateId(value: string): (r: Option<string>)
    ensures r.None? <==> value != ""
    ensures r.Some? ==> r.value == IdRequired
  {
    if value == "" then Some(IdRequired) else None
  }

  /** The update form's fields. */
  datatype UpdateFields = UpdateFields(id: string, text: string, themeId: Option<string>)

  /** The update form prefilled from the inquiry: its id and theme as text, and its text. */
  function UpdateDefaults(inquiry: InquiryView): UpdateFields
  {
    UpdateFields(IntToString(inquiry.id), inquiry.text,
                 if inquiry.themeId.Some? then Some(IntToString(inquiry.themeId.value)) else None)
  }

  /**
   * The prefilled update form keeps the inquiry's id, text and theme (they
   * read back as the stored values), and passes the id rule.
   */
  lemma UpdateDefaultsRoundTrip(inquiry: InquiryView)
    ensures var f := UpdateDefaults(inquiry);
      && ValidateId(f.id).None?
      && StringToInt(f.id) == Some(inquiry.id)
      && f.text == inquiry.text
      && (f.themeId.Some? <==> inquiry.themeId.Some?)
      && (f.themeId.Some? ==> StringToInt(f.themeId.value) == Some(inquiry.themeId.value))
  {
    IntRoundTrip(inquiry.id);
    if inquiry.themeId.Some? {
      IntRoundTrip(inquiry.themeId.value);
    }
  }

  /**
   * On text without characters above U+FFFF the form's length rules and the
   * backend's agree: the form accepts the length exactly when the backend does.
   */
  lemma LengthRulesAgreeOnBmp(s: string)
    requires forall i :: 0 <= i < |s| ==> s[i] as int < 0x1_0000
    ensures (MinInquiryLength <= Utf16Length(s) <= MaxInquiryLength) <==> InquiryModel.ValidText(s)
  {
  }

  /** Five emoji pass the form's minimum length but not the backend's. */
  lemma ShortEmojiTextDiverges()
    ensures var s := seq(5, _ => '\U{1F600}');
      && MinInquiryLength <= Utf16Length(s) <= MaxInquiryLength
      && !InquiryModel.ValidText(s)
  {
    var s := seq(5, _ => '\U{1F600}');
    Utf16AllAstral(s);
  }

  /** Two hundred emoji are within the backend's maximum but over the form's. */
  lemma LongEmojiTextDiverges()
    ensures var s := seq(200, _ => '\U{1F600}');
      && MaxInquiryLength < Utf16Length(s)
      && InquiryModel.ValidText(s)
  {
    var s := seq(200, _ => '\U{1F600}');
    assert Utf16Length(s) == 2 * |s| by {
      Utf16AllAstral(s);
    }
  }

  lemma {:induction false} Utf16AllAstral(s: string)
    requires forall i :: 0 <= i < |s| ==> 0x1_0000 <= s[i] as int
    ensures Utf16Length(s) == 2 * |s|
    decreases |s|
  {
    if |s| > 0 {
      Utf16AllAstral(s[1..]);
    }
  }

  /** `if (!data.theme_id) data.theme_id = null`: an unset or empty choice becomes null, any other is kept. */
  function NormalizedTheme(t: Option<string>): (r: Option<string>)
    ensures r.None? <==> !Truthy(t)
    ensures r.Some? ==> r == t
  {
    if Truthy(t) then t else None
  }

  /** Cleaning up twice is cleaning up once. */
  lemma NormalizedThemeIdempotent(t: Option<string>)
    ensures NormalizedTheme(NormalizedTheme(t)) == NormalizedTheme(t)
  {
  }

  /** The form data handed to `mutationFn`; the update form's data also has the id. */
  class InquiryFormData {
    var id: Option<string>
    var text: string
    var themeId: Option<string>

    constructor (id: Option<string>, text: string, themeId: Option<string>)
      ensures this.id == id && this.text == text && this.themeId == themeId
    {
      this.id := id;
      this.text := text;
      this.themeId := themeId;
    }

    /** The first statement of both forms' `mutationFn`. */
    method NormalizeTheme()
      modifies this
      ensures themeId == NormalizedTheme(old(themeId))
      ensures id == old(id) && text == old(text)
    {
      if !Truthy(themeId) {
        themeId := None;
      }
    }
  }
}
