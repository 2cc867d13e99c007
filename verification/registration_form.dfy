/** The registration form: `validateForm` and the field-update rules of
    `handleChange`. */
module RegistrationForm {
  import opened Wrappers
  import opened JsText

  datatype FormData = FormData(
    name: string,
    gender: string,
    whatsappExtension: string,
    whatsappNumber: string,
    schoolOrganization: string,
    contactExtension: string,
    contactNumber: string,
    isWhatsappSameAsContact: bool)

  /** The form as first shown. */
  const InitialForm: FormData := FormData("", "", "+91", "", "", "+1", "", false)

  /** The per-field messages; `None` is an absent key. */
  datatype FormErrors = FormErrors(
    name: Option<string>,
    gender: Option<string>,
    whatsappNumber: Option<string>,
    contactNumber: Option<string>,
    schoolOrganization: Option<string>)

  const NoErrors: FormErrors := FormErrors(None, None, None, None, None)

  const NameMessage: string := "Name should be 2-50 characters long and contain only letters"
  const GenderMessage: string := "Please select a gender"
  const WhatsappMessage: string := "WhatsApp number should be exactly 10 digits"
  const ContactRequiredMessage: string := "Contact number is required"
  const ContactMessage: string := "Contact number should be exactly 10 digits"
  const SchoolRequiredMessage: string := "School/Organization is required"
  const SchoolMessage: string := "Please enter a valid school or organization name (2-100 characters)"

  /** The class `[a-zA-Z\s'.,-]`. */
  predicate NameChar(c: char) {
    IsAsciiLetter(c) || IsSpace(c) || c == '\'' || c == '.' || c == ',' || c == '-'
  }

  /** The class `[a-zA-Z0-9\s'.,-]`. */
  predicate SchoolChar(c: char) {
    NameChar(c) || IsDigit(c)
  }

  /** `/^[a-zA-Z\s'.,-]{2,50}$/.test(s)`. */
  predicate NameShaped(s: string) {
    2 <= |s| <= 50 && forall i :: 0 <= i < |s| ==> NameChar(s[i])
  }

  /** `/^[a-zA-Z0-9\s'.,-]{2,100}$/.test(s)`. */
  predicate SchoolShaped(s: string) {
    2 <= |s| <= 100 && forall i :: 0 <= i < |s| ==> SchoolChar(s[i])
  }

  /** `/^\d{10}$/.test(s)`. */
  predicate TenDigits(s: string) {
    |s| == 10 && AllDigits(s)
  }

  datatype Validation = Validation(errors: FormErrors, ok: bool)

  /** `validateForm`: one message per failing field, and success exactly
      when no message was recorded. */
  function ValidateForm(f: FormData): (v: Validation)
    ensures v.ok <==> v.errors == NoErrors
    ensures v.errors.name.Some? <==> !NameShaped(Trim(f.name))
    ensures v.errors.gender.Some? <==> f.gender == ""
    ensures v.errors.whatsappNumber.Some? <==> !TenDigits(f.whatsappNumber)
    ensures v.errors.contactNumber.Some? <==> !f.isWhatsappSameAsContact && !TenDigits(f.contactNumber)
    ensures v.errors.contactNumber == Some(ContactRequiredMessage) <==>
              !f.isWhatsappSameAsContact && f.contactNumber == ""
    ensures v.errors.schoolOrganization.Some? <==> !SchoolShaped(Trim(f.schoolOrganization))
    ensures v.errors.schoolOrganization == Some(SchoolRequiredMessage) <==> Trim(f.schoolOrganization) == ""
  {
    var name := if !NameShaped(Trim(f.name)) then Some(NameMessage) else None;
    var gender := if f.gender == "" then Some(GenderMessage) else None;
    var whatsapp := if !TenDigits(f.whatsappNumber) then Some(WhatsappMessage) else None;
    var contact :=
      if f.isWhatsappSameAsContact then None
      else if f.contactNumber == "" then Some(ContactRequiredMessage)
      else if !TenDigits(f.contactNumber) then Some(ContactMessage)
      else None;
    var school := Trim(f.schoolOrganization);
    var schoolError :=
      if school == "" then Some(SchoolRequiredMessage)
      else if !SchoolShaped(school) then Some(SchoolMessage)
      else None;
    var errors := FormErrors(name, gender, whatsapp, contact, schoolError);
    Validation(errors, errors == NoErrors)
  }

  // ---------------------------------------------------------------------
  // Field updates

  /** The text inputs and selects, by their `name` attribute. */
  datatype Field = Name | Gender | WhatsappExtension | WhatsappNumber | SchoolOrganization
                 | ContactExtension | ContactNumber

  function Key(f: Field): string {
    match f
    case Name => "name"
    case Gender => "gender"
    case WhatsappExtension => "whatsappExtension"
    case WhatsappNumber => "whatsappNumber"
    case SchoolOrganization => "schoolOrganization"
    case ContactExtension => "contactExtension"
    case ContactNumber => "contactNumber"
  }

  /** A change event: a value typed or selected, or the
      "isWhatsappSameAsContact" checkbox toggled. */
  datatype ChangeEvent = Edit(field: Field, value: string) | Toggle(checked: bool)

  datatype FormState = FormState(data: FormData, errors: FormErrors)

  /** `value.replace(/\D/g, '').slice(0, 10)`. */
  function Sanitize(value: string): (r: string)
    ensures AllDigits(r)
    ensures |r| <= 10
    ensures IsPrefix(r, DigitsOf(value))
    ensures |DigitsOf(value)| >= 10 ==> |r| == 10
    ensures |DigitsOf(value)| < 10 ==> r == DigitsOf(value)
  {
    Slice(DigitsOf(value), 0, 10)
  }

  /** Sanitising a sanitised value changes nothing. */
  lemma SanitizeIdempotent(value: string)
    ensures Sanitize(Sanitize(value)) == Sanitize(value)
  {
    DigitsOfDigits(Sanitize(value));
  }

  /** `{ ...prevData, [name]: value }`. */
  function SetField(d: FormData, f: Field, v: string): FormData {
    match f
    case Name => d.(name := v)
    case Gender => d.(gender := v)
    case WhatsappExtension => d.(whatsappExtension := v)
    case WhatsappNumber => d.(whatsappNumber := v)
    case SchoolOrganization => d.(schoolOrganization := v)
    case ContactExtension => d.(contactExtension := v)
    case ContactNumber => d.(contactNumber := v)
  }

  /** The error shown under a field; the extension selects never carry one. */
  function ErrorOf(e: FormErrors, f: Field): Option<string> {
    match f
    case Name => e.name
    case Gender => e.gender
    case WhatsappNumber => e.whatsappNumber
    case ContactNumber => e.contactNumber
    case SchoolOrganization => e.schoolOrganization
    case WhatsappExtension => None
    case ContactExtension => None
  }

  /** `{ ...prev, [name]: undefined }` on the errors object: the edited
      field shows no error and every other field keeps its own. */
  function ClearError(e: FormErrors, f: Field): (r: FormErrors)
    ensures ErrorOf(r, f) == None
    ensures forall g :: g != f ==> ErrorOf(r, g) == ErrorOf(e, g)
  {
    match f
    case Name => e.(name := None)
    case Gender => e.(gender := None)
    case WhatsappNumber => e.(whatsappNumber := None)
    case ContactNumber => e.(contactNumber := None)
    case SchoolOrganization => e.(schoolOrganization := None)
    case _ => e
  }

  /** `handleChange`, branch for branch: checkbox, phone fields, others. */
  function HandleChange(s: FormState, ev: ChangeEvent): (t: FormState)
    ensures ev.Toggle? ==> t.errors == s.errors && t.data.isWhatsappSameAsContact == ev.checked
    ensures ev.Edit? ==> t.errors == ClearError(s.errors, ev.field)
                         && t.data.isWhatsappSameAsContact == s.data.isWhatsappSameAsContact
    ensures ev.Toggle? ==> t.data.(isWhatsappSameAsContact := s.data.isWhatsappSameAsContact,
                                   contactNumber := s.data.contactNumber,
                                   contactExtension := s.data.contactExtension) == s.data
  {
    var prev := s.data;
    match ev
    case Toggle(checked) =>
      var d := prev.(isWhatsappSameAsContact := checked);
      var d' := if checked then d.(contactNumber := prev.whatsappNumber, contactExtension := prev.whatsappExtension) else d;
      FormState(d', s.errors)
    case Edit(field, value) =>
      var errors := ClearError(s.errors, field);
      if Key(field) == "whatsappNumber" || Key(field) == "contactNumber" then
        var v := Sanitize(value);
        var d := SetField(prev, field, v);
        var d' := if Key(field) == "whatsappNumber" && prev.isWhatsappSameAsContact then d.(contactNumber := v) else d;
        FormState(d', errors)
      else
        var d := SetField(prev, field, value);
        var d' :=
          if Includes(Key(field), "whatsapp") && prev.isWhatsappSameAsContact then
            d.(contactNumber := if Key(field) == "whatsappNumber" then value else prev.contactNumber,
               contactExtension := if Key(field) == "whatsappExtension" then value else prev.contactExtension)
          else d;
        FormState(d', errors)
  }

  /** A string without the needle's first character cannot contain it. */
  lemma {:induction false} MissingFirstChar(hay: string, needle: string)
    requires needle != [] && needle[0] !in hay
    ensures !Includes(hay, needle)
    decreases |hay|
  {
    if hay != [] {
      MissingFirstChar(hay[1..], needle);
    }
  }

  /** Of the field names, exactly the two WhatsApp ones contain "whatsapp". */
  lemma {:induction false} KeyMentionsWhatsapp(f: Field)
    ensures Includes(Key(f), "whatsapp") <==> f == WhatsappExtension || f == WhatsappNumber
  {
    var w := "whatsapp";
    if f == WhatsappExtension || f == WhatsappNumber {
      assert IsPrefix(w, Key(f));
    } else {
      assert w[0] !in Key(f);
      MissingFirstChar(Key(f), w);
    }
  }

  /** The "same as WhatsApp" box keeps the contact fields equal to the
      WhatsApp fields. */
  predicate Mirrored(d: FormData) {
    d.isWhatsappSameAsContact ==>
      d.contactNumber == d.whatsappNumber && d.contactExtension == d.whatsappExtension
  }

  /** The form as first shown has the box unticked, so it is mirrored,
      and it does not validate. */
  lemma InitialFormMirrored()
    ensures Mirrored(InitialForm)
    ensures !ValidateForm(InitialForm).ok
    ensures ValidateForm(InitialForm).errors.contactNumber == Some(ContactRequiredMessage)
  {
  }

  /** Ticking the box copies the WhatsApp number and extension into the
      contact fields; unticking leaves them as they were. */
  lemma ToggleCopies(s: FormState, checked: bool)
    ensures var d := HandleChange(s, Toggle(checked)).data;
            && d.isWhatsappSameAsContact == checked
            && (checked ==> d.contactNumber == s.data.whatsappNumber
                            && d.contactExtension == s.data.whatsappExtension)
            && (!checked ==> d == s.data.(isWhatsappSameAsContact := false))
            && Mirrored(d)
  {
  }

  /** While the box is ticked the contact inputs are not rendered, so
      every event that can occur keeps the contact fields mirroring the
      WhatsApp fields. */
  lemma EditsKeepMirror(s: FormState, ev: ChangeEvent)
    requires Mirrored(s.data)
    requires s.data.isWhatsappSameAsContact && ev.Edit? ==>
               ev.field != ContactNumber && ev.field != ContactExtension
    ensures Mirrored(HandleChange(s, ev).data)
  {
    if ev.Edit? {
      KeyMentionsWhatsapp(ev.field);
    }
  }

  /** What an edit does, field by field, and that nothing else changes:
      a phone field stores the sanitised value (a ticked box copies the
      WhatsApp one into the contact number), a ticked box copies the
      WhatsApp extension into the contact extension, the other fields
      store the value as typed, and only the edited field's error clears. */
  lemma EditEffect(s: FormState, f: Field, value: string)
    ensures var t := HandleChange(s, Edit(f, value));
            var ticked := s.data.isWhatsappSameAsContact;
            var v := Sanitize(value);
            && t.errors == ClearError(s.errors, f)
            && (f == WhatsappNumber ==>
                  t.data == s.data.(whatsappNumber := v,
                                    contactNumber := if ticked then v else s.data.contactNumber))
            && (f == ContactNumber ==> t.data == s.data.(contactNumber := v))
            && (f == WhatsappExtension ==>
                  t.data == s.data.(whatsappExtension := value,
                                    contactExtension := if ticked then value else s.data.contactExtension))
            && (f != WhatsappNumber && f != ContactNumber && f != WhatsappExtension ==>
                  t.data == SetField(s.data, f, value))
  {
    KeyMentionsWhatsapp(f);
  }

  /** Whatever is typed into a phone field, once it has at least ten
      digits the stored value passes the ten-digit check. */
  lemma SanitizedPhonePasses(value: string)
    requires |DigitsOf(value)| >= 10
    ensures TenDigits(Sanitize(value))
  {
  }

  /** A form that validates carries trimmed name and school texts of the
      allowed shapes and WhatsApp (and, unless mirrored, contact) numbers
      of exactly ten digits, each of which sanitising leaves unchanged. */
  lemma ValidFormIsWellFormed(f: FormData)
    requires ValidateForm(f).ok
    ensures 2 <= |Trim(f.name)| <= 50 && 2 <= |Trim(f.schoolOrganization)| <= 100
    ensures f.gender != ""
    ensures Sanitize(f.whatsappNumber) == f.whatsappNumber
    ensures !f.isWhatsappSameAsContact ==> Sanitize(f.contactNumber) == f.contactNumber
  {
    DigitsOfDigits(f.whatsappNumber);
    if !f.isWhatsappSameAsContact {
      DigitsOfDigits(f.contactNumber);
    }
  }

  /** A ticked box never yields a contact-number error. */
  lemma MirroredHasNoContactError(f: FormData)
    requires f.isWhatsappSameAsContact
    ensures ValidateForm(f).errors.contactNumber == None
  {
  }
}
