/**
 Properties of the registration schema: the concrete cases the form's rules
 decide, the whole-record rule as a conjunction of the field rules, the
 default record, and the independence of the fields.
 */
module UserFormProperties {
  import opened Regex
  import opened UserFormSchema

  lemma MobileExamples()
    ensures MobileErrors("0123456789") == []
    ensures MobileErrors("12345") == [MobileMsg]
    ensures MobileErrors("12345678901") == [MobileMsg]
    ensures MobileErrors("0123456789x") == [MobileMsg]
    ensures MobileErrors("012345678x") == [MobileMsg]
  {
    assert AllAsciiDigits("0123456789");
    assert !IsAsciiDigit("012345678x"[9]);
  }

  lemma PincodeExamples()
    ensures PincodeErrors("436106") == []
    ensures PincodeErrors("43610") == [PincodeMsg]
    ensures PincodeErrors("4361067") == [PincodeMsg]
  {
  }

  lemma PasswordExamples()
    ensures PasswordErrors("12345") == [PasswordMsg]
    ensures PasswordErrors("123456") == []
  {
  }

  /** Required text fields: "" reports the field's own message, whitespace is not trimmed, gender is free text. */
  lemma RequiredFieldExamples()
    ensures FullNameErrors("") == [FullNameRequiredMsg]
    ensures AddressErrors("") == [AddressRequiredMsg]
    ensures GenderErrors("") == [GenderRequiredMsg]
    ensures FullNameErrors(" ") == [] && AddressErrors(" ") == [] && GenderErrors(" ") == []
    ensures GenderErrors("Unknown") == []
  {
  }

  /** The image boundary and the three variants; an undefined image is accepted. */
  lemma ImageExamples()
    ensures ImageErrors(File(5000000)) == []
    ensures ImageErrors(File(5000001)) == [MaxFileSizeMsg]
    ensures ImageErrors(Undefined) == []
    ensures ImageErrors(Str("https://example.com/me.png")) == []
    ensures ImageErrors(Str("")) == [ImageRequiredMsg]
  {
  }

  /** For an address the grammar rejects, the format message comes before the required message. */
  lemma EmailFormatReportedFirst(s: string, isEmail: string -> bool)
    requires !isEmail(s)
    ensures EmailErrors(s, isEmail)[0] == EmailInvalidMsg
    ensures s == "" ==> EmailErrors(s, isEmail) == [EmailInvalidMsg, EmailRequiredMsg]
  {
  }

  /**
   With an empty email the form shows "Invalid email format", not "Email is
   required!", whenever the grammar rejects the empty string.
   */
  lemma EmptyEmailShowsFormatMessage(form: UserForm, isEmail: string -> bool)
    requires form.email == "" && !isEmail("")
    ensures Email in DisplayedErrors(form, isEmail)
    ensures DisplayedErrors(form, isEmail)[Email] == EmailInvalidMsg
  {
    EmailFormatReportedFirst(form.email, isEmail);
  }

  /** A record is valid exactly when each of its eight fields is valid on its own. */
  lemma FormValidIffEveryFieldValid(form: UserForm, isEmail: string -> bool)
    ensures ValidateForm(form, isEmail) == [] <==>
      && ImageAccepted(form.image)
      && |form.fullName| >= 1
      && |form.address| >= 1
      && |form.gender| >= 1
      && isEmail(form.email) && |form.email| >= 1
      && |form.mobile| == 10 && AllAsciiDigits(form.mobile)
      && |form.pincode| == 6 && AllAsciiDigits(form.pincode)
      && |form.password| >= 6
  {
    if forall f: Field :: FieldAccepted(f, form, isEmail) {
      assert FieldAccepted(Image, form, isEmail) && FieldAccepted(FullName, form, isEmail);
      assert FieldAccepted(Address, form, isEmail) && FieldAccepted(Gender, form, isEmail);
      assert FieldAccepted(Email, form, isEmail) && FieldAccepted(Mobile, form, isEmail);
      assert FieldAccepted(Pincode, form, isEmail) && FieldAccepted(Password, form, isEmail);
    } else {
      var f: Field :| !FieldAccepted(f, form, isEmail);
    }
  }

  /** The default record passes every rule except the email grammar, which it meets when `isEmail` accepts it. */
  lemma DefaultValuesAccepted(isEmail: string -> bool)
    ensures forall f: Field :: f != Email ==> FieldAccepted(f, DefaultValues, isEmail)
    ensures isEmail("abc@gmail.com") <==> ValidateForm(DefaultValues, isEmail) == []
  {
    var d := DefaultValues;
    assert MatchDigits(d.mobile, 10) by { MobileExamples(); }
    assert MatchDigits(d.pincode, 6) by { PincodeExamples(); }
    forall f: Field | f != Email
      ensures FieldAccepted(f, d, isEmail)
    {
    }
    FormValidIffEveryFieldValid(d, isEmail);
  }

  /** Submitting the untouched form hands on the default record when the grammar accepts its address. */
  lemma DefaultValuesSubmitted(isEmail: string -> bool)
    requires isEmail("abc@gmail.com")
    ensures HandleSubmit(DefaultValues, isEmail) == Submitted(DefaultValues)
  {
    DefaultValuesAccepted(isEmail);
  }

  /** One invalid field is enough to stop submission, whatever the others hold. */
  lemma OneInvalidFieldBlocksSubmit(form: UserForm, f: Field, isEmail: string -> bool)
    requires !FieldAccepted(f, form, isEmail)
    ensures HandleSubmit(form, isEmail).Rejected?
    ensures f in HandleSubmit(form, isEmail).shown
    ensures exists e :: e in ValidateForm(form, isEmail) && e.field == f
  {
  }

  /** Two records hold the same value in field `f`. */
  predicate SameValueAt(f: Field, a: UserForm, b: UserForm) {
    match f
    case Image => a.image == b.image
    case FullName => a.fullName == b.fullName
    case Address => a.address == b.address
    case Gender => a.gender == b.gender
    case Email => a.email == b.email
    case Mobile => a.mobile == b.mobile
    case Pincode => a.pincode == b.pincode
    case Password => a.password == b.password
  }

  /** No cross-field rules: a field's messages depend on that field's value alone. */
  lemma FieldErrorsAreLocal(f: Field, a: UserForm, b: UserForm, isEmail: string -> bool)
    requires SameValueAt(f, a, b)
    ensures FieldErrors(f, a, isEmail) == FieldErrors(f, b, isEmail)
    ensures f in DisplayedErrors(a, isEmail) <==> f in DisplayedErrors(b, isEmail)
  {
  }
}
