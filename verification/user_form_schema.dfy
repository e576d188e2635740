/**
 The registration form's schema (`fileSchema` and `userFormSchema`) as pure
 validators: one per field, each returning the ordered messages zod
 reports (empty when the value is accepted), and a whole-record validator
 that concatenates them in schema order. Each field rule reads only its own
 field; there are no cross-field rules.
 */
module UserFormSchema {
  import opened Regex
  import opened Zod

  const MaxFileSize: nat := 5000000

  const MaxFileSizeMsg: string := "Max file size is 5MB"
  const ImageRequiredMsg: string := "Image is required!"
  const FullNameRequiredMsg: string := "Full Name is required!"
  const AddressRequiredMsg: string := "Address is required!"
  const GenderRequiredMsg: string := "Gender is required!"
  const EmailInvalidMsg: string := "Invalid email format"
  const EmailRequiredMsg: string := "Email is required!"
  const MobileMsg: string := "Mobile number must be exactly 10 digits"
  const PincodeMsg: string := "Pincode must be exactly 6 digits"
  const PasswordMsg: string := "Password must be at least 6 characters"

  /** The `image` field: an uploaded file (only its size matters), a string reference, or nothing. */
  datatype ImageValue = File(size: nat) | Str(s: string) | Undefined

  // ---------------------------------------------------------------------
  // image
  // ---------------------------------------------------------------------

  /** `zod.instanceof(File).refine(file => file.size <= 5000000, ...)`; a non-file aborts. */
  function FileOption(v: ImageValue): Status {
    match v
    case File(size) => if size <= MaxFileSize then Valid else Dirty([MaxFileSizeMsg])
    case _ => Aborted
  }

  /** `zod.undefined()`. */
  function UndefinedOption(v: ImageValue): Status {
    if v.Undefined? then Valid else Aborted
  }

  /** `zod.string().refine(val => !!val, "Image is required!")`; only "" is a falsy string. */
  function ImageStringOption(v: ImageValue): Status {
    match v
    case Str(s) => if s != "" then Valid else Dirty([ImageRequiredMsg])
    case _ => Aborted
  }

  /**
   `fileSchema`: a file within the size limit or nothing passes, an
   oversized file fails its refinement, and a string is rejected outright.
   */
  function FileSchema(v: ImageValue): (r: Status)
    ensures r.Valid? <==> v.Undefined? || (v.File? && v.size <= MaxFileSize)
    ensures r.Dirty? <==> v.File? && v.size > MaxFileSize
    ensures r.Dirty? ==> r.issues == [MaxFileSizeMsg]
    ensures v.Str? ==> r.Aborted?
  {
    UnionOfTwo(FileOption(v), UndefinedOption(v));
    Union([FileOption(v), UndefinedOption(v)])
  }

  /** What the image rule accepts: a file of at most 5,000,000 bytes, nothing at all, or a non-empty string. */
  predicate ImageAccepted(v: ImageValue) {
    match v
    case File(size) => size <= MaxFileSize
    case Undefined => true
    case Str(s) => |s| >= 1
  }

  /** `image: fileSchema.or(zod.string().refine(...))`. */
  function ImageErrors(v: ImageValue): (errs: seq<string>)
    ensures errs == [] <==> ImageAccepted(v)
    ensures !ImageAccepted(v) ==> errs == (if v.File? then [MaxFileSizeMsg] else [ImageRequiredMsg])
  {
    UnionOfTwo(FileSchema(v), ImageStringOption(v));
    Issues(Union([FileSchema(v), ImageStringOption(v)]))
  }

  // ---------------------------------------------------------------------
  // string fields
  // ---------------------------------------------------------------------

  /** The grammar consulted by chains without `.email()`; it is never reached. */
  const NoEmailCheck: string -> bool := _ => true

  const EmailChecks: seq<StringCheck> := [EmailFormat(EmailInvalidMsg), MinLength(1, EmailRequiredMsg)]
  const MobileChecks: seq<StringCheck> := [DigitsRegex(10, MobileMsg)]
  const PincodeChecks: seq<StringCheck> := [DigitsRegex(6, PincodeMsg)]
  const PasswordChecks: seq<StringCheck> := [MinLength(6, PasswordMsg)]

  /** `zod.string().min(1, { message })`: no trimming, so whitespace counts. */
  function RequiredErrors(s: string, message: string): (errs: seq<string>)
    ensures errs == [] <==> |s| >= 1
    ensures |s| == 0 ==> errs == [message]
  {
    Issues(StringSchema(s, [MinLength(1, message)], NoEmailCheck))
  }

  function FullNameErrors(s: string): (errs: seq<string>)
    ensures errs == [] <==> |s| >= 1
    ensures |s| == 0 ==> errs == [FullNameRequiredMsg]
  {
    RequiredErrors(s, FullNameRequiredMsg)
  }

  function AddressErrors(s: string): (errs: seq<string>)
    ensures errs == [] <==> |s| >= 1
    ensures |s| == 0 ==> errs == [AddressRequiredMsg]
  {
    RequiredErrors(s, AddressRequiredMsg)
  }

  /** Any non-empty string is accepted, not only the values the menu offers. */
  function GenderErrors(s: string): (errs: seq<string>)
    ensures errs == [] <==> |s| >= 1
    ensures |s| == 0 ==> errs == [GenderRequiredMsg]
  {
    RequiredErrors(s, GenderRequiredMsg)
  }

  /** `.email(...)` then `.min(1, ...)`: both run, so an address can report both messages, format first. */
  function EmailErrors(s: string, isEmail: string -> bool): (errs: seq<string>)
    ensures errs == [] <==> isEmail(s) && |s| >= 1
    ensures errs == (if isEmail(s) then [] else [EmailInvalidMsg]) + (if |s| >= 1 then [] else [EmailRequiredMsg])
  {
    FailedMessagesOfPair(s, EmailChecks[0], EmailChecks[1], isEmail);
    Issues(StringSchema(s, EmailChecks, isEmail))
  }

  /** `.regex(/^\d{10}$/, ...)`. */
  function MobileErrors(s: string): (errs: seq<string>)
    ensures errs == [] <==> |s| == 10 && AllAsciiDigits(s)
    ensures errs != [] ==> errs == [MobileMsg]
  {
    Issues(StringSchema(s, MobileChecks, NoEmailCheck))
  }

  /** `.regex(/^\d{6}$/, ...)`. */
  function PincodeErrors(s: string): (errs: seq<string>)
    ensures errs == [] <==> |s| == 6 && AllAsciiDigits(s)
    ensures errs != [] ==> errs == [PincodeMsg]
  {
    Issues(StringSchema(s, PincodeChecks, NoEmailCheck))
  }

  /** `.min(6, ...)`. */
  function PasswordErrors(s: string): (errs: seq<string>)
    ensures errs == [] <==> |s| >= 6
    ensures errs != [] ==> errs == [PasswordMsg]
  {
    Issues(StringSchema(s, PasswordChecks, NoEmailCheck))
  }

  // ---------------------------------------------------------------------
  // the whole record
  // ---------------------------------------------------------------------

  datatype Field = Image | FullName | Address | Gender | Email | Mobile | Pincode | Password

  /**
   The keys of `userFormSchema` in declaration order: the order in which a
   synchronous parse reports the fields' issues.
   */
  const SchemaFields: seq<Field> := [Image, FullName, Address, Gender, Email, Mobile, Pincode, Password]

  datatype UserForm = UserForm(
    image: ImageValue,
    fullName: string,
    address: string,
    gender: string,
    email: string,
    mobile: string,
    pincode: string,
    password: string)

  /** One reported issue: the field it is attached to and its message. */
  datatype FieldError = FieldError(field: Field, message: string)

  /** The rule of field `f`, applied to that field of `form` only. */
  function FieldErrors(f: Field, form: UserForm, isEmail: string -> bool): seq<string> {
    match f
    case Image => ImageErrors(form.image)
    case FullName => FullNameErrors(form.fullName)
    case Address => AddressErrors(form.address)
    case Gender => GenderErrors(form.gender)
    case Email => EmailErrors(form.email, isEmail)
    case Mobile => MobileErrors(form.mobile)
    case Pincode => PincodeErrors(form.pincode)
    case Password => PasswordErrors(form.password)
  }

  /** What each field's rule accepts, stated directly. */
  predicate FieldAccepted(f: Field, form: UserForm, isEmail: string -> bool) {
    match f
    case Image => ImageAccepted(form.image)
    case FullName => |form.fullName| >= 1
    case Address => |form.address| >= 1
    case Gender => |form.gender| >= 1
    case Email => isEmail(form.email) && |form.email| >= 1
    case Mobile => |form.mobile| == 10 && AllAsciiDigits(form.mobile)
    case Pincode => |form.pincode| == 6 && AllAsciiDigits(form.pincode)
    case Password => |form.password| >= 6
  }

  lemma FieldErrorsEmptyIffAccepted(f: Field, form: UserForm, isEmail: string -> bool)
    ensures FieldErrors(f, form, isEmail) == [] <==> FieldAccepted(f, form, isEmail)
  {
  }

  /** The messages of one field, each attached to that field. */
  function Attach(f: Field, msgs: seq<string>): (errs: seq<FieldError>)
    ensures |errs| == |msgs|
    ensures forall i :: 0 <= i < |errs| ==> errs[i] == FieldError(f, msgs[i])
  {
    seq(|msgs|, i requires 0 <= i < |msgs| => FieldError(f, msgs[i]))
  }

  /** No field occurs twice in `fields`. */
  predicate Distinct(fields: seq<Field>) {
    forall i, j :: 0 <= i < j < |fields| ==> fields[i] != fields[j]
  }

  /** The messages in `errs` attached to field `f`, in the order they occur. */
  function MessagesOf(f: Field, errs: seq<FieldError>): seq<string> {
    if |errs| == 0 then []
    else (if errs[0].field == f then [errs[0].message] else []) + MessagesOf(f, errs[1..])
  }

  lemma {:induction false} MessagesOfAppend(f: Field, a: seq<FieldError>, b: seq<FieldError>)
    ensures MessagesOf(f, a + b) == MessagesOf(f, a) + MessagesOf(f, b)
  {
    if |a| == 0 {
      assert a + b == b;
    } else {
      assert (a + b)[0] == a[0];
      assert (a + b)[1..] == a[1..] + b;
      MessagesOfAppend(f, a[1..], b);
    }
  }

  lemma {:induction false} MessagesOfAttach(f: Field, g: Field, msgs: seq<string>)
    ensures MessagesOf(f, Attach(g, msgs)) == if f == g then msgs else []
  {
    if |msgs| > 0 {
      assert Attach(g, msgs)[1..] == Attach(g, msgs[1..]);
      MessagesOfAttach(f, g, msgs[1..]);
    }
  }

  /**
   `zod.object` over `fields`: every field is parsed and its issues are
   appended in field order, so each field of a list without repeats
   reports exactly its own messages, in its own order.
   */
  function CollectErrors(fields: seq<Field>, form: UserForm, isEmail: string -> bool): (errs: seq<FieldError>)
    ensures errs == [] <==> forall f :: f in fields ==> FieldAccepted(f, form, isEmail)
    ensures forall e :: e in errs ==> e.field in fields && e.message in FieldErrors(e.field, form, isEmail)
    ensures forall f :: f in fields && !FieldAccepted(f, form, isEmail) ==> exists e :: e in errs && e.field == f
    ensures forall f :: f !in fields ==> MessagesOf(f, errs) == []
    ensures Distinct(fields) ==> forall f :: f in fields ==> MessagesOf(f, errs) == FieldErrors(f, form, isEmail)
  {
    if |fields| == 0 then []
    else
      var head := Attach(fields[0], FieldErrors(fields[0], form, isEmail));
      var tail := CollectErrors(fields[1..], form, isEmail);
      CollectErrorsStep(fields, form, isEmail, head, tail);
      CollectErrorsMessagesStep(fields, form, isEmail, head, tail);
      head + tail
  }

  /** One step of `CollectErrors`: the first field's issues followed by the rest's. */
  lemma CollectErrorsStep(fields: seq<Field>, form: UserForm, isEmail: string -> bool,
                          head: seq<FieldError>, tail: seq<FieldError>)
    requires |fields| > 0
    requires head == Attach(fields[0], FieldErrors(fields[0], form, isEmail))
    requires tail == [] <==> forall f :: f in fields[1..] ==> FieldAccepted(f, form, isEmail)
    requires forall e :: e in tail ==> e.field in fields[1..] && e.message in FieldErrors(e.field, form, isEmail)
    requires forall f :: f in fields[1..] && !FieldAccepted(f, form, isEmail) ==> exists e :: e in tail && e.field == f
    ensures head + tail == [] <==> forall f :: f in fields ==> FieldAccepted(f, form, isEmail)
    ensures forall e :: e in head + tail ==> e.field in fields && e.message in FieldErrors(e.field, form, isEmail)
    ensures forall f :: f in fields && !FieldAccepted(f, form, isEmail) ==> exists e :: e in head + tail && e.field == f
  {
    var f0 := fields[0];
    FieldErrorsEmptyIffAccepted(f0, form, isEmail);
    assert fields == [f0] + fields[1..];
    if !FieldAccepted(f0, form, isEmail) {
      assert head[0] in head + tail;
    }
    forall e | e in head + tail
      ensures e.field in fields && e.message in FieldErrors(e.field, form, isEmail)
    {
      if e in head {
        var k :| 0 <= k < |head| && head[k] == e;
      }
    }
    forall f | f in fields[1..] && !FieldAccepted(f, form, isEmail)
      ensures exists e :: e in head + tail && e.field == f
    {
      var e :| e in tail && e.field == f;
      assert e in head + tail;
    }
  }

  /** One step of `CollectErrors`, per field: the first field's messages come only from its own block. */
  lemma CollectErrorsMessagesStep(fields: seq<Field>, form: UserForm, isEmail: string -> bool,
                                  head: seq<FieldError>, tail: seq<FieldError>)
    requires |fields| > 0
    requires head == Attach(fields[0], FieldErrors(fields[0], form, isEmail))
    requires forall f :: f !in fields[1..] ==> MessagesOf(f, tail) == []
    requires Distinct(fields[1..]) ==>
      forall f :: f in fields[1..] ==> MessagesOf(f, tail) == FieldErrors(f, form, isEmail)
    ensures forall f :: f !in fields ==> MessagesOf(f, head + tail) == []
    ensures Distinct(fields) ==>
      forall f :: f in fields ==> MessagesOf(f, head + tail) == FieldErrors(f, form, isEmail)
  {
    var f0 := fields[0];
    assert fields == [f0] + fields[1..];
    forall f
      ensures MessagesOf(f, head + tail) ==
        (if f == f0 then FieldErrors(f0, form, isEmail) else []) + MessagesOf(f, tail)
    {
      MessagesOfAppend(f, head, tail);
      MessagesOfAttach(f, f0, FieldErrors(f0, form, isEmail));
    }
    if Distinct(fields) {
      assert Distinct(fields[1..]) by {
        forall i, j | 0 <= i < j < |fields[1..]|
          ensures fields[1..][i] != fields[1..][j]
        {
          assert fields[1..][i] == fields[i + 1] && fields[1..][j] == fields[j + 1];
        }
      }
      assert f0 !in fields[1..];
    }
  }

  /**
   `userFormSchema` applied to a whole record: every issue, field by field
   in schema order; each field reports exactly its own messages, in order.
   */
  function ValidateForm(form: UserForm, isEmail: string -> bool): (errs: seq<FieldError>)
    ensures errs == [] <==> forall f: Field :: FieldAccepted(f, form, isEmail)
    ensures forall e :: e in errs ==> e.message in FieldErrors(e.field, form, isEmail)
    ensures forall f: Field :: !FieldAccepted(f, form, isEmail) ==> exists e :: e in errs && e.field == f
    ensures forall f: Field :: MessagesOf(f, errs) == FieldErrors(f, form, isEmail)
  {
    AllFieldsInSchema();
    SchemaFieldsDistinct();
    CollectErrors(SchemaFields, form, isEmail)
  }

  /** Every field has exactly one entry in the schema. */
  lemma AllFieldsInSchema()
    ensures forall f: Field :: f in SchemaFields
  {
    forall f: Field
      ensures f in SchemaFields
    {
      assert SchemaFields[Index(f)] == f;
    }
  }

  /** No field has two entries in the schema. */
  lemma SchemaFieldsDistinct()
    ensures Distinct(SchemaFields)
  {
  }

  /** Position of a field in `SchemaFields`. */
  function Index(f: Field): (i: nat)
    ensures i < |SchemaFields| && SchemaFields[i] == f
  {
    match f
    case Image => 0
    case FullName => 1
    case Address => 2
    case Gender => 3
    case Email => 4
    case Mobile => 5
    case Pincode => 6
    case Password => 7
  }

  /**
   The message shown for each field: the resolver keeps the first issue of
   each field, and a field with no issue has no entry.
   */
  function DisplayedErrors(form: UserForm, isEmail: string -> bool): (shown: map<Field, string>)
    ensures forall f: Field :: f in shown <==> !FieldAccepted(f, form, isEmail)
    ensures forall f :: f in shown ==>
      FieldErrors(f, form, isEmail) != [] && shown[f] == FieldErrors(f, form, isEmail)[0]
  {
    AllFieldsInSchema();
    assert forall f: Field :: FieldErrors(f, form, isEmail) == [] <==> FieldAccepted(f, form, isEmail) by {
      forall f: Field
        ensures FieldErrors(f, form, isEmail) == [] <==> FieldAccepted(f, form, isEmail)
      {
        FieldErrorsEmptyIffAccepted(f, form, isEmail);
      }
    }
    map f | f in SchemaFields && FieldErrors(f, form, isEmail) != [] :: FieldErrors(f, form, isEmail)[0]
  }

  /** The message shown for a field is the first issue the whole-record validation reports for it. */
  lemma DisplayedIsFirstIssue(form: UserForm, isEmail: string -> bool, f: Field)
    requires !FieldAccepted(f, form, isEmail)
    ensures f in DisplayedErrors(form, isEmail)
    ensures MessagesOf(f, ValidateForm(form, isEmail)) != []
    ensures DisplayedErrors(form, isEmail)[f] == MessagesOf(f, ValidateForm(form, isEmail))[0]
  {
  }

  /** What the submit handler sees: the record handed on, or the messages shown instead. */
  datatype SubmitOutcome = Submitted(data: UserForm) | Rejected(shown: map<Field, string>)

  /**
   Submission gating, as react-hook-form's `handleSubmit` is assumed to
   behave: the callback receives the record only when the schema reports
   no issue at all.
   */
  function HandleSubmit(form: UserForm, isEmail: string -> bool): (r: SubmitOutcome)
    ensures r.Submitted? <==> forall f: Field :: FieldAccepted(f, form, isEmail)
    ensures r.Submitted? ==> r.data == form
    ensures r.Rejected? ==> r.shown != map[] && r.shown == DisplayedErrors(form, isEmail)
  {
    var errs := ValidateForm(form, isEmail);
    if errs == [] then Submitted(form)
    else
      var f :| !FieldAccepted(f, form, isEmail);
      assert f in DisplayedErrors(form, isEmail);
      Rejected(DisplayedErrors(form, isEmail))
  }

  /** The literal record the form starts with. */
  const DefaultValues: UserForm := UserForm(
    image := Undefined,
    fullName := "raja ji",
    address := "bhopal",
    gender := "Male",
    email := "abc@gmail.com",
    mobile := "0123456789",
    pincode := "436106",
    password := "123456")
}
