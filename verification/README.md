# Registration-form schema validation (Validation_With_Zod), in Dafny

The repository is a single React screen. It is a user-registration form whose
only decision logic is a zod schema: `fileSchema` and `userFormSchema`. The
schema decides whether each of the eight fields is acceptable and which
messages to report. The form starts from a literal default record.

This project models that schema as pure functions:

- `Regex`: the flag-less JavaScript pattern `^\d{n}$` that the `mobile`
  (n = 10) and `pincode` (n = 6) rules use. It gives a matcher and the
  search-based meaning of `RegExp.prototype.test`, and proves that the two agree.
- `Zod`: the part of zod's semantics the schema relies on.
  - A parse status: valid, dirty with ordered issue messages, or aborted.
  - `.or` as a union that picks the first valid option, else the first dirty one.
  - `zod.string()` followed by a chain of `.min`, `.regex` and `.email` checks.
    Every check in the chain runs, and each failure adds its message.
- `UserFormSchema`:
  - The `image` field as a tagged value: `File(size)`, `Str(s)` or `Undefined`.
  - One validator per field. Each returns the ordered messages zod reports,
    and an empty result means the value is accepted.
  - `ValidateForm`, which concatenates the field validators in schema order.
    Each field's messages appear in it exactly once each, in the field's own order.
  - The first message per field, which is what the form displays.
  - Submission gating.
  - The default record.
- `UserFormProperties`:
  - The concrete cases the rules decide.
  - The whole-record rule as the conjunction of the eight field rules.
  - The default record passing the rules.
  - One bad field blocking submission.
  - Independence of the fields.

The model treats zod's e-mail grammar as an uninterpreted parameter
`isEmail: string -> bool`. Every statement about e-mail holds for any grammar.
The default record is valid exactly when `isEmail("abc@gmail.com")` holds.

Where the schema's own messages suggest a different rule from the one the
code enforces, the model follows the code:

- An undefined image is **accepted**. `fileSchema` ends in `.or(zod.undefined())`.
  The "Image is required!" message belongs only to the empty-string branch.
- An empty e-mail does not report only "Email is required!". The `.email`
  check runs first, so when the grammar rejects "" the messages are
  "Invalid email format" and then "Email is required!". The form shows the
  first of these (`UserFormProperties.EmptyEmailShowsFormatMessage`).
- Gender is any non-empty string, not only the three menu values.

## Model

| member | source | states |
|---|---|---|
| Regex.MatchDigits | src/section/form/form.jsx:35-38 | the matcher for `^\d{n}$` succeeds iff the input is exactly n characters, each an ASCII digit 0-9 |
| Regex.MatchDigitsIsTest | src/section/form/form.jsx:37-38 | the matcher agrees with `test` semantics: a match may start anywhere, but `^` holds only at index 0 and `$` only at the end, because the regexes have no m flag |
| Zod.Union | src/section/form/form.jsx:19-27 | `.or` is valid iff some option is valid; it aborts iff every option aborts; otherwise it reports the first dirty option, every earlier option having aborted |
| Zod.FailingChecks | src/section/form/form.jsx:31-39 | the failing positions of a check chain: exactly the checks the value fails, each once, in increasing order |
| Zod.MessagesFromFailing | src/section/form/form.jsx:31-39 | walking a check chain one check at a time gives as many messages as there are failing checks, the k-th being the message of the k-th failing check |
| Zod.FailedMessages | src/section/form/form.jsx:31-39 | the messages of a check chain are empty iff every check passes; the k-th message is the message of the k-th failing check, so every failing check contributes its message, once, in chain order |
| Zod.StringSchema | src/section/form/form.jsx:28-39 | `zod.string()` with checks never aborts on a string; it is valid iff all checks pass, and otherwise reports exactly the failing checks' messages in chain order |
| UserFormSchema.FileSchema | src/section/form/form.jsx:19-22 | `fileSchema` is valid iff the value is undefined or a file of at most 5,000,000 bytes; an oversized file fails with only "Max file size is 5MB"; a string aborts |
| UserFormSchema.ImageErrors | src/section/form/form.jsx:19-27 | the image is accepted iff it is a file of at most 5,000,000 bytes, undefined, or a non-empty string; an oversized file reports only "Max file size is 5MB" and "" reports only "Image is required!" |
| UserFormSchema.FullNameErrors | src/section/form/form.jsx:28 | accepted iff the length is at least 1, with no trimming; "" reports only "Full Name is required!" |
| UserFormSchema.AddressErrors | src/section/form/form.jsx:29 | accepted iff the length is at least 1; "" reports only "Address is required!" |
| UserFormSchema.GenderErrors | src/section/form/form.jsx:30 | accepted iff the length is at least 1, with no restriction to the menu values; "" reports only "Gender is required!" |
| UserFormSchema.EmailErrors | src/section/form/form.jsx:31-34 | accepted iff the grammar accepts the address and its length is at least 1; the messages are "Invalid email format" (if the grammar rejects it) followed by "Email is required!" (if it is empty), in that order |
| UserFormSchema.MobileErrors | src/section/form/form.jsx:35-37 | accepted iff exactly 10 ASCII digits; otherwise the only message is "Mobile number must be exactly 10 digits" |
| UserFormSchema.PincodeErrors | src/section/form/form.jsx:38 | accepted iff exactly 6 ASCII digits; otherwise the only message is "Pincode must be exactly 6 digits" |
| UserFormSchema.PasswordErrors | src/section/form/form.jsx:39 | accepted iff the length is at least 6; otherwise the only message is "Password must be at least 6 characters" |
| UserFormSchema.FieldErrorsEmptyIffAccepted | src/section/form/form.jsx:24-40 | each field's rule reports no message iff the field meets its acceptance condition, stated directly per field |
| UserFormSchema.CollectErrors | src/section/form/form.jsx:24-40 | the object schema over a list of fields reports nothing iff every listed field is accepted; every issue carries a listed field and one of that field's messages; an unlisted field has no issue, and over a list without repeats each field's issues are exactly its own messages in order |
| UserFormSchema.ValidateForm | src/section/form/form.jsx:24-40 | the whole record reports nothing iff every one of the eight fields is accepted; for each field, the messages attached to it are exactly that field's messages, in order |
| UserFormSchema.AllFieldsInSchema | src/section/form/form.jsx:24-40 | every field of the record has an entry in the schema |
| UserFormSchema.SchemaFieldsDistinct | src/section/form/form.jsx:24-40 | no field has two entries in the schema |
| UserFormSchema.DisplayedErrors | src/section/form/form.jsx:59-67 | the resolver shows a message for a field iff that field is rejected, and the message shown is the field's first issue |
| UserFormSchema.DisplayedIsFirstIssue | src/section/form/form.jsx:59-67 | a rejected field is shown, the whole-record validation attaches at least one issue to it, and the message shown is the first of those issues |
| UserFormSchema.HandleSubmit | src/section/form/form.jsx:79-81 | the submit callback receives the record, unchanged, iff every field is accepted; otherwise it is not called and at least one message is shown |
| UserFormProperties.MobileExamples | src/section/form/form.jsx:35-37 | "0123456789" is accepted; "12345", "12345678901", a trailing extra character and a non-digit are rejected with the mobile message |
| UserFormProperties.PincodeExamples | src/section/form/form.jsx:38 | "436106" is accepted; "43610" and "4361067" are rejected with the pincode message |
| UserFormProperties.PasswordExamples | src/section/form/form.jsx:39 | "12345" is rejected with the password message and "123456" is accepted |
| UserFormProperties.RequiredFieldExamples | src/section/form/form.jsx:28-30 | "" reports each field's own required message; a single space is accepted; a gender outside the menu is accepted |
| UserFormProperties.ImageExamples | src/section/form/form.jsx:19-27 | a 5,000,000-byte file passes and a 5,000,001-byte file reports the size message; undefined and a non-empty string pass; "" reports "Image is required!" |
| UserFormProperties.EmailFormatReportedFirst | src/section/form/form.jsx:31-34 | for an address the grammar rejects, the first message is "Invalid email format"; for "" both messages are reported, format first |
| UserFormProperties.EmptyEmailShowsFormatMessage | src/section/form/form.jsx:31-34 | with an empty e-mail that the grammar rejects, the form shows "Invalid email format" for the e-mail field |
| UserFormProperties.FormValidIffEveryFieldValid | src/section/form/form.jsx:24-40 | the record validator reports nothing iff all eight field conditions hold; there is no cross-field condition |
| UserFormProperties.DefaultValuesAccepted | src/section/form/form.jsx:45-57 | the literal default record (undefined image, 10-digit mobile, 6-digit pincode, 6-character password, non-empty name, address and gender) passes every rule except the e-mail grammar, and is valid iff the grammar accepts "abc@gmail.com" |
| UserFormProperties.DefaultValuesSubmitted | src/section/form/form.jsx:45-57 | when the grammar accepts "abc@gmail.com", submitting the untouched form hands on the default record unchanged |
| UserFormProperties.OneInvalidFieldBlocksSubmit | src/section/form/form.jsx:79-81 | a single rejected field stops submission and is among the messages shown, whatever the other fields hold |
| UserFormProperties.FieldErrorsAreLocal | src/section/form/form.jsx:24-40 | two records with the same value in a field get the same messages for that field and the same shown/not-shown status |

## Left out

- Rendering and layout (src/section/form/form.jsx:83-262): presentational only.
- The FileReader image preview (src/section/form/form.jsx:69-77): asynchronous browser I/O producing a data URL. So is its last-completion-wins behaviour.
- react-hook-form state: the trigger mode `"all"`, the `isSubmitting` flag, the loading button and at-most-one submission in flight. These belong to the form library, not to the schema.
- `HandleSubmit` is the assumed behaviour of `handleSubmit`: the callback runs only when the schema reports nothing. That library is not part of this model.
- `DisplayedErrors` is the assumed first-issue-per-field behaviour of `zodResolver`. That library is not part of this model.
- The callback's `console.log` output (src/section/form/form.jsx:80).
- zod's e-mail grammar: it is the uninterpreted parameter `isEmail`.
- `ImageErrors` assumes zod 3.22 or later, where a failed `zod.instanceof(File)` aborts. In earlier releases the failure is non-fatal and the size refinement would also run on non-files.
- `ValidateForm` lists the issues field by field in schema order, as a synchronous parse does. The resolver parses asynchronously by default, and then the image union's issue may come after the text fields' issues. Only the per-field message sequences are claimed, and they are the same either way, as is the message shown per field.
- Values of the wrong type in a text field (zod's "Expected string" issue): the form only ever stores strings there, so each text field is a `string`.
- An image union with no applicable option. It cannot occur for the three image variants. It is reported as zod's single "Invalid input" issue, and the details of zod's `invalid_union` selection are not modelled.
- The difference between UTF-16 code units and characters: string length is the length of a `seq<char>`.
- Unknown keys stripped by `zod.object`: the record has exactly the eight schema fields.
