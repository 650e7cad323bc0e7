/**
 * The contact form: the validator `validateForm`, and the component state
 * (`form`, `errors`, `isSubmitting`) that `handleChange` and `handleSubmit`
 * update. The submission request is split at its `await`: `BeginSubmit` runs
 * up to the request and returns the payload it would post, `CompleteSubmit`
 * runs what follows once the request has an outcome.
 */
module ContactForm {
  import opened Wrappers
  import opened JsString
  import opened Wire
  import opened ToastContext

  datatype Field = Name | Email | Phone | Service | Message

  const AllFields: set<Field> := {Name, Email, Phone, Service, Message}

  /** The form record; it is also the shape of the posted payload. */
  datatype Form = Form(name: string, email: string, phone: string, service: string, message: string) {
    function Get(f: Field): string {
      match f
      case Name => name
      case Email => email
      case Phone => phone
      case Service => service
      case Message => message
    }

    /** `{ ...prev, [f]: v }`. */
    function With(f: Field, v: string): (r: Form)
      ensures r.Get(f) == v
      ensures forall g :: g != f ==> r.Get(g) == Get(g)
    {
      match f
      case Name => this.(name := v)
      case Email => this.(email := v)
      case Phone => this.(phone := v)
      case Service => this.(service := v)
      case Message => this.(message := v)
    }
  }

  const InitialForm := Form("", "", "", "", "")

  /** The options of the service drop-down. The validator does not consult it. */
  const Services: seq<string> := [
    "AI & Automation Solutions",
    "Software Development",
    "CRM, ERP & Business Systems",
    "Workflow & Backend Engineering",
    "Cloud, DevOps & Infrastructure",
    "Security, Maintenance & Support",
    "Other"
  ]

  const NameRequired := "Name is required"
  const NameTooShort := "Name must be at least 2 characters"
  const EmailRequired := "Email is required"
  const EmailInvalid := "Please enter a valid email"
  const PhoneRequired := "Phone is required"
  const PhoneInvalid := "Please enter a valid phone number"
  const ServiceRequired := "Please select a service"
  const MessageRequired := "Message is required"
  const MessageTooShort := "Message must be at least 10 characters"

  const FixErrorsText := "Please fix the form errors."
  const SentText := "Thank you! Your message has been sent. We'll get back to you soon."
  const SendFailedText := "Failed to send message. Please try again or email us directly."

  // ---------------------------------------------------------------------------
  // The e-mail pattern /^[^\s@]+@[^\s@]+\.[^\s@]+$/

  /** `[^\s@]`. */
  predicate IsEmailChar(c: char) {
    !IsWhitespace(c) && c != '@'
  }

  predicate AllEmailChars(s: string) {
    forall i :: 0 <= i < |s| ==> IsEmailChar(s[i])
  }

  /** The position of the first `c` in `s`, if any. */
  function IndexOf(s: string, c: char): (r: Option<nat>)
    ensures r.Some? ==> r.value < |s| && s[r.value] == c
    ensures r.Some? ==> forall i :: 0 <= i < r.value ==> s[i] != c
    ensures r.None? ==> forall i :: 0 <= i < |s| ==> s[i] != c
  {
    if s == [] then None
    else if s[0] == c then Some(0)
    else match IndexOf(s[1..], c)
      case None => None
      case Some(k) => Some(k + 1)
  }

  /** `[^\s@]+\.[^\s@]+`: no whitespace and no `@`, and a dot with at least
      one character on each side. */
  predicate IsEmailDomain(d: string) {
    AllEmailChars(d) && exists i :: 0 < i < |d| - 1 && d[i] == '.'
  }

  /** The e-mail test, read at the first `@`: a non-empty local part of
      `[^\s@]` characters and a domain as above. */
  predicate IsValidEmail(s: string) {
    match IndexOf(s, '@')
    case None => false
    case Some(k) => 0 < k && AllEmailChars(s[..k]) && IsEmailDomain(s[k + 1..])
  }

  /** The regular expression read as a decomposition of the whole string
      `A "@" B "." C`, with A, B and C non-empty runs of `[^\s@]`. */
  ghost predicate MatchesEmailPattern(s: string) {
    exists at, dot ::
      && 0 < at && at + 1 < dot && dot + 1 < |s|
      && s[at] == '@' && s[dot] == '.'
      && forall k :: 0 <= k < |s| && k != at ==> IsEmailChar(s[k])
  }

  lemma EmailCheckIsPattern(s: string)
    ensures IsValidEmail(s) <==> MatchesEmailPattern(s)
  {
    if IsValidEmail(s) {
      var at := IndexOf(s, '@').value;
      var d := s[at + 1..];
      var i :| 0 < i < |d| - 1 && d[i] == '.';
      var dot := at + 1 + i;
      assert s[dot] == '.';
      forall k | 0 <= k < |s| && k != at ensures IsEmailChar(s[k]) {
        if k < at {
          assert s[k] == s[..at][k];
        } else {
          assert s[k] == d[k - at - 1];
        }
      }
    }
    if MatchesEmailPattern(s) {
      var at, dot :| && 0 < at && at + 1 < dot && dot + 1 < |s|
                     && s[at] == '@' && s[dot] == '.'
                     && forall k :: 0 <= k < |s| && k != at ==> IsEmailChar(s[k]);
      var found := IndexOf(s, '@');
      assert found == Some(at);
      var d := s[at + 1..];
      assert d[dot - at - 1] == '.';
      assert AllEmailChars(d) by {
        forall j | 0 <= j < |d| ensures IsEmailChar(d[j]) {
          assert d[j] == s[at + 1 + j];
        }
      }
    }
  }

  // ---------------------------------------------------------------------------
  // The phone pattern /^[\d\s\-\+\(\)]{10,}$/, applied after replace(/\s/g, '')

  /** `[\d\s\-\+\(\)]`. */
  predicate InPhoneClass(c: char) {
    IsDigit(c) || IsWhitespace(c) || c == '-' || c == '+' || c == '(' || c == ')'
  }

  /** A digit or one of `+ - ( )`. */
  predicate IsPhoneSymbol(c: char) {
    IsDigit(c) || c == '-' || c == '+' || c == '(' || c == ')'
  }

  predicate IsValidPhone(v: string) {
    var d := StripWhitespace(v);
    Utf16Length(d) >= 10 && forall i :: 0 <= i < |d| ==> InPhoneClass(d[i])
  }

  /** With whitespace stripped, the phone test asks for at least ten
      characters, each a digit or one of `+ - ( )`. */
  lemma PhoneCheckMeaning(v: string)
    ensures var d := StripWhitespace(v);
      IsValidPhone(v) <==> |d| >= 10 && forall i :: 0 <= i < |d| ==> IsPhoneSymbol(d[i])
  {
    var d := StripWhitespace(v);
    if forall i :: 0 <= i < |d| ==> IsPhoneSymbol(d[i]) {
      Utf16LengthOfBmp(d);
    }
    if IsValidPhone(v) {
      assert forall i :: 0 <= i < |d| ==> IsPhoneSymbol(d[i]);
      Utf16LengthOfBmp(d);
    }
  }

  // ---------------------------------------------------------------------------
  // validateForm

  function NameError(v: string): Option<string> {
    if Trim(v) == "" then Some(NameRequired)
    else if Utf16Length(Trim(v)) < 2 then Some(NameTooShort)
    else None
  }

  /** The e-mail pattern is matched against the untrimmed value. */
  function EmailError(v: string): Option<string> {
    if Trim(v) == "" then Some(EmailRequired)
    else if !IsValidEmail(v) then Some(EmailInvalid)
    else None
  }

  function PhoneError(v: string): Option<string> {
    if Trim(v) == "" then Some(PhoneRequired)
    else if !IsValidPhone(v) then Some(PhoneInvalid)
    else None
  }

  /** Only the empty string is rejected: no trim, no check against `Services`. */
  function ServiceError(v: string): Option<string> {
    if v == "" then Some(ServiceRequired) else None
  }

  function MessageError(v: string): Option<string> {
    if Trim(v) == "" then Some(MessageRequired)
    else if Utf16Length(Trim(v)) < 10 then Some(MessageTooShort)
    else None
  }

  function FieldError(f: Field, v: string): Option<string> {
    match f
    case Name => NameError(v)
    case Email => EmailError(v)
    case Phone => PhoneError(v)
    case Service => ServiceError(v)
    case Message => MessageError(v)
  }

  /** The phone rule stated without the validator's branches: non-blank,
      and once whitespace is stripped at least ten digits or `+ - ( )`. */
  ghost predicate PhoneAccepted(v: string) {
    var d := StripWhitespace(v);
    Trim(v) != "" && |d| >= 10 && forall i :: 0 <= i < |d| ==> IsPhoneSymbol(d[i])
  }

  /** The order in which `validateForm` checks the fields. */
  const FieldOrder: seq<Field> := [Name, Email, Phone, Service, Message]

  /** `validateForm(form)`: every field in turn, recording the message of the
      rule it breaks. */
  function Validate(form: Form): map<Field, string> {
    CheckFields(f => FieldError(f, form.Get(f)), FieldOrder)
  }

  /** The checks of `fields`, in order, starting from the empty map; `rule(f)`
      is the verdict on field `f`. */
  function CheckFields(rule: Field -> Option<string>, fields: seq<Field>): map<Field, string>
    decreases |fields|
  {
    if fields == [] then map[]
    else
      var f := fields[|fields| - 1];
      Record(CheckFields(rule, fields[..|fields| - 1]), f, rule(f))
  }

  /** `errors[f] = message` when the rule produced one. */
  function Record(errors: map<Field, string>, f: Field, error: Option<string>): map<Field, string> {
    if error.Some? then errors[f := error.value] else errors
  }

  /** After checking `fields`, a field has an entry exactly when it was
      checked and its rule produced a message, and the entry is that message. */
  lemma {:induction false} CheckFieldsEntry(rule: Field -> Option<string>, fields: seq<Field>, f: Field)
    ensures var errors := CheckFields(rule, fields);
      && (f in errors <==> f in fields && rule(f).Some?)
      && (f in errors ==> errors[f] == rule(f).value)
    decreases |fields|
  {
    if fields != [] {
      var init := fields[..|fields| - 1];
      CheckFieldsEntry(rule, init, f);
      assert fields == init + [fields[|fields| - 1]];
    }
  }

  /** Every field is checked: its entry is present exactly when its own rule
      produces a message, and holds that message. */
  lemma ValidateEntry(form: Form, f: Field)
    ensures f in Validate(form) <==> FieldError(f, form.Get(f)).Some?
    ensures f in Validate(form) ==> Validate(form)[f] == FieldError(f, form.Get(f)).value
  {
    assert f in FieldOrder by {
      match f
      case Name => assert FieldOrder[0] == f;
      case Email => assert FieldOrder[1] == f;
      case Phone => assert FieldOrder[2] == f;
      case Service => assert FieldOrder[3] == f;
      case Message => assert FieldOrder[4] == f;
    }
    CheckFieldsEntry(f => FieldError(f, form.Get(f)), FieldOrder, f);
  }

  /** Two error maps with the same entry for each of the five fields are
      equal. */
  lemma SameEntries(a: map<Field, string>, b: map<Field, string>)
    requires (Name in a <==> Name in b) && (Name in a ==> a[Name] == b[Name])
    requires (Email in a <==> Email in b) && (Email in a ==> a[Email] == b[Email])
    requires (Phone in a <==> Phone in b) && (Phone in a ==> a[Phone] == b[Phone])
    requires (Service in a <==> Service in b) && (Service in a ==> a[Service] == b[Service])
    requires (Message in a <==> Message in b) && (Message in a ==> a[Message] == b[Message])
    ensures a == b
  {
    forall f ensures (f in a <==> f in b) && (f in a ==> a[f] == b[f]) {
      match f
      case Name =>
      case Email =>
      case Phone =>
      case Service =>
      case Message =>
    }
  }

  /** The entry of each field, by its own rule. */
  lemma EntriesOf(form: Form)
    ensures var r := Validate(form);
      && (Name in r <==> NameError(form.name).Some?) && (Name in r ==> r[Name] == NameError(form.name).value)
      && (Email in r <==> EmailError(form.email).Some?) && (Email in r ==> r[Email] == EmailError(form.email).value)
      && (Phone in r <==> PhoneError(form.phone).Some?) && (Phone in r ==> r[Phone] == PhoneError(form.phone).value)
      && (Service in r <==> ServiceError(form.service).Some?)
      && (Service in r ==> r[Service] == ServiceError(form.service).value)
      && (Message in r <==> MessageError(form.message).Some?)
      && (Message in r ==> r[Message] == MessageError(form.message).value)
  {
    ValidateEntry(form, Name);
    ValidateEntry(form, Email);
    ValidateEntry(form, Phone);
    ValidateEntry(form, Service);
    ValidateEntry(form, Message);
  }

  /** A record is accepted exactly when every one of the five rules passes. */
  lemma AcceptedIffEveryRulePasses(form: Form)
    ensures Validate(form) == map[] <==>
      && NameError(form.name).None? && EmailError(form.email).None?
      && PhoneError(form.phone).None? && ServiceError(form.service).None?
      && MessageError(form.message).None?
  {
    EntriesOf(form);
    if NameError(form.name).None? && EmailError(form.email).None?
      && PhoneError(form.phone).None? && ServiceError(form.service).None?
      && MessageError(form.message).None? {
      SameEntries(Validate(form), map[]);
    }
  }

  /** Each field has an entry exactly when its own value breaks its rule (the
      messages themselves are stated by the rule lemmas below). */
  lemma ValidateMeaning(form: Form)
    ensures var errors := Validate(form);
      && (Name in errors <==> Utf16Length(Trim(form.name)) < 2)
      && (Email in errors <==> !MatchesEmailPattern(form.email))
      && (Phone in errors <==> !PhoneAccepted(form.phone))
      && (Service in errors <==> form.service == "")
      && (Message in errors <==> Utf16Length(Trim(form.message)) < 10)
  {
    ValidateEntry(form, Name);
    ValidateEntry(form, Email);
    ValidateEntry(form, Phone);
    ValidateEntry(form, Service);
    ValidateEntry(form, Message);
    NameErrorMeaning(form.name);
    EmailErrorMeaning(form.email);
    PhoneErrorMeaning(form.phone);
    MessageErrorMeaning(form.message);
  }

  lemma NameErrorMeaning(v: string)
    ensures NameError(v).Some? <==> Utf16Length(Trim(v)) < 2
  {
  }

  lemma EmailErrorMeaning(v: string)
    ensures EmailError(v).Some? <==> !MatchesEmailPattern(v)
  {
    EmailCheckIsPattern(v);
  }

  lemma PhoneErrorMeaning(v: string)
    ensures PhoneError(v).Some? <==> !PhoneAccepted(v)
  {
    PhoneCheckMeaning(v);
  }

  lemma MessageErrorMeaning(v: string)
    ensures MessageError(v).Some? <==> Utf16Length(Trim(v)) < 10
  {
    var t := Trim(v);
    assert Utf16Length(t) == 0 <==> t == [];
  }

  /** An empty trimmed name is "required", one code unit is "too short",
      two or more pass. */
  lemma NameRule(form: Form)
    ensures var r := Validate(form); var n := Utf16Length(Trim(form.name));
      && (n == 0 ==> Name in r && r[Name] == NameRequired)
      && (n == 1 ==> Name in r && r[Name] == NameTooShort)
      && (n >= 2 ==> Name !in r)
  {
    ValidateEntry(form, Name);
  }

  /** "Email is required" exactly when the trimmed e-mail is empty; otherwise
      an error exactly when the untrimmed value misses the pattern. */
  lemma EmailRule(form: Form)
    ensures var r := Validate(form);
      && (Email in r && r[Email] == EmailRequired <==> Trim(form.email) == "")
      && (Trim(form.email) != "" ==>
            (Email in r <==> !MatchesEmailPattern(form.email))
            && (Email in r ==> r[Email] == EmailInvalid))
  {
    ValidateEntry(form, Email);
    EmailCheckIsPattern(form.email);
  }

  /** An e-mail with whitespace at either end is rejected, although its
      trimmed form may be well-formed. */
  lemma EmailWithSurroundingSpaceRejected(form: Form)
    requires form.email != ""
    requires IsWhitespace(form.email[0]) || IsWhitespace(form.email[|form.email| - 1])
    ensures Email in Validate(form)
  {
    ValidateEntry(form, Email);
    EmailErrorMeaning(form.email);
  }

  /** A non-blank phone passes exactly when, whitespace stripped, it has at
      least ten characters, all digits or `+ - ( )`. */
  lemma PhoneRule(form: Form)
    ensures var r := Validate(form); var d := StripWhitespace(form.phone);
      && (Trim(form.phone) == "" ==> Phone in r && r[Phone] == PhoneRequired)
      && (Trim(form.phone) != "" ==>
            (Phone !in r <==> |d| >= 10 && forall i :: 0 <= i < |d| ==> IsPhoneSymbol(d[i]))
            && (Phone in r ==> r[Phone] == PhoneInvalid))
  {
    ValidateEntry(form, Phone);
    PhoneCheckMeaning(form.phone);
  }

  /** The service is rejected exactly when it is the empty string. */
  lemma ServiceRule(form: Form)
    ensures var r := Validate(form);
      (Service in r <==> form.service == "") && (Service in r ==> r[Service] == ServiceRequired)
  {
    ValidateEntry(form, Service);
  }

  /** The service is not checked against the drop-down's list: a value that
      is not one of `Services`, here a single space, passes. */
  lemma ServiceNotCheckedAgainstList()
    ensures " " !in Services
    ensures Service !in Validate(InitialForm.(service := " "))
  {
    assert forall i :: 0 <= i < |Services| ==> |Services[i]| > 1;
    ValidateEntry(InitialForm.(service := " "), Service);
  }

  /** The message is "required" when blank and "too short" below ten code
      units. */
  lemma MessageRule(form: Form)
    ensures var r := Validate(form); var n := Utf16Length(Trim(form.message));
      && (n == 0 ==> Message in r && r[Message] == MessageRequired)
      && (0 < n < 10 ==> Message in r && r[Message] == MessageTooShort)
      && (n >= 10 ==> Message !in r)
  {
    ValidateEntry(form, Message);
  }

  /** Each field is judged on its own value alone. */
  lemma FieldsIndependent(a: Form, b: Form, f: Field)
    requires a.Get(f) == b.Get(f)
    ensures f in Validate(a) <==> f in Validate(b)
    ensures f in Validate(a) ==> Validate(a)[f] == Validate(b)[f]
  {
    ValidateEntry(a, f);
    ValidateEntry(b, f);
  }

  /** The body posted to the webhook: every field trimmed except `service`. */
  function Payload(form: Form): (p: Form)
    ensures p.name == Trim(form.name) && p.email == Trim(form.email)
    ensures p.phone == Trim(form.phone) && p.message == Trim(form.message)
    ensures p.service == form.service
  {
    Form(Trim(form.name), Trim(form.email), Trim(form.phone), form.service, Trim(form.message))
  }

  /** An address that matches the e-mail pattern has no whitespace at all,
      so trimming leaves it unchanged. */
  lemma MatchingEmailIsTrimmed(s: string)
    requires MatchesEmailPattern(s)
    ensures Trim(s) == s
  {
    var at, dot :| && 0 < at && at + 1 < dot && dot + 1 < |s|
                   && s[at] == '@' && s[dot] == '.'
                   && forall k :: 0 <= k < |s| && k != at ==> IsEmailChar(s[k]);
    assert IsEmailChar(s[0]) && IsEmailChar(s[|s| - 1]);
    TrimOfUntrimmable(s);
  }

  /** Trimming a phone number the rule accepts keeps it accepted. */
  lemma PhoneAcceptedAfterTrim(v: string)
    requires PhoneAccepted(v)
    ensures PhoneAccepted(Trim(v))
  {
    TrimIdempotent(v);
    StripTrim(v);
  }

  /** A record that passes validation still passes once trimmed for posting. */
  lemma PayloadStaysValid(form: Form)
    requires Validate(form) == map[]
    ensures Validate(Payload(form)) == map[]
  {
    var p := Payload(form);
    ValidateMeaning(form);
    TrimIdempotent(form.name);
    TrimIdempotent(form.message);
    MatchingEmailIsTrimmed(form.email);
    PhoneAcceptedAfterTrim(form.phone);
    ValidateMeaning(p);
    SameEntries(Validate(p), map[]);
  }

  /** A map has entries exactly when its size is positive. */
  lemma EmptyMapSize<K, V>(m: map<K, V>)
    ensures |m| > 0 <==> m != map[]
  {
    if m != map[] {
      var k :| k in m;
      assert k in m.Keys;
    }
  }

  /** The component's state and its two event handlers. */
  class Component {
    var form: Form
    var errors: map<Field, string>
    var isSubmitting: bool
    /** The value `useToast()` returned. */
    const toaster: ToastProvider

    constructor (toaster: ToastProvider)
      ensures form == InitialForm && errors == map[] && !isSubmitting
      ensures this.toaster == toaster
    {
      form := InitialForm;
      errors := map[];
      isSubmitting := false;
      this.toaster := toaster;
    }

    /** `errors[f]` is truthy: the message is shown under the field. */
    predicate HasError(f: Field)
      reads this
    {
      f in errors && errors[f] != ""
    }

    /** The submit button is enabled. */
    predicate SubmitEnabled()
      reads this
    {
      !isSubmitting
    }

    /** `handleChange`: the named field takes the new value; its error, if one
        is shown, is blanked to the empty string; nothing else changes. */
    method HandleChange(field: Field, value: string)
      modifies this
      ensures form == old(form).With(field, value)
      ensures errors == if old(HasError(field)) then old(errors)[field := ""] else old(errors)
      ensures !HasError(field)
      ensures forall g :: g != field ==> HasError(g) == old(HasError(g))
      ensures isSubmitting == old(isSubmitting)
    {
      form := form.With(field, value);
      if HasError(field) {
        errors := errors[field := ""];
      }
    }

    /** `handleSubmit` up to the request. An invalid record stores its errors
        and raises one error toast, and no request is made; a valid one clears
        the errors, sets `isSubmitting` and yields the trimmed payload. The
        form itself is not changed either way. */
    method BeginSubmit() returns (request: Option<Form>)
      requires toaster.Valid()
      modifies this, toaster
      ensures toaster.Valid()
      ensures form == old(form)
      ensures Validate(old(form)) != map[] ==>
        && request == None
        && errors == Validate(old(form))
        && isSubmitting == old(isSubmitting)
        && toaster.toasts == old(toaster.toasts) + [Toast(old(toaster.nextId), FixErrorsText, Error)]
      ensures Validate(old(form)) == map[] ==>
        && request == Some(Payload(form))
        && errors == map[]
        && isSubmitting
        && unchanged(toaster)
    {
      var current := form;
      var validationErrors := Validate(current);
      EmptyMapSize(validationErrors);
      if |validationErrors| > 0 {
        errors := validationErrors;
        var _ := toaster.AddToast(FixErrorsText, Error);
        request := None;
      } else {
        isSubmitting := true;
        errors := map[];
        request := Some(Payload(current));
      }
    }

    /** `handleSubmit` after the request. On success the form is reset and one
        success toast is raised; on failure the form is kept and one error
        toast carries the server's message or the fallback. `isSubmitting`
        ends false either way. */
    method CompleteSubmit(outcome: Outcome)
      requires toaster.Valid()
      modifies this, toaster
      ensures toaster.Valid()
      ensures !isSubmitting && errors == old(errors)
      ensures outcome.Resolved? ==>
        && form == InitialForm
        && toaster.toasts == old(toaster.toasts) + [Toast(old(toaster.nextId), SentText, ToastType.Success)]
      ensures outcome.Rejected? ==>
        && form == old(form)
        && toaster.toasts == old(toaster.toasts)
             + [Toast(old(toaster.nextId), FailureText(outcome.serverMessage, SendFailedText), Error)]
    {
      if outcome.Resolved? {
        form := InitialForm;
        var _ := toaster.AddToast(SentText, ToastType.Success);
      } else {
        var _ := toaster.AddToast(FailureText(outcome.serverMessage, SendFailedText), Error);
      }
      isSubmitting := false;
    }
  }
}

/** The validator on a few concrete records. */
module ContactFormExamples {
  import opened Wrappers
  import opened JsString
  import opened ContactForm

  /** The empty initial form fails every field with its "required" message. */
  lemma InitialFormAllRequired()
    ensures Validate(InitialForm) == map[Name := NameRequired, Email := EmailRequired,
      Phone := PhoneRequired, Service := ServiceRequired, Message := MessageRequired]
  {
    assert NameError("") == Some(NameRequired);
    assert EmailError("") == Some(EmailRequired);
    assert PhoneError("") == Some(PhoneRequired);
    assert ServiceError("") == Some(ServiceRequired);
    assert MessageError("") == Some(MessageRequired);
    EntriesOf(InitialForm);
    SameEntries(Validate(InitialForm), map[Name := NameRequired, Email := EmailRequired,
      Phone := PhoneRequired, Service := ServiceRequired, Message := MessageRequired]);
  }

  /** Every character is an ASCII digit (evaluated character by character on
      a literal). */
  predicate AllDigits(s: string) {
    s == [] || (IsDigit(s[0]) && AllDigits(s[1..]))
  }

  lemma {:induction false} DigitsAreDigits(s: string)
    requires AllDigits(s)
    ensures forall i :: 0 <= i < |s| ==> IsDigit(s[i])
  {
    if s != [] {
      DigitsAreDigits(s[1..]);
      assert forall i :: 1 <= i < |s| ==> s[i] == s[1..][i - 1];
    }
  }

  /** A string of ten or more digits passes the phone test, and its JavaScript
      length is its number of characters. */
  lemma DigitsPhoneValid(d: string)
    requires AllDigits(d) && |d| >= 10
    ensures IsValidPhone(d) && Trim(d) == d && Utf16Length(d) == |d|
  {
    DigitsAreDigits(d);
    StripNoWhitespace(d);
    Utf16LengthOfBmp(d);
    TrimOfUntrimmable(d);
  }

  /** The rules on the field values of the examples below. */
  lemma ExampleName()
    ensures NameError("Al") == None
  {
    assert Trim("Al") == "Al";
  }

  lemma ExampleShortName()
    ensures NameError("A") == Some(NameTooShort)
  {
    assert Trim("A") == "A";
  }

  lemma ExampleEmailShape()
    ensures IsValidEmail("a@b.co")
  {
    var s := "a@b.co";
    assert IndexOf(s, '@') == Some(1);
    assert s[..1] == "a" && s[2..] == "b.co";
    assert s[2..][1] == '.';
  }

  lemma ExampleEmail()
    ensures EmailError("a@b.co") == None
  {
    ExampleEmailShape();
    assert Trim("a@b.co") != "";
  }

  lemma ExamplePhone()
    ensures PhoneError("9876543210") == None
  {
    DigitsPhoneValid("9876543210");
  }

  lemma ExampleMessage()
    ensures MessageError("1234567890") == None
  {
    DigitsPhoneValid("1234567890");
  }

  /** A complete, well-formed record has no errors. */
  lemma AcceptedExample()
    ensures Validate(Form("Al", "a@b.co", "9876543210", "Other", "1234567890")) == map[]
  {
    ExampleName();
    ExampleEmail();
    ExamplePhone();
    ExampleMessage();
    AcceptedIffEveryRulePasses(Form("Al", "a@b.co", "9876543210", "Other", "1234567890"));
  }

  /** When only the name breaks its rule, the name's message is the only entry. */
  lemma OnlyNameRejected(form: Form)
    requires NameError(form.name).Some? && EmailError(form.email).None?
    requires PhoneError(form.phone).None? && ServiceError(form.service).None?
    requires MessageError(form.message).None?
    ensures Validate(form) == map[Name := NameError(form.name).value]
  {
    var r := Validate(form);
    var expected := map[Name := NameError(form.name).value];
    ValidateEntry(form, Name);
    ValidateEntry(form, Email);
    ValidateEntry(form, Phone);
    ValidateEntry(form, Service);
    ValidateEntry(form, Message);
    SameEntries(r, expected);
  }

  /** A one-character name is the only error of an otherwise valid record. */
  lemma ShortNameExample()
    ensures Validate(Form("A", "a@b.co", "9876543210", "Other", "1234567890"))
         == map[Name := NameTooShort]
  {
    ExampleShortName();
    ExampleEmail();
    ExamplePhone();
    ExampleMessage();
    OnlyNameRejected(Form("A", "a@b.co", "9876543210", "Other", "1234567890"));
  }
}
