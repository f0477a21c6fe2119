/** The "already enrolled" student login page
    (frontend/src/pages/AlreadyEnrolledLogin.tsx): the form state, the
    change handler with its digit filter on the phone field, the phone and
    e-mail checks, and the validation step of submission. */
module StudentLogin {
  import opened Optional
  import opened Text
  import opened Email
  import opened FormErrors

  /** The `name` attributes of the form's inputs. */
  datatype Field = Name | Email | Password | PhoneNumber | Class

  datatype LoginValues = LoginValues(
    name: string, email: string, password: string, phoneNumber: string, studentClass: string)

  const InitialValues := LoginValues("", "", "", "", "11th")

  datatype UserDetails = UserDetails(
    name: string, email: string, phoneNumber: string, studentClass: string, state: string)

  datatype State = State(
    values: LoginValues,
    isSubmitting: bool,
    errors: map<Field, string>,
    isLoggedIn: bool,
    userDetails: Option<UserDetails>)

  const Initial := State(InitialValues, false, map[], false, None)

  /** The body posted to the login service. */
  datatype Payload = Payload(
    name: string, email: string, password: string, phoneNumber: string, studentClass: string)

  const NameRequired := "Name is required"
  const EmailRequired := "Email is required"
  const EmailInvalid := "Invalid email format"
  const PasswordRequired := "Password is required"
  const PhoneRequired := "Phone Number is required"
  const PhoneLength := "Phone Number must be exactly 10 digits"

  /** `loginValues[name]`. */
  function Get(v: LoginValues, f: Field): string {
    match f
    case Name => v.name
    case Email => v.email
    case Password => v.password
    case PhoneNumber => v.phoneNumber
    case Class => v.studentClass
  }

  /** The values with one field replaced. */
  function Set(v: LoginValues, f: Field, value: string): LoginValues {
    match f
    case Name => v.(name := value)
    case Email => v.(email := value)
    case Password => v.(password := value)
    case PhoneNumber => v.(phoneNumber := value)
    case Class => v.(studentClass := value)
  }

  /** `handleInputChange`: the phone field stores its input with every
      non-digit removed, any other field stores the input as typed, no
      other field changes, and the edited field's error (if shown) is
      cleared while every other error stays. */
  function HandleInputChange(s: State, f: Field, value: string): (r: State)
    ensures Get(r.values, f) == (if f == PhoneNumber then DigitsOnly(value) else value)
    ensures f == PhoneNumber ==> AllDigits(r.values.phoneNumber)
    ensures forall g :: g != f ==> Get(r.values, g) == Get(s.values, g)
    ensures r.errors.Keys == s.errors.Keys && !HasError(r.errors, f)
    ensures forall g :: g in s.errors && g != f ==> r.errors[g] == s.errors[g]
    ensures !HasError(s.errors, f) ==> r.errors == s.errors
    ensures r.isSubmitting == s.isSubmitting && r.isLoggedIn == s.isLoggedIn
    ensures r.userDetails == s.userDetails
  {
    var stored := if f == PhoneNumber then DigitsOnly(value) else value;
    s.(values := Set(s.values, f, stored), errors := ClearError(s.errors, f))
  }

  /** A sequence of edits, applied in order. */
  function ApplyEdits(s: State, edits: seq<(Field, string)>): State
    decreases |edits|
  {
    if edits == [] then s
    else ApplyEdits(HandleInputChange(s, edits[0].0, edits[0].1), edits[1..])
  }

  /** Whatever is typed, the stored phone number stays all digits: it holds
      initially and every edit keeps it. */
  lemma {:induction false} EditsKeepPhoneDigits(s: State, edits: seq<(Field, string)>)
    requires AllDigits(s.values.phoneNumber)
    ensures AllDigits(ApplyEdits(s, edits).values.phoneNumber)
    decreases |edits|
  {
    if edits != [] {
      var next := HandleInputChange(s, edits[0].0, edits[0].1);
      assert Get(next.values, PhoneNumber) == next.values.phoneNumber;
      EditsKeepPhoneDigits(next, edits[1..]);
    }
  }

  /** `validatePhoneNumber`: true exactly when the input holds ten digit
      characters, wherever they stand. */
  function ValidatePhoneNumber(phone: string): (b: bool)
    ensures b <==> |DigitPositions(phone)| == 10
  {
    DigitsOnlyLength(phone);
    |DigitsOnly(phone)| == 10
  }

  /** For a stored phone number, which is all digits, the check is simply
      that it has length ten. */
  lemma StoredPhoneCheck(phone: string)
    requires AllDigits(phone)
    ensures ValidatePhoneNumber(phone) <==> |phone| == 10
  {
    DigitsOnlyKeepsDigits(phone);
  }

  /** The error `handleSubmit` records for one field, if any: a required
      field that is blank after trimming, an e-mail that is not
      `local@domain.tld` shaped (tested on the untrimmed text), a phone
      number without exactly ten digits. Each field gets at most one
      message, so the two e-mail (or phone) messages never coincide. */
  function FieldError(v: LoginValues, f: Field): (e: Option<string>)
    ensures f == Name ==> e == (if AllWhitespace(v.name) then Some(NameRequired) else None)
    ensures f == Email ==> (
      e == if AllWhitespace(v.email) then Some(EmailRequired)
           else if !MatchesEmailPattern(v.email) then Some(EmailInvalid)
           else None)
    ensures f == Password ==>
      e == (if AllWhitespace(v.password) then Some(PasswordRequired) else None)
    ensures f == PhoneNumber ==> (
      e == if AllWhitespace(v.phoneNumber) then Some(PhoneRequired)
           else if |DigitPositions(v.phoneNumber)| != 10 then Some(PhoneLength)
           else None)
    ensures f == Class ==> e == None
  {
    match f
    case Name => if IsBlank(v.name) then Some(NameRequired) else None
    case Email =>
      IsEmailShapedCorrect(v.email);
      if IsBlank(v.email) then Some(EmailRequired)
      else if !IsEmailShaped(v.email) then Some(EmailInvalid)
      else None
    case Password => if IsBlank(v.password) then Some(PasswordRequired) else None
    case PhoneNumber =>
      if IsBlank(v.phoneNumber) then Some(PhoneRequired)
      else if !ValidatePhoneNumber(v.phoneNumber) then Some(PhoneLength)
      else None
    case Class => None
  }

  const AllFields: set<Field> := {Name, Email, Password, PhoneNumber, Class}

  /** The validation step of `handleSubmit`, building `newErrors`: exactly
      the fields with an error, each with its message. */
  function Validate(v: LoginValues): (errs: map<Field, string>)
    ensures forall f :: f in errs <==> FieldError(v, f).Some?
    ensures forall f :: f in errs ==> errs[f] == FieldError(v, f).value
    ensures forall f :: f in errs ==> errs[f] != ""
  {
    map f | f in AllFields && FieldError(v, f).Some? :: FieldError(v, f).value
  }

  /** What `handleSubmit` does before awaiting the service: either it stops
      with the new error record, or it marks the form as submitting and
      sends a payload. */
  datatype SubmitOutcome = Blocked(state: State) | Sending(state: State, payload: Payload)

  /** Submission stops exactly when validation found an error; the error
      record is then replaced by the new one and nothing is sent. Otherwise
      the error record is left as it was and the payload copies the five
      fields unchanged. */
  function HandleSubmit(s: State): (o: SubmitOutcome)
    ensures o.Blocked? <==> AnyErrors(Validate(s.values))
    ensures o.Blocked? ==> o.state == s.(errors := Validate(s.values))
    ensures o.Sending? ==> o.state == s.(isSubmitting := true)
    ensures o.Sending? ==>
      && o.payload.name == s.values.name && o.payload.email == s.values.email
      && o.payload.password == s.values.password
      && o.payload.phoneNumber == s.values.phoneNumber && o.payload.studentClass == s.values.studentClass
  {
    var newErrors := Validate(s.values);
    if AnyErrors(newErrors) then Blocked(s.(errors := newErrors))
    else
      var v := s.values;
      Sending(s.(isSubmitting := true), Payload(v.name, v.email, v.password, v.phoneNumber, v.studentClass))
  }

  /** How the login service call ended: an answer, or a thrown error. */
  datatype LoginReply =
    | Answered(success: bool, user: Option<UserDetails>, message: Option<string>)
    | Threw

  /** The rest of `handleSubmit`: the user is logged in, with the returned
      details, only on a successful answer that carries them; in every case
      the form stops submitting. */
  function FinishSubmit(s: State, reply: LoginReply): (r: State)
    ensures !r.isSubmitting
    ensures r.isLoggedIn <==> s.isLoggedIn || (reply.Answered? && reply.success && reply.user.Some?)
    ensures reply.Answered? && reply.success && reply.user.Some? ==> r.userDetails == reply.user
    ensures !(reply.Answered? && reply.success && reply.user.Some?) ==> r.userDetails == s.userDetails
    ensures r.values == s.values && r.errors == s.errors
  {
    match reply
    case Answered(true, Some(u), _) =>
      s.(userDetails := Some(u), isLoggedIn := true, isSubmitting := false)
    case _ => s.(isSubmitting := false)
  }
}
