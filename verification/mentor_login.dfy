/** The mentor login page (frontend/src/pages/MentorLogin.ts): two fields,
    the same clear-on-edit error record as the student page, trimmed
    required-field checks, and a payload that carries the fields as typed. */
module MentorLogin {
  import opened Text
  import opened FormErrors

  /** The `name` attributes of the form's inputs. */
  datatype Field = MentorId | Password

  datatype LoginValues = LoginValues(mentorId: string, password: string)

  const InitialValues := LoginValues("", "")

  datatype State = State(values: LoginValues, isSubmitting: bool, errors: map<Field, string>)

  const Initial := State(InitialValues, false, map[])

  /** The body posted to the login service. */
  datatype Payload = Payload(mentorId: string, password: string)

  const MentorIdRequired := "Mentor ID is required"
  const PasswordRequired := "Password is required"

  /** `loginValues[name]`. */
  function Get(v: LoginValues, f: Field): string {
    match f
    case MentorId => v.mentorId
    case Password => v.password
  }

  /** `handleInputChange`: the edited field stores the input as typed, the
      other field keeps its value, and the edited field's error (if shown)
      is cleared while the other error stays. */
  function HandleInputChange(s: State, f: Field, value: string): (r: State)
    ensures Get(r.values, f) == value
    ensures forall g :: g != f ==> Get(r.values, g) == Get(s.values, g)
    ensures r.errors.Keys == s.errors.Keys && !HasError(r.errors, f)
    ensures forall g :: g in s.errors && g != f ==> r.errors[g] == s.errors[g]
    ensures !HasError(s.errors, f) ==> r.errors == s.errors
    ensures r.isSubmitting == s.isSubmitting
  {
    var values := match f
      case MentorId => s.values.(mentorId := value)
      case Password => s.values.(password := value);
    s.(values := values, errors := ClearError(s.errors, f))
  }

  /** The validation step of `handleSubmit`, building `newErrors`: a field
      gets its "required" message exactly when it is blank after trimming. */
  function Validate(v: LoginValues): (errs: map<Field, string>)
    ensures MentorId in errs <==> AllWhitespace(v.mentorId)
    ensures MentorId in errs ==> errs[MentorId] == MentorIdRequired
    ensures Password in errs <==> AllWhitespace(v.password)
    ensures Password in errs ==> errs[Password] == PasswordRequired
  {
    var idErr := if IsBlank(v.mentorId) then map[MentorId := MentorIdRequired] else map[];
    var passwordErr := if IsBlank(v.password) then map[Password := PasswordRequired] else map[];
    idErr + passwordErr
  }

  /** What `handleSubmit` does before awaiting the service. */
  datatype SubmitOutcome = Blocked(state: State) | Sending(state: State, payload: Payload)

  /** Any error stops submission and makes the error record exactly the new
      one; with none, the form is marked submitting and the payload carries
      both fields exactly as typed, untrimmed, although validation looked
      at their trimmed forms. */
  function HandleSubmit(s: State): (o: SubmitOutcome)
    ensures o.Blocked? <==> AllWhitespace(s.values.mentorId) || AllWhitespace(s.values.password)
    ensures o.Blocked? ==> o.state == s.(errors := Validate(s.values))
    ensures o.Sending? ==> o.state == s.(isSubmitting := true)
    ensures o.Sending? ==>
      o.payload.mentorId == s.values.mentorId && o.payload.password == s.values.password
  {
    var newErrors := Validate(s.values);
    if AnyErrors(newErrors) then Blocked(s.(errors := newErrors))
    else Sending(s.(isSubmitting := true), Payload(s.values.mentorId, s.values.password))
  }

  /** The `finally` of `handleSubmit`: whatever the service answered, the
      form stops submitting and nothing else in the state changes. */
  function FinishSubmit(s: State): (r: State)
    ensures !r.isSubmitting
    ensures r.values == s.values && r.errors == s.errors
  {
    s.(isSubmitting := false)
  }
}
