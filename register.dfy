/** app/auth/register/page.tsx: the registration form's schema and the form → otp → done steps. */
module Register {
  import opened Wrappers
  import opened AuthMock

  datatype Step = Form | Otp | Done

  datatype RegisterValues = RegisterValues(email: string, username: string, password: string, confirmPassword: string)

  const EmptyValues: RegisterValues := RegisterValues("", "", "", "")

  datatype Field = EmailField | UsernameField | PasswordField | ConfirmPasswordField

  /** One schema issue; `TooShort` carries the field and its minimum length. */
  datatype Issue = InvalidEmail | TooShort(field: Field, min: nat) | PasswordsDoNotMatch

  /** `registerSchema`. Every field rule is checked and the password refinement runs as well, so
      all issues are reported together. `isEmail` is the verdict of the e-mail format check. */
  function SchemaIssues(v: RegisterValues, isEmail: bool): (issues: set<Issue>)
  {
    (if isEmail then {} else {InvalidEmail})
    + (if |v.username| < 3 then {TooShort(UsernameField, 3)} else {})
    + (if |v.password| < 8 then {TooShort(PasswordField, 8)} else {})
    + (if |v.confirmPassword| < 8 then {TooShort(ConfirmPasswordField, 8)} else {})
    + (if v.password != v.confirmPassword then {PasswordsDoNotMatch} else {})
  }

  /** The values pass exactly when the e-mail is well formed, the username has 3 characters, the
      password has 8 and the confirmation repeats it; a mismatch is always reported. */
  lemma SchemaAccepts(v: RegisterValues, isEmail: bool)
    ensures SchemaIssues(v, isEmail) == {} <==>
      isEmail && |v.username| >= 3 && |v.password| >= 8 && v.password == v.confirmPassword
    ensures PasswordsDoNotMatch in SchemaIssues(v, isEmail) <==> v.password != v.confirmPassword
    ensures TooShort(UsernameField, 3) in SchemaIssues(v, isEmail) <==> |v.username| < 3
  {
    if SchemaIssues(v, isEmail) == {} {
      assert InvalidEmail !in SchemaIssues(v, isEmail);
      assert TooShort(UsernameField, 3) !in SchemaIssues(v, isEmail);
      assert TooShort(PasswordField, 8) !in SchemaIssues(v, isEmail);
      assert PasswordsDoNotMatch !in SchemaIssues(v, isEmail);
    }
  }

  const InvalidCodeMessage: string := "Invalid code. Try again."

  /** The page's state, with `registrations` recording the payloads passed to `registerUser`. */
  class RegisterPage {
    var step: Step
    var email: string
    var submitting: bool
    var otpError: Option<string>
    var values: RegisterValues
    var registrations: seq<RegisterPayload>

    constructor ()
      ensures step == Form && email == [] && !submitting && otpError == None
      ensures values == EmptyValues && registrations == []
    {
      step, email, submitting, otpError := Form, [], false, None;
      values, registrations := EmptyValues, [];
    }

    /** Submitting the form: values that fail the schema never reach `onSubmit` and change
        nothing but the form; valid ones request a code, record the e-mail and move to 'otp'. */
    method Submit(auth: AuthService, v: RegisterValues, isEmail: bool, roll: nat) returns (issues: set<Issue>)
      requires roll < CodeRange
      modifies this, auth`emailToOtp
      ensures issues == SchemaIssues(v, isEmail)
      ensures values == v && registrations == old(registrations) && otpError == old(otpError)
      ensures issues != {} ==> submitting == old(submitting) && step == old(step) && email == old(email) && auth.emailToOtp == old(auth.emailToOtp)
      ensures issues == {} ==> !submitting && step == Otp && email == v.email && auth.emailToOtp == old(auth.emailToOtp)[v.email := CodeFor(roll)]
    {
      values := v;
      issues := SchemaIssues(v, isEmail);
      if issues != {} {
        return;
      }
      submitting := true;
      auth.RequestEmailOtp(v.email, roll);
      email := v.email;
      step := Otp;
      submitting := false;
    }

    /** `handleVerify`: a wrong code sets the error and registers nothing; a right one registers
        the form's values and moves to 'done'. */
    method HandleVerify(auth: AuthService, code: string) returns (ok: bool)
      modifies this, auth`emailToOtp
      ensures (ok, auth.emailToOtp) == VerifyOtp(old(auth.emailToOtp), old(email), code)
      ensures !submitting && email == old(email) && values == old(values)
      ensures !ok ==> otpError == Some(InvalidCodeMessage) && step == old(step) && registrations == old(registrations)
      ensures ok ==>
        && otpError == None && step == Done
        && registrations == old(registrations) + [RegisterPayload(values.email, values.username, values.password)]
    {
      submitting := true;
      otpError := None;
      ok := auth.VerifyEmailOtp(email, code);
      if !ok {
        otpError := Some(InvalidCodeMessage);
        submitting := false;
        return;
      }
      var payload := RegisterPayload(values.email, values.username, values.password);
      var registered := RegisterUser(payload);
      registrations := registrations + [payload];
      step := Done;
      submitting := false;
    }

    /** "Change email" goes back to the form. */
    method ChangeEmail()
      modifies this`step
      ensures step == Form
    {
      step := Form;
    }
  }
}
