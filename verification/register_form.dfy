/**
 * The registration form: its six inputs, the password confirmation it checks before calling
 * `register`, and the error it shows afterwards. `register` itself (the authentication context)
 * is a parameter.
 */
module RegisterForm {
  import opened Wrappers

  /** The six inputs, by their `name` attribute. */
  datatype FormField = FirstName | LastName | Username | Email | Password | ConfirmPassword

  /** The form state: every input has a value. */
  type Form = map<FormField, string>

  predicate Complete(form: Form) { forall f: FormField :: f in form }

  /** The form as first rendered: six empty inputs. */
  const INITIAL: Form := map f: FormField | true :: ""

  lemma InitialComplete()
    ensures Complete(INITIAL) && forall f: FormField :: INITIAL[f] == ""
  {
  }

  /** `handleChange`: the named input takes the new value and every other input keeps its own. */
  function HandleChange(form: Form, name: FormField, value: string): (r: Form)
    requires Complete(form)
    ensures Complete(r)
    ensures r[name] == value
    ensures forall f :: f != name ==> r[f] == form[f]
  {
    form[name := value]
  }

  /** What `register` reports. */
  datatype RegisterResult = RegisterResult(success: bool, error: string)

  const PASSWORD_MISMATCH := "Passwords do not match"

  /** How a submit ends: the error shown, whether the spinner is on, and what `register` received. */
  datatype SubmitState = SubmitState(error: string, loading: bool, sent: Option<Form>)

  /** `const { confirmPassword, ...userData } = formData`. */
  function UserData(form: Form): (r: Form)
    requires Complete(form)
    ensures r.Keys == form.Keys - {ConfirmPassword}
    ensures forall f :: f in r ==> r[f] == form[f]
  {
    map f | f in form && f != ConfirmPassword :: form[f]
  }

  /**
   * `handleSubmit`: a confirmation that differs from the password stops with an error and no
   * call; otherwise `register` gets the five other inputs and its error, if it fails, is shown.
   * Either way the spinner is off at the end.
   */
  function HandleSubmit(form: Form, register: Form -> RegisterResult): (r: SubmitState)
    requires Complete(form)
    ensures !r.loading
    ensures r.sent.None? <==> form[Password] != form[ConfirmPassword]
    ensures r.sent.None? ==> r.error == PASSWORD_MISMATCH
    ensures r.sent.Some? ==> r.sent.value == UserData(form)
    ensures r.sent.Some? && register(r.sent.value).success ==> r.error == ""
    ensures r.sent.Some? && !register(r.sent.value).success ==> r.error == register(r.sent.value).error
  {
    if form[Password] != form[ConfirmPassword] then
      SubmitState(PASSWORD_MISMATCH, false, None)
    else
      var userData := UserData(form);
      var result := register(userData);
      SubmitState(if result.success then "" else result.error, false, Some(userData))
  }

  /**
   * `register` receives exactly first name, last name, username, email and password, and only
   * when the two password inputs agree.
   */
  lemma RegisterGetsFiveFields(form: Form, register: Form -> RegisterResult)
    requires Complete(form) && form[Password] == form[ConfirmPassword]
    ensures var s := HandleSubmit(form, register);
      && s.sent.Some?
      && s.sent.value.Keys == {FirstName, LastName, Username, Email, Password}
      && s.sent.value[Password] == form[ConfirmPassword]
  {
    var keys := UserData(form).Keys;
    forall f: FormField ensures f in keys <==> f in {FirstName, LastName, Username, Email, Password} {
    }
  }

  /** Typing the password again into the confirmation input is what lets the submit through. */
  lemma ConfirmingUnblocksSubmit(form: Form, register: Form -> RegisterResult)
    requires Complete(form)
    ensures var confirmed := HandleChange(form, ConfirmPassword, form[Password]);
      HandleSubmit(confirmed, register).sent == Some(UserData(form))
  {
    var confirmed := HandleChange(form, ConfirmPassword, form[Password]);
    assert UserData(confirmed) == UserData(form);
  }
}
