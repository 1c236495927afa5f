/** `validateForm`: the check run before a login or registration is simulated. */
module AuthForm {
  import opened JsText

  /** The active tab, which also selects the submit handler. */
  datatype Tab = Login | Register

  /** The controlled form fields. */
  datatype FormData = FormData(username: Text, password: Text, confirmPassword: Text, email: Text)

  /** The outcome of validation; a rejection carries the message shown to the user. */
  datatype Verdict = Accepted | Rejected(message: string)

  const MISSING_CREDENTIALS: string := "Username and password are required"
  const PASSWORD_MISMATCH: string := "Passwords do not match"

  /** The empty form the component starts with. */
  const EMPTY_FORM: FormData := FormData([], [], [], [])

  /** `!formData.username || !formData.password`: a string is falsy exactly when empty. */
  predicate MissingCredentials(form: FormData) {
    |form.username| == 0 || |form.password| == 0
  }

  function ValidateForm(form: FormData, tab: Tab): (v: Verdict)
    // the credentials check comes first and applies on both tabs
    ensures (v == Rejected(MISSING_CREDENTIALS)) <==> MissingCredentials(form)
    // the confirmation is compared only on the register tab
    ensures (v == Rejected(PASSWORD_MISMATCH)) <==>
              (!MissingCredentials(form) && tab.Register? && form.password != form.confirmPassword)
    // every other input is accepted
    ensures (v == Accepted) <==>
              (!MissingCredentials(form) && (tab.Login? || form.password == form.confirmPassword))
  {
    if MissingCredentials(form) then Rejected(MISSING_CREDENTIALS)
    else if tab.Register? && form.password != form.confirmPassword then Rejected(PASSWORD_MISMATCH)
    else Accepted
  }

  /** The e-mail field is never consulted, and on the login tab neither is the
      confirmation. */
  lemma ValidateIgnoresUnreadFields(form: FormData, email: Text, confirm: Text)
    ensures ValidateForm(form.(email := email), Register) == ValidateForm(form, Register)
    ensures ValidateForm(form.(email := email, confirmPassword := confirm), Login)
            == ValidateForm(form, Login)
  {
  }

  /** Registration is strictly the stricter of the two tabs: whatever it accepts,
      login accepts, and the only extra rejection is the confirmation mismatch. */
  lemma RegisterStricterThanLogin(form: FormData)
    ensures ValidateForm(form, Register) == Accepted ==> ValidateForm(form, Login) == Accepted
    ensures ValidateForm(form, Login) == Accepted && ValidateForm(form, Register) != Accepted
            ==> ValidateForm(form, Register) == Rejected(PASSWORD_MISMATCH)
  {
  }

  /** The initial, empty form is rejected on either tab. */
  lemma EmptyFormRejected(tab: Tab)
    ensures ValidateForm(EMPTY_FORM, tab) == Rejected(MISSING_CREDENTIALS)
  {
  }
}
