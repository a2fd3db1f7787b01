/**
 * The sign-in / sign-up screen of the emotion diary: the guard chain that
 * `handleAuth` runs before it calls the authentication service, the table from
 * service error codes to messages, and the screen's state (`isLogin`, the three
 * form fields and `loading`). The service is not modelled: its result is a
 * parameter.
 */
module Auth {
  import opened Options
  import opened JsStrings
  import opened Ui

  const MIN_PASSWORD_LENGTH: nat := 6

  /** Why `handleAuth` stopped before calling the service. */
  datatype Rejection = MissingCredentials | PasswordMismatch | PasswordTooShort

  datatype Verdict = Rejected(reason: Rejection) | Proceed

  /**
   * The guards of `handleAuth`, in order: both fields filled in, then (sign-up only)
   * the confirmation matching, then at least six UTF-16 code units of password.
   */
  function Validate(isLogin: bool, email: string, password: string, confirmPassword: string): (v: Verdict)
    ensures v == Proceed <==>
      email != "" && password != "" && (isLogin || password == confirmPassword) &&
      Utf16Length(password) >= MIN_PASSWORD_LENGTH
  {
    if email == "" || password == "" then Rejected(MissingCredentials)
    else if !isLogin && password != confirmPassword then Rejected(PasswordMismatch)
    else if Utf16Length(password) < MIN_PASSWORD_LENGTH then Rejected(PasswordTooShort)
    else Proceed
  }

  const NOTICE_TITLE := "알림"

  function RejectionMessage(r: Rejection): (m: string)
    ensures m != GENERIC_ERROR_MESSAGE
  {
    match r
    case MissingCredentials => "이메일과 비밀번호를 입력해주세요."
    case PasswordMismatch => "비밀번호가 일치하지 않습니다."
    case PasswordTooShort => "비밀번호는 6자 이상이어야 합니다."
  }

  const GENERIC_ERROR_MESSAGE := "오류가 발생했습니다."

  /** The error codes `handleAuth` has a message of its own for. */
  const KNOWN_ERROR_CODES: seq<string> := [
    "auth/email-already-in-use",
    "auth/invalid-email",
    "auth/user-not-found",
    "auth/wrong-password",
    "auth/invalid-credential",
    "auth/too-many-requests"
  ]

  /** The message shown for a service error code; a missing code is any string not in the table. */
  function ErrorMessage(code: string): (m: string)
    ensures m == GENERIC_ERROR_MESSAGE <==> code !in KNOWN_ERROR_CODES
  {
    if code == "auth/email-already-in-use" then "이미 사용 중인 이메일입니다."
    else if code == "auth/invalid-email" then "올바른 이메일 형식이 아닙니다."
    else if code == "auth/user-not-found" then "존재하지 않는 계정입니다."
    else if code == "auth/wrong-password" then "비밀번호가 올바르지 않습니다."
    else if code == "auth/invalid-credential" then "이메일 또는 비밀번호가 올바르지 않습니다."
    else if code == "auth/too-many-requests" then "너무 많은 시도가 있었습니다. 잠시 후 다시 시도해주세요."
    else GENERIC_ERROR_MESSAGE
  }

  /** The call `handleAuth` makes once every guard passes. */
  datatype Call = SignIn(email: string, password: string) | SignUp(email: string, password: string)

  /** What the authentication service answered. */
  datatype Outcome = Succeeded | Failed(code: string)

  /** The call for the current mode. */
  function CallFor(isLogin: bool, email: string, password: string): (c: Call)
    ensures c.SignIn? == isLogin && c.email == email && c.password == password
  {
    if isLogin then SignIn(email, password) else SignUp(email, password)
  }

  /** The alert once the service has answered: a welcome after a sign-up, nothing after a sign-in, the mapped message after an error. */
  function CompletionAlert(call: Call, outcome: Outcome): (a: Option<Alert>)
    ensures a.None? <==> outcome.Succeeded? && call.SignIn?
    ensures outcome.Failed? ==> a == Some(Alert("오류", ErrorMessage(outcome.code)))
  {
    match outcome
    case Succeeded => if call.SignUp? then Some(Alert("환영합니다!", "회원가입이 완료되었습니다.")) else None
    case Failed(code) => Some(Alert("오류", ErrorMessage(code)))
  }

  /** The three form fields and the mode, the part of the state `toggleMode` touches. */
  datatype Form = Form(isLogin: bool, email: string, password: string, confirmPassword: string)

  /** `toggleMode` on the form: the other mode, every field cleared. */
  function Toggled(f: Form): Form {
    Form(!f.isLogin, "", "", "")
  }

  class AuthScreen {
    var isLogin: bool
    var email: string
    var password: string
    var confirmPassword: string
    var loading: bool

    function CurrentForm(): Form
      reads this
    {
      Form(isLogin, email, password, confirmPassword)
    }

    /** The initial state: login mode, empty fields, not loading. */
    constructor ()
      ensures isLogin && email == "" && password == "" && confirmPassword == "" && !loading
    {
      isLogin, email, password, confirmPassword, loading := true, "", "", "", false;
    }

    method EditEmail(text: string)
      modifies this`email
      ensures email == text
    {
      email := text;
    }

    method EditPassword(text: string)
      modifies this`password
      ensures password == text
    {
      password := text;
    }

    method EditConfirmPassword(text: string)
      modifies this`confirmPassword
      ensures confirmPassword == text
    {
      confirmPassword := text;
    }

    method ToggleMode()
      modifies this`isLogin, this`email, this`password, this`confirmPassword
      ensures CurrentForm() == Toggled(old(CurrentForm()))
    {
      isLogin := !isLogin;
      email := "";
      password := "";
      confirmPassword := "";
    }

    /**
     * `handleAuth` up to the `await`: a rejected attempt shows a notice and changes
     * nothing; otherwise `loading` is set and the call for the current mode is returned.
     */
    method BeginAuth() returns (call: Option<Call>, alert: Option<Alert>)
      modifies this`loading
      ensures var v := Validate(isLogin, email, password, confirmPassword);
        if v.Rejected? then
          call == None && alert == Some(Alert(NOTICE_TITLE, RejectionMessage(v.reason))) && loading == old(loading)
        else
          call == Some(CallFor(isLogin, email, password)) && alert == None && loading
    {
      var v := Validate(isLogin, email, password, confirmPassword);
      if v.Rejected? {
        call, alert := None, Some(Alert(NOTICE_TITLE, RejectionMessage(v.reason)));
        return;
      }
      loading := true;
      call := Some(CallFor(isLogin, email, password));
      alert := None;
    }

    /** `handleAuth` after the `await`: the alert for the answer, and `loading` cleared whatever it was. */
    method CompleteAuth(call: Call, outcome: Outcome) returns (alert: Option<Alert>)
      modifies this`loading
      ensures !loading
      ensures alert == CompletionAlert(call, outcome)
    {
      alert := CompletionAlert(call, outcome);
      loading := false;
    }

    /** The whole of `handleAuth`, the service answering `outcome` if it is called at all. */
    method HandleAuth(outcome: Outcome) returns (call: Option<Call>, alert: Option<Alert>)
      modifies this`loading
      ensures var v := Validate(isLogin, email, password, confirmPassword);
        (call.Some? <==> v == Proceed) &&
        (v.Rejected? ==> alert == Some(Alert(NOTICE_TITLE, RejectionMessage(v.reason))) && loading == old(loading)) &&
        (v == Proceed ==>
          call == Some(CallFor(isLogin, email, password)) && alert == CompletionAlert(call.value, outcome) && !loading)
    {
      call, alert := BeginAuth();
      if call.Some? {
        alert := CompleteAuth(call.value, outcome);
      }
    }
  }

  // ----- properties of the guard chain -----

  /** An empty email or password is reported first, whatever the mode and the other fields. */
  lemma EmptyFieldsRejectedFirst(isLogin: bool, email: string, password: string, confirmPassword: string)
    requires email == "" || password == ""
    ensures Validate(isLogin, email, password, confirmPassword) == Rejected(MissingCredentials)
  {
  }

  /** In login mode the confirmation field is never consulted. */
  lemma LoginIgnoresConfirmation(email: string, password: string, confirm1: string, confirm2: string)
    ensures Validate(true, email, password, confirm1) == Validate(true, email, password, confirm2)
  {
  }

  /** In sign-up mode a mismatch is reported before the length is looked at. */
  lemma MismatchReportedBeforeLength(email: string, password: string, confirmPassword: string)
    requires email != "" && password != "" && password != confirmPassword
    ensures Validate(false, email, password, confirmPassword) == Rejected(PasswordMismatch)
  {
  }

  /** A password under six code units is rejected in both modes once the earlier guards pass. */
  lemma ShortPasswordRejected(isLogin: bool, email: string, password: string, confirmPassword: string)
    requires email != "" && password != "" && (isLogin || password == confirmPassword)
    requires Utf16Length(password) < MIN_PASSWORD_LENGTH
    ensures Validate(isLogin, email, password, confirmPassword) == Rejected(PasswordTooShort)
  {
  }

  /** Short mismatched passwords in sign-up mode report the mismatch, not the length. */
  lemma ShortMismatchExample()
    ensures Validate(false, "me@example.com", "abc", "abd") == Rejected(PasswordMismatch)
  {
  }

  // ----- properties of the error table -----

  /** Each listed code has a message of its own. */
  lemma ErrorMessagesDistinct(code1: string, code2: string)
    requires code1 in KNOWN_ERROR_CODES && code2 in KNOWN_ERROR_CODES && code1 != code2
    ensures ErrorMessage(code1) != ErrorMessage(code2)
  {
  }

  // ----- properties of toggleMode -----

  /** Toggling twice restores the mode and leaves every field empty. */
  lemma ToggleTwice(f: Form)
    ensures Toggled(Toggled(f)) == Form(f.isLogin, "", "", "")
    ensures Toggled(Toggled(f)) != f <==> (f.email != "" || f.password != "" || f.confirmPassword != "")
  {
  }
}
