/** The login page (src/components/Login.jsx): form validation, the gate in
    front of the request, what a reply does to the session, and how a
    thrown error is turned into a message. */
module LoginForm {
  import opened Results
  import opened Text
  import opened Patterns
  import Session

  const EmailRequired := "Email is required"
  const EmailInvalid := "Email is invalid"
  const PasswordRequired := "Password is required"
  const PasswordTooShort := "Password must be at least 6 characters"
  const LoginFailed := "Login failed. Please check your credentials."
  const CannotConnect := "Cannot connect to server. This might be a CORS issue or the server is not responding. Please ensure your backend server is running and configured to allow requests from localhost:3000."
  const NetworkError := "Network error. Please check your internet connection and try again."
  const ConnectionError := "Connection error. Please check if the server is running."

  /** The keys of the error map. */
  datatype Key = Email | Password | General

  type Errors = map<Key, string>

  datatype Form = Form(email: string, password: string)

  /** The page state: the form, its errors, the session it signs into, and
      whether it has navigated to the project list. */
  datatype Page = Page(form: Form, errors: Errors, session: Session.Manager, redirected: bool)

  function EmailError(email: string): (r: Option<string>)
    ensures r == Some(EmailRequired) <==> email == ""
    ensures r == Some(EmailInvalid) <==> email != "" && !IsLooseEmail(email)
    ensures r == None <==> IsLooseEmail(email)
  {
    if email == "" then Some(EmailRequired)
    else if !IsLooseEmail(email) then Some(EmailInvalid)
    else None
  }

  function PasswordError(password: string): (r: Option<string>)
    ensures r == Some(PasswordRequired) <==> password == ""
    ensures r == Some(PasswordTooShort) <==> password != "" && Utf16Length(password) < 6
    ensures r == None <==> Utf16Length(password) >= 6
  {
    if password == "" then Some(PasswordRequired)
    else if Utf16Length(password) < 6 then Some(PasswordTooShort)
    else None
  }

  /** `validateForm`'s error map: at most an address and a password error. */
  function ValidateForm(form: Form): (r: Errors)
    ensures General !in r
    ensures Email in r <==> EmailError(form.email).Some?
    ensures Email in r ==> r[Email] == EmailError(form.email).value
    ensures Password in r <==> PasswordError(form.password).Some?
    ensures Password in r ==> r[Password] == PasswordError(form.password).value
    ensures r == map[] <==> IsLooseEmail(form.email) && Utf16Length(form.password) >= 6
  {
    var email := EmailError(form.email);
    var password := PasswordError(form.password);
    var withEmail: Errors := if email.Some? then map[Email := email.value] else map[];
    var r := if password.Some? then withEmail[Password := password.value] else withEmail;
    assert email.Some? ==> Email in r;
    r
  }

  /** The reply to `POST /api/auth/login`: a response (its `ok` flag, the
      body's `success` flag, its `message` or "" and its `user`), or an error
      thrown by `fetch` or by parsing the body, with its name and message. */
  datatype Reply =
    | Response(ok: bool, success: bool, message: string, user: Session.User)
    | Threw(name: string, message: string)

  /** The message for a thrown error: a failed fetch, another TypeError,
      or anything else. */
  function ClassifyError(name: string, message: string): (r: string)
    ensures r == CannotConnect <==> name == "TypeError" && Contains(message, "Failed to fetch")
    ensures r == NetworkError <==> name == "TypeError" && !Contains(message, "Failed to fetch")
    ensures r == ConnectionError <==> name != "TypeError"
  {
    if name == "TypeError" && Contains(message, "Failed to fetch") then CannotConnect
    else if name == "TypeError" then NetworkError
    else ConnectionError
  }

  /** The result of a submit: the page afterwards, whether a request was
      sent, and the session's effects (a callback run at once when the new
      session had no time left). */
  datatype Step = Step(page: Page, sent: bool, effects: seq<Session.Effect>)

  /** `handleEmailLogin`. An invalid form shows its errors and sends nothing.
      A reply that is OK with `success` set stores the user, starts the
      session at `now`, arms the expiry timer and goes to the project list;
      any other reply or error leaves the session alone and shows one
      general error. */
  function HandleEmailLogin(page: Page, now: nat, reply: Reply, onTimeout: Session.Callback): (r: Step)
    requires Session.WellFormed(page.session.store)
    ensures r.sent <==> ValidateForm(page.form) == map[]
    ensures !r.sent ==> r.page == page.(errors := ValidateForm(page.form)) && r.effects == []
    ensures r.sent && reply.Response? && reply.ok && reply.success ==>
      var armed := Session.SetupTimeout(Session.SetUser(page.session, now, reply.user), now, onTimeout);
      && r.page == page.(errors := map[], session := armed.0, redirected := true)
      && r.effects == armed.1
    ensures r.sent && reply.Response? && !(reply.ok && reply.success) ==>
      && r.page == page.(errors := map[General := if reply.message != "" then reply.message else LoginFailed])
      && r.effects == []
    ensures r.sent && reply.Threw? ==>
      && r.page == page.(errors := map[General := ClassifyError(reply.name, reply.message)])
      && r.effects == []
  {
    var errors := ValidateForm(page.form);
    if |errors| != 0 then Step(page.(errors := errors), false, [])
    else
      match reply
      case Response(ok, success, message, user) =>
        if ok && success then
          var started := Session.SetUser(page.session, now, user);
          var (armed, effects) := Session.SetupTimeout(started, now, onTimeout);
          Step(page.(errors := errors, session := armed, redirected := true), true, effects)
        else
          Step(page.(errors := map[General := if message != "" then message else LoginFailed]), true, [])
      case Threw(name, message) =>
        Step(page.(errors := map[General := ClassifyError(name, message)]), true, [])
  }

  /** A successful sign-in leaves a session that is valid for the next
      thirty minutes, with its expiry timer set for the end of that window
      and no callback run yet. */
  lemma SuccessfulLoginStartsSession(page: Page, now: nat, reply: Reply, onTimeout: Session.Callback, d: int)
    requires Session.WellFormed(page.session.store)
    requires ValidateForm(page.form) == map[]
    requires reply.Response? && reply.ok && reply.success && reply.user.json != ""
    requires 0 <= d
    ensures var r := HandleEmailLogin(page, now, reply, onTimeout);
      && (Session.IsSessionValid(r.page.session.store, now + d) <==> d < Session.SessionTimeout)
      && r.page.session.timer == Some(Session.Timer(now + Session.SessionTimeout, onTimeout))
      && r.effects == []
  {
    Session.SetUserValidWindow(page.session, reply.user, now, d);
    Session.SetUserValidWindow(page.session, reply.user, now, 0);
  }
}
