/** The change-password page (src/components/Changeps.jsx): validation of
    the three password fields, the submit gate, the mapping of a failed
    reply to the message shown, and the cancel button. */
module ChangePassword {
  import opened Results
  import opened Text
  import opened Patterns

  const EmailMissing := "User email not found. Please log in again."
  const CurrentRequired := "Current password is required"
  const NewRequired := "New password is required"
  const NewTooShort := "New password must be at least 8 characters"
  const NewWeak := "Password must contain at least one uppercase letter, one lowercase letter, and one number"
  const ConfirmRequired := "Please confirm your new password"
  const ConfirmMismatch := "Passwords do not match"
  const MustDiffer := "New password must be different from current password"
  const BadRequest := "Invalid current password or request data"
  const UserNotFound := "User not found"
  const ServerErrorPrefix := "Server error: "
  const DefaultFailure := "Failed to change password. Please try again."

  /** The keys of the error map. */
  datatype Key = General | CurrentPassword | NewPassword | ConfirmPassword

  type Errors = map<Key, string>

  datatype Form = Form(currentPassword: string, newPassword: string, confirmPassword: string)

  const EmptyForm := Form("", "", "")

  /** The page state: the form, the signed-in address ("" when unknown),
      the errors and the two result popups. */
  datatype Page = Page(form: Form, userEmail: string, errors: Errors,
                       showSuccessPopup: bool, showErrorPopup: bool, errorMessage: string)

  /** The rules on the new password alone, the first failing one winning. */
  function NewPasswordRule(password: string): (r: Option<string>)
    ensures r == Some(NewRequired) <==> password == ""
    ensures r == Some(NewTooShort) <==> password != "" && Utf16Length(password) < 8
    ensures r == Some(NewWeak) <==> Utf16Length(password) >= 8 && !IsStrongPassword(password)
    ensures r == None <==> Utf16Length(password) >= 8 && IsStrongPassword(password)
  {
    if password == "" then Some(NewRequired)
    else if Utf16Length(password) < 8 then Some(NewTooShort)
    else if !IsStrongPassword(password) then Some(NewWeak)
    else None
  }

  /** The new-password verdict: reusing the current password replaces any
      other message with "must be different". */
  function NewPasswordError(current: string, password: string): (r: Option<string>)
    ensures current != "" && current == password ==> r == Some(MustDiffer)
    ensures !(current != "" && current == password) ==> r == NewPasswordRule(password)
    ensures r == None <==> Utf16Length(password) >= 8 && IsStrongPassword(password) && current != password
  {
    if current != "" && password != "" && current == password then Some(MustDiffer)
    else NewPasswordRule(password)
  }

  function ConfirmError(password: string, confirm: string): (r: Option<string>)
    ensures r == Some(ConfirmRequired) <==> confirm == ""
    ensures r == Some(ConfirmMismatch) <==> confirm != "" && confirm != password
    ensures r == None <==> confirm != "" && confirm == password
  {
    if confirm == "" then Some(ConfirmRequired)
    else if password != confirm then Some(ConfirmMismatch)
    else None
  }

  /** `errors` holds, under `key`, exactly the message there is (if any). */
  predicate Reports(errors: Errors, key: Key, message: Option<string>) {
    (key in errors <==> message.Some?) && (key in errors ==> errors[key] == message.value)
  }

  function Collect(general: Option<string>, current: Option<string>, password: Option<string>, confirm: Option<string>): (r: Errors)
    ensures Reports(r, General, general) && Reports(r, CurrentPassword, current)
    ensures Reports(r, NewPassword, password) && Reports(r, ConfirmPassword, confirm)
  {
    var verdicts := map[General := general, CurrentPassword := current, NewPassword := password, ConfirmPassword := confirm];
    map k | k in verdicts && verdicts[k].Some? :: verdicts[k].value
  }

  /** `validateForm`'s error map. */
  function ValidateForm(form: Form, userEmail: string): (r: Errors)
    ensures Reports(r, General, if userEmail == "" then Some(EmailMissing) else None)
    ensures Reports(r, CurrentPassword, if form.currentPassword == "" then Some(CurrentRequired) else None)
    ensures Reports(r, NewPassword, NewPasswordError(form.currentPassword, form.newPassword))
    ensures Reports(r, ConfirmPassword, ConfirmError(form.newPassword, form.confirmPassword))
  {
    Collect(
      if userEmail == "" then Some(EmailMissing) else None,
      if form.currentPassword == "" then Some(CurrentRequired) else None,
      NewPasswordError(form.currentPassword, form.newPassword),
      ConfirmError(form.newPassword, form.confirmPassword))
  }

  /** The form passes exactly when the address is known, the current
      password is given, the new one is strong, at least eight units long
      and different from the current one, and it is confirmed. */
  lemma ValidIffAcceptable(form: Form, userEmail: string)
    ensures ValidateForm(form, userEmail) == map[] <==>
      && userEmail != ""
      && form.currentPassword != ""
      && Utf16Length(form.newPassword) >= 8 && IsStrongPassword(form.newPassword)
      && form.newPassword != form.currentPassword
      && form.confirmPassword == form.newPassword
  {
    var r := ValidateForm(form, userEmail);
    if r == map[] {
      assert General !in r && CurrentPassword !in r && NewPassword !in r && ConfirmPassword !in r;
    }
  }

  /** The body of `POST /api/auth/change-password`. */
  datatype Request = Request(email: string, oldPassword: string, newPassword: string)

  /** `handleSubmit` up to the request: an invalid form shows its errors and
      sends nothing; a valid one clears the errors and both popups and sends
      the address with the current and new passwords. */
  function HandleSubmit(page: Page): (r: (Page, Option<Request>))
    ensures r.1.Some? <==> ValidateForm(page.form, page.userEmail) == map[]
    ensures r.0.errors == ValidateForm(page.form, page.userEmail)
    ensures r.1.Some? ==>
      r.1.value == Request(page.userEmail, page.form.currentPassword, page.form.newPassword)
      && !r.0.showSuccessPopup && !r.0.showErrorPopup
    ensures r.1.None? ==> r.0 == page.(errors := r.0.errors)
  {
    var errors := ValidateForm(page.form, page.userEmail);
    if |errors| != 0 then (page.(errors := errors), None)
    else
      (page.(errors := errors, showSuccessPopup := false, showErrorPopup := false),
       Some(Request(page.userEmail, page.form.currentPassword, page.form.newPassword)))
  }

  /** What came back: an HTTP status, or an error thrown on the way. */
  datatype Reply = Status(code: nat) | Threw(message: string)

  /** The message for a status outside 200..299. */
  function FailureMessage(code: nat): (r: string)
    ensures code == 400 ==> r == BadRequest
    ensures code == 404 ==> r == UserNotFound
    ensures code != 400 && code != 404 ==>
      && ServerErrorPrefix <= r
      && AllDigits(r[|ServerErrorPrefix|..])
      && ParseDecimal(r[|ServerErrorPrefix|..]) == code
  {
    if code == 400 then BadRequest
    else if code == 404 then UserNotFound
    else
      var r := ServerErrorPrefix + NatToString(code);
      assert r[|ServerErrorPrefix|..] == NatToString(code);
      ParseNatToString(code);
      r
  }

  /** Distinct failure statuses other than 400 and 404 give distinct
      messages, so the message identifies the status. */
  lemma FailureMessageInjective(a: nat, b: nat)
    requires a != 400 && a != 404 && b != 400 && b != 404
    requires FailureMessage(a) == FailureMessage(b)
    ensures a == b
  {
  }

  /** The rest of `handleSubmit`: success shows the success popup and
      empties the form; a failure status or a thrown error shows the error
      popup with its message. */
  function HandleReply(page: Page, reply: Reply): (r: Page)
    ensures reply.Status? && 200 <= reply.code <= 299 ==>
      r == page.(showSuccessPopup := true, form := EmptyForm)
    ensures reply.Status? && !(200 <= reply.code <= 299) ==>
      r == page.(errorMessage := FailureMessage(reply.code), showErrorPopup := true)
    ensures reply.Threw? ==>
      r == page.(errorMessage := if reply.message != "" then reply.message else DefaultFailure, showErrorPopup := true)
    ensures r.userEmail == page.userEmail && r.errors == page.errors
  {
    match reply
    case Status(code) =>
      if 200 <= code <= 299 then page.(showSuccessPopup := true, form := EmptyForm)
      else page.(errorMessage := FailureMessage(code), showErrorPopup := true)
    case Threw(message) =>
      page.(errorMessage := if message != "" then message else DefaultFailure, showErrorPopup := true)
  }

  /** A password that was changed cannot be sent again by accident: after
      a success the emptied form fails on every password field, so the next
      submit sends nothing. */
  lemma ChangedPasswordIsNotResent(page: Page, code: nat)
    requires 200 <= code <= 299
    ensures var after := HandleReply(page, Status(code));
      && HandleSubmit(after).1.None?
      && ValidateForm(after.form, after.userEmail)[NewPassword] == NewRequired
  {
    var after := HandleReply(page, Status(code));
    assert ValidateForm(after.form, after.userEmail)[CurrentPassword] == CurrentRequired;
  }

  /** A failed change can be retried as it stands: after a failure status
      or a thrown error the form is kept, so the next submit sends the
      same request as the one that failed. */
  lemma FailedChangeCanBeRetried(page: Page, reply: Reply)
    requires reply.Threw? || !(200 <= reply.code <= 299)
    ensures HandleSubmit(HandleReply(page, reply)).1 == HandleSubmit(page).1
  {
  }

  /** `handleCancel`: empty fields, no errors, no popups; the address and
      the last error message are kept. */
  function HandleCancel(page: Page): (r: Page)
    ensures r.form == EmptyForm && r.errors == map[]
    ensures !r.showSuccessPopup && !r.showErrorPopup
    ensures r.userEmail == page.userEmail && r.errorMessage == page.errorMessage
  {
    page.(form := EmptyForm, errors := map[], showSuccessPopup := false, showErrorPopup := false)
  }

  /** After a cancel the form cannot be submitted: the empty form fails on
      every password field. */
  lemma CancelledFormIsRejected(page: Page)
    ensures var errors := ValidateForm(HandleCancel(page).form, page.userEmail);
      errors[CurrentPassword] == CurrentRequired && errors[NewPassword] == NewRequired
      && errors[ConfirmPassword] == ConfirmRequired
  {
  }
}
