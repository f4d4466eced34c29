/** The user-access page (src/components/Access.jsx): the new-user form's
    validation, the submit gate in front of the confirmation popup, the
    debounced "is this address taken?" check, and the list of existing
    users, which leaves out the person signed in. */
module AccessForm {
  import opened Results
  import opened Text
  import opened Patterns
  import Lists

  const NameRequired := "Name is required"
  const NameTooShort := "Name must be at least 2 characters"
  const EmailRequired := "Email is required"
  const EmailInvalid := "Please enter a valid email address"
  const TakenMarker := "already registered"
  const EmailTaken := "This email is " + TakenMarker + ". Please use a different email address."
  const PasswordRequired := "Password is required"
  const PasswordTooShort := "Password must be at least 8 characters"
  const PasswordWeak := "Password must contain uppercase, lowercase, and number"
  const ConfirmRequired := "Please confirm your password"
  const ConfirmMismatch := "Passwords do not match"

  /** The form's fields; errors are stored under the field they concern. */
  datatype Field = Name | Position | Email | Password | ConfirmPassword

  datatype Form = Form(name: string, position: string, email: string, password: string, confirmPassword: string) {
    function Get(f: Field): string {
      match f
      case Name => name
      case Position => position
      case Email => email
      case Password => password
      case ConfirmPassword => confirmPassword
    }

    function Set(f: Field, value: string): (r: Form)
      ensures r.Get(f) == value
      ensures forall g: Field :: g != f ==> r.Get(g) == Get(g)
    {
      match f
      case Name => this.(name := value)
      case Position => this.(position := value)
      case Email => this.(email := value)
      case Password => this.(password := value)
      case ConfirmPassword => this.(confirmPassword := value)
    }
  }

  /** Field errors, keyed by field (an entry may be "" once cleared). */
  type Errors = map<Field, string>

  /** The parts of the page's state these operations touch. `pendingCheck`
      is the trimmed address whose availability check is scheduled, if any. */
  datatype Page = Page(form: Form, errors: Errors, showConfirmPopup: bool, pendingCheck: Option<string>)

  /** The name rule: blank, then shorter than two UTF-16 units once trimmed. */
  function NameError(name: string): (r: Option<string>)
    ensures r == Some(NameRequired) <==> AllSpace(name)
    ensures r == Some(NameTooShort) <==> !AllSpace(name) && Utf16Length(Trim(name)) < 2
    ensures r == None <==> Utf16Length(Trim(name)) >= 2
  {
    TrimEmptyIffAllSpace(name);
    if Trim(name) == [] then Some(NameRequired)
    else if Utf16Length(Trim(name)) < 2 then Some(NameTooShort)
    else None
  }

  /** The address rule: blank once trimmed, then the (untrimmed) address does
      not match the pattern, then an earlier "already registered" error is
      carried over. */
  function EmailError(email: string, previous: Errors): (r: Option<string>)
    ensures r == Some(EmailRequired) <==> AllSpace(email)
    ensures r == Some(EmailInvalid) <==> !AllSpace(email) && !IsStrictEmail(email)
    ensures r.Some? && r.value != EmailRequired && r.value != EmailInvalid ==>
      IsStrictEmail(email) && Email in previous && r.value == previous[Email] && Contains(r.value, TakenMarker)
    ensures r == None <==> IsStrictEmail(email) && !(Email in previous && Contains(previous[Email], TakenMarker))
  {
    TrimEmptyIffAllSpace(email);
    if Trim(email) == [] then Some(EmailRequired)
    else if !IsStrictEmail(email) then Some(EmailInvalid)
    else if Email in previous && previous[Email] != "" && Contains(previous[Email], TakenMarker) then
      TakenErrorIsNeitherRequiredNorInvalid(previous[Email]);
      Some(previous[Email])
    else None
  }

  /** A message mentioning "already registered" is neither of the other two
      address messages, so carrying it over cannot be mistaken for them. */
  lemma TakenErrorIsNeitherRequiredNorInvalid(m: string)
    requires Contains(m, TakenMarker)
    ensures m != EmailRequired && m != EmailInvalid && m != ""
  {
    var i :| OccursAt(m, TakenMarker, i);
    assert OccursAt(m, TakenMarker, i);
    assert m[i + 6] == TakenMarker[6] == 'y';
  }

  /** The password rule; the first rule that fails gives the message. */
  function PasswordError(password: string): (r: Option<string>)
    ensures r == Some(PasswordRequired) <==> password == ""
    ensures r == Some(PasswordTooShort) <==> password != "" && Utf16Length(password) < 8
    ensures r == Some(PasswordWeak) <==> Utf16Length(password) >= 8 && !IsStrongPassword(password)
    ensures r == None <==> Utf16Length(password) >= 8 && IsStrongPassword(password)
  {
    if password == "" then Some(PasswordRequired)
    else if Utf16Length(password) < 8 then Some(PasswordTooShort)
    else if !IsStrongPassword(password) then Some(PasswordWeak)
    else None
  }

  /** The confirmation rule: empty, then different from the password. */
  function ConfirmError(password: string, confirm: string): (r: Option<string>)
    ensures r == Some(ConfirmRequired) <==> confirm == ""
    ensures r == Some(ConfirmMismatch) <==> confirm != "" && confirm != password
    ensures r == None <==> confirm != "" && confirm == password
  {
    if confirm == "" then Some(ConfirmRequired)
    else if password != confirm then Some(ConfirmMismatch)
    else None
  }

  /** `errors` holds, under `key`, exactly the message there is (if any). */
  predicate Reports(errors: Errors, key: Field, message: Option<string>) {
    (key in errors <==> message.Some?) && (key in errors ==> errors[key] == message.value)
  }

  /** The error map built from the four field verdicts. */
  function Collect(name: Option<string>, email: Option<string>, password: Option<string>, confirm: Option<string>): (r: Errors)
    ensures r.Keys <= {Name, Email, Password, ConfirmPassword}
    ensures Reports(r, Name, name) && Reports(r, Email, email)
    ensures Reports(r, Password, password) && Reports(r, ConfirmPassword, confirm)
  {
    var verdicts := map[Name := name, Email := email, Password := password, ConfirmPassword := confirm];
    map f | f in verdicts && verdicts[f].Some? :: verdicts[f].value
  }

  /** `validateForm`: one error per failing field, under the field's key,
      and nothing else. */
  function ValidateForm(form: Form, previous: Errors): (r: Errors)
    ensures r.Keys <= {Name, Email, Password, ConfirmPassword}
    ensures Reports(r, Name, NameError(form.name))
    ensures Reports(r, Email, EmailError(form.email, previous))
    ensures Reports(r, Password, PasswordError(form.password))
    ensures Reports(r, ConfirmPassword, ConfirmError(form.password, form.confirmPassword))
  {
    Collect(NameError(form.name), EmailError(form.email, previous),
      PasswordError(form.password), ConfirmError(form.password, form.confirmPassword))
  }

  /** The form passes exactly when every field is acceptable: a name of at
      least two units, a well-formed address not known to be taken, a strong
      password of at least eight units, and a matching confirmation. */
  lemma ValidIffAllFieldsAcceptable(form: Form, previous: Errors)
    ensures ValidateForm(form, previous) == map[] <==>
      && Utf16Length(Trim(form.name)) >= 2
      && IsStrictEmail(form.email)
      && !(Email in previous && Contains(previous[Email], TakenMarker))
      && Utf16Length(form.password) >= 8 && IsStrongPassword(form.password)
      && form.confirmPassword == form.password
  {
    var r := ValidateForm(form, previous);
    if r == map[] {
      assert Name !in r && Email !in r && Password !in r && ConfirmPassword !in r;
    }
  }

  /** `handleSubmit`: with errors, show them and stay; without, open the
      confirmation popup (the request is only sent after confirmation). */
  function HandleSubmit(page: Page): (r: Page)
    ensures r.showConfirmPopup && !page.showConfirmPopup ==> ValidateForm(page.form, page.errors) == map[]
    ensures ValidateForm(page.form, page.errors) == map[] ==> r == page.(showConfirmPopup := true)
    ensures ValidateForm(page.form, page.errors) != map[] ==>
      r == page.(errors := ValidateForm(page.form, page.errors))
  {
    var found := ValidateForm(page.form, page.errors);
    if |found| > 0 then page.(errors := found) else page.(showConfirmPopup := true)
  }

  /** `handleInputChange`: store the value; blank that field's error if it
      had one (other errors stay); for the address field, schedule a check of
      the trimmed value, or cancel the pending check when it is blank. */
  function HandleInputChange(page: Page, f: Field, value: string): (r: Page)
    ensures r.form == page.form.Set(f, value)
    ensures forall k :: k != f ==>
      (k in r.errors <==> k in page.errors) && (k in r.errors ==> r.errors[k] == page.errors[k])
    ensures f in r.errors <==> f in page.errors
    ensures f in r.errors ==> r.errors[f] == ""
    ensures f != Email ==> r.pendingCheck == page.pendingCheck
    ensures f == Email ==> r.pendingCheck == (if AllSpace(value) then None else Some(Trim(value)))
    ensures r.showConfirmPopup == page.showConfirmPopup
  {
    TrimEmptyIffAllSpace(value);
    var errors := if f in page.errors && page.errors[f] != "" then page.errors[f := ""] else page.errors;
    var pending :=
      if f != Email then page.pendingCheck
      else if Trim(value) != [] then Some(Trim(value))
      else None;
    Page(page.form.Set(f, value), errors, page.showConfirmPopup, pending)
  }

  /** The answer to `GET /api/auth/user/<email>`. */
  datatype Lookup = Found | NotFound | OtherStatus | NetworkFailure

  /** `checkEmailExists`: an address that does not match the pattern is not
      looked up; a found account sets the "already registered" error; a 404
      drops the address error only if it is that error; every other entry is
      kept. Returns the errors and whether a request was sent. */
  function CheckEmailExists(errors: Errors, email: string, reply: Lookup): (r: (Errors, bool))
    ensures r.1 <==> IsStrictEmail(email)
    ensures !r.1 ==> r.0 == errors
    ensures forall k :: k != Email ==> (k in r.0 <==> k in errors) && (k in r.0 ==> r.0[k] == errors[k])
    ensures r.1 && reply == Found ==> Email in r.0 && r.0[Email] == EmailTaken
    ensures r.1 && reply == NotFound ==>
      (Email in r.0 <==> Email in errors && !Contains(errors[Email], TakenMarker))
      && (Email in r.0 ==> r.0[Email] == errors[Email])
    ensures r.1 && (reply == OtherStatus || reply == NetworkFailure) ==> r.0 == errors
  {
    if !IsStrictEmail(email) then (errors, false)
    else
      match reply
      case Found => (errors[Email := EmailTaken], true)
      case NotFound =>
        if Email in errors && errors[Email] != "" && Contains(errors[Email], TakenMarker)
        then (errors - {Email}, true)
        else (errors, true)
      case _ => (errors, true)
  }

  /** A found account blocks the form until the address changes: after the
      check reports the address taken, validating the same form fails on the
      address field. */
  lemma TakenAddressBlocksSubmit(page: Page, email: string)
    requires page.form.email == email && IsStrictEmail(email)
    ensures var errors := CheckEmailExists(page.errors, email, Found).0;
      Email in ValidateForm(page.form, errors)
      && ValidateForm(page.form, errors)[Email] == EmailTaken
  {
    var errors := CheckEmailExists(page.errors, email, Found).0;
    assert OccursAt(EmailTaken, TakenMarker, 14);
    assert Contains(EmailTaken, TakenMarker);
    StrictEmailHasNoSpace(email);
    TrimEmptyIffAllSpace(email);
  }

  /** An entry of the users list; `email` is None when the record has none. */
  datatype UserEntry = UserEntry(email: Option<string>, name: string, position: string)

  /** The signed-in address `fetchAllUsers` compares against: "" when no
      user is stored or it does not parse, else the stored user's `email`
      field (possibly missing). */
  function CurrentUserEmail(stored: Option<UserEntry>): (r: Option<string>)
    ensures stored.None? ==> r == Some("")
    ensures stored.Some? ==> r == stored.value.email
  {
    match stored
    case None => Some("")
    case Some(u) => u.email
  }

  /** The users list shown: every fetched entry whose address differs from
      the signed-in one, in the order fetched. */
  function OtherUsers(users: seq<UserEntry>, current: Option<string>): (r: seq<UserEntry>)
    ensures forall k :: 0 <= k < |r| ==> r[k].email != current && r[k] in users
    ensures forall u :: u in users && u.email != current ==> u in r
    ensures |r| <= |users|
  {
    Lists.Filter(users, (u: UserEntry) => u.email != current)
  }

  /** The list hides the signed-in user. Signed in, no entry sharing the
      stored user's address is shown and every other entry is; a stored user
      without an address therefore hides every entry without one. Signed
      out, every entry with an address other than "" is shown. */
  lemma ListHidesSignedInUser(users: seq<UserEntry>, stored: Option<UserEntry>)
    ensures var shown := OtherUsers(users, CurrentUserEmail(stored));
      && (stored.Some? ==>
            (forall k :: 0 <= k < |shown| ==> shown[k].email != stored.value.email)
            && (forall u :: u in users && u.email != stored.value.email ==> u in shown))
      && (stored.Some? && stored.value.email.None? ==> forall k :: 0 <= k < |shown| ==> shown[k].email.Some?)
      && (stored.None? ==> forall u :: u in users && u.email != Some("") ==> u in shown)
  {
  }

  /** Refreshing the list after appending more fetched entries keeps the
      earlier survivors first, in their order. */
  lemma OtherUsersKeepsOrder(front: seq<UserEntry>, back: seq<UserEntry>, current: Option<string>)
    ensures OtherUsers(front + back, current) == OtherUsers(front, current) + OtherUsers(back, current)
  {
    Lists.FilterAppend(front, back, (u: UserEntry) => u.email != current);
  }
}
