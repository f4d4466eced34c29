# HusmaAdminFE core, modelled in Dafny

HusmaAdminFE is a Next.js admin dashboard. Its components render forms and
forward requests to a backend. Below the rendering sits a thin layer of
deterministic logic, and this project models that layer:

- the client-side session (`src/utils/sessionManager.js`): the stored
  user and start time, the 30-minute validity window, the single expiry
  timer, and the inactivity watchdog that offers to extend the session;
- the form validators and submit gates of the new-user page
  (`Access.jsx`), the change-password page (`Changeps.jsx`) and the login
  page (`Login.jsx`), including the three regular expressions, written out
  as string predicates;
- the image bookkeeping of the project editor (`EditProject.jsx`): the
  file check, index removals that keep the previews aligned with the files,
  the ordered upload strategies with their fallback, and the update request
  built by the confirmed submit;
- the optional fields and image lists of the new-project form
  (`Addnew.jsx`), and the delete flow of the project list (`Project.jsx`);
- URL joining (`src/utils/api.js`).

Everything a browser would supply is a parameter:

- the clock is `now` (milliseconds);
- `localStorage` is a `map<string, string>`;
- a timer is its deadline together with the callback it runs;
- the answer to `confirm` is a boolean;
- HTTP replies and upload outcomes are datatypes or functions passed in;
- JSON parsing of the stored user is a function `string -> Option<U>`.

Each operation is a pure function from the old state and these inputs to
the new state. JavaScript semantics that matter are written out:

- `""` is falsy;
- `.length` counts UTF-16 code units;
- `trim` and `\s` use ECMAScript's white-space set;
- an anchored pattern must match the whole string, an unanchored one any
  substring;
- `.` in a lookahead does not cross a line terminator;
- `Math.ceil(a / b)` is `(a + b - 1) / b`;
- `toFixed(2)` of a size in mebibytes rounds to the nearest hundredth,
  with ties going up.

Modules, one per source file, plus shared helpers:

| module | file | models |
|---|---|---|
| `Results` | results.dfy | `Option` and `Result` |
| `Text` | text.dfy | trim, includes, UTF-16 length, decimal text |
| `Patterns` | patterns.dfy | the address and password regular expressions |
| `Lists` | lists.dfy | `filter` by index and by predicate |
| `Files` | files.dfy | a chosen file |
| `Session` | session.dfy | `sessionManager.js` |
| `Api` | api.dfy | `api.js` |
| `AccessForm` | access.dfy | `Access.jsx` |
| `ChangePassword` | changeps.dfy | `Changeps.jsx` |
| `LoginForm` | login.dfy | `Login.jsx` |
| `EditProject` | editproject.dfy | `EditProject.jsx` |
| `AddNew` | addnew.dfy | `Addnew.jsx` |
| `ProjectList` | project.dfy | `Project.jsx` |

Three behaviours of the session code are easy to miss, and the model keeps
them as written:

- A stored user that does not parse does not end the session:
  `isSessionValid` only checks that both values are present, so the
  session stays valid. `getUser` returns `null` and clears nothing.
  `Session.CorruptUserKeepsSessionValid` states this.
- User activity never extends the session. It only restarts the 25-minute
  watchdog. A user who keeps interacting is therefore never warned and is
  signed out 30 minutes after signing in. `Session.LateActivityPreventsWarning`
  states this.
- The extension prompt blocks, and the code reads the clock again once it
  is answered. A "yes" given after the window has closed is refused by
  `extendSession`, and `setupTimeout` then runs the callback at once: the
  expiry alert is never shown and the stored user is not removed.
  `Session.LateConsentSkipsAlert` states this.

## Model

| member | source | states |
|---|---|---|
| Session.GetRemainingTime | src/utils/sessionManager.js:21-28 | 0 without a start time; positive exactly when a start time is stored and fewer than 30 minutes have passed; then it is the time to the end of the window, never more than 30 minutes |
| Session.IsSessionValid | src/utils/sessionManager.js:8-18 | valid only with a user and a start time stored; a session valid at some moment was valid at every earlier one |
| Session.ValidIffTimeRemains | src/utils/sessionManager.js:8-28 | with a user stored, the session is valid exactly when some time remains |
| Session.ClearSession | src/utils/sessionManager.js:59-67 | user, start time and last-login stamp are gone; no timer is pending; the session is invalid at every time; every other key keeps its value |
| Session.SetUser | src/utils/sessionManager.js:95-102 | the user is stored and the start time reads back as `now`; the last-login stamp is replaced only when the user carries one, otherwise the old one is kept; other keys and the timer are untouched |
| Session.SetUserValidWindow | src/utils/sessionManager.js:95-102 | a session started at t0 is valid at t0+d exactly when d is under 30 minutes |
| Session.ExtendSession | src/utils/sessionManager.js:70-78 | answers true exactly when the session was valid, and then restarts it at `now`; answers false and leaves the store unchanged otherwise |
| Session.ExtendGivesFullWindow | src/utils/sessionManager.js:70-78 | an extended session is valid for exactly the next 30 minutes |
| Session.GetUser | src/utils/sessionManager.js:81-92 | nothing when the session is invalid; otherwise whatever the stored text parses to, nothing included |
| Session.GetUserRoundTrip | src/utils/sessionManager.js:81-102 | reading the user within 30 minutes of signing in gives the parse of the stored text; after clearing there is no user |
| Session.CorruptUserKeepsSessionValid | src/utils/sessionManager.js:8-18 | an unparseable stored user yields no user but leaves a session within its window valid |
| Session.SetupTimeout | src/utils/sessionManager.js:31-47 | the store is untouched; with no time left the callback runs at once and no timer remains; otherwise exactly one timer is pending, due at the end of the session window and after `now` |
| Session.RearmReplacesTimer | src/utils/sessionManager.js:31-47 | arming twice leaves at most one timer, and only the second callback can fire |
| Session.HandleTimeout | src/utils/sessionManager.js:50-56 | the session is cleared; the alert comes first, then the callback |
| Session.FireDueTimer | src/utils/sessionManager.js:44-56 | a timer whose deadline has come leaves exactly the cleared store, every other key kept, no timer and an invalid session, and alerts before running its callback; otherwise nothing happens |
| Session.TimerDeadlineIsExpiry | src/utils/sessionManager.js:37-46 | a timer armed on a valid session is due exactly when the session stops being valid |
| Session.Warning | src/utils/sessionManager.js:117-120 | a warning is due exactly when the session is valid and at most 300,000 ms remain; the minutes announced are the remaining time rounded up to whole minutes, between 1 and 5 |
| Session.CeilDivBound | src/utils/sessionManager.js:119-120 | the rounded-up minute count is at most n exactly when the milliseconds are at most n minutes, and is at least 1 for any positive time |
| Session.CeilDivBrackets | src/utils/sessionManager.js:119 | the rounded-up count q of a positive time is the whole number with (q-1) minutes < time <= q minutes |
| Session.StartMonitoring | src/utils/sessionManager.js:108-137 | listening, with the watchdog due 25 minutes from now |
| Session.IdleAfterLoginWarnsAtFiveMinutes | src/utils/sessionManager.js:95-137 | signing in and then staying idle, the watchdog fires with exactly 5 minutes left and the prompt announces 5 |
| Session.Activity | src/utils/sessionManager.js:111-129 | while listening, an event moves the watchdog to 25 minutes after it; after clean-up events change nothing |
| Session.StopMonitoring | src/utils/sessionManager.js:140-147 | listeners detached and no watchdog pending |
| Session.StoppedMonitorStaysSilent | src/utils/sessionManager.js:140-147 | after clean-up no sequence of events brings a watchdog back |
| Session.LateActivityPreventsWarning | src/utils/sessionManager.js:105-129 | an event more than 5 minutes into the session sets a watchdog that fires only after expiry, when no warning is due |
| Session.WatchdogFires | src/utils/sessionManager.js:117-126 | the watchdog is spent; the prompt is shown exactly when the warning is due; a yes answered while the session is valid restarts it at the answer, changing only the start time, and re-arms the timer for 30 minutes later; a yes after expiry cancels the timer and runs the callback at once; without a prompt or a yes nothing changes |
| Session.TimelyConsentGivesFullWindow | src/utils/sessionManager.js:121-124 | a timely yes makes the session valid for exactly the 30 minutes after the answer, and the new timer fires exactly when it stops being valid |
| Session.LateConsentSkipsAlert | src/utils/sessionManager.js:31-40 | a yes given at the end of the window runs only the callback, with no alert and no timer, and leaves the stored user in place in an invalid session |
| Session.ExtendScenario | src/utils/sessionManager.js:70-78 | a session begun at 0 is over at 3,400,000 ms, but extended at 1,700,000 ms it is still valid then |
| Session.ClearThenSetUser | src/utils/sessionManager.js:59-102 | clearing ends the session and signing in starts a new one |
| Api.ApiBaseUrl | src/utils/api.js:2 | the configured base when non-empty, else `http://localhost:5001` |
| Api.UrlsStartAtTheBase | src/utils/api.js:2-9 | the base is never empty, every URL starts with it and one '/', and with the default address when nothing is configured |
| Api.BuildApiUrl | src/utils/api.js:5-9 | an endpoint with a leading '/' is appended as is; any other endpoint gets one '/' in front |
| Api.LeadingSlashOptional | src/utils/api.js:7-8 | adding one '/' to an endpoint that has none does not change the URL |
| Api.OnlyOneSlashRemoved | src/utils/api.js:7 | "//x" keeps one slash, so the previous equation fails for endpoints already starting with '/' |
| Text.TrimEmptyIffAllSpace | src/components/Access.jsx:289 | a string trims to "" exactly when it is all white space |
| Text.TrimShape | src/components/Access.jsx:291 | the trimmed text has no white space at either end and occurs in the original |
| Text.TrimIdempotent | src/components/Access.jsx:291 | trimming twice equals trimming once |
| Text.Utf16Length | src/components/Access.jsx:291 | `.length` is between the number of characters and twice that, and equals it when no character lies outside the BMP |
| Text.ParseNatToString | src/utils/sessionManager.js:74 | reading back a written time gives the time |
| Text.ContainsTransitive | src/components/Access.jsx:270 | text containing a phrase contains every part of it |
| Patterns.StrictEmailHasNoSpace | src/components/Access.jsx:296 | an address the anchored pattern accepts has no white space and at least five characters |
| Patterns.StrictEmailIsLooseEmail | src/components/Login.jsx:66 | every address the new-user form accepts is accepted by the login form |
| Patterns.LooseEmailAcceptsEmbeddedAddress | src/components/Login.jsx:66 | the login pattern accepts "to: a@b.c", which the new-user pattern rejects |
| Patterns.StrongPasswordIffHasAllClasses | src/components/Access.jsx:311 | the three lookaheads succeed only if an ASCII lower-case letter, upper-case letter and digit all occur, and on a single line whenever they do |
| Lists.RemoveAt | src/components/EditProject.jsx:137 | in range, the list without entry i in order; out of range, the list itself |
| Lists.RemoveAtLength | src/components/EditProject.jsx:141-145 | removal shortens by one exactly when in range, so equal-length lists stay equal |
| Lists.Filter | src/components/Access.jsx:107 | only accepted entries, all from the list, and every accepted entry is kept |
| Lists.FilterAppend | src/components/Access.jsx:107 | filtering distributes over concatenation, so order is preserved |
| Lists.FilterExtremes | src/components/Project.jsx:88 | accepting everything changes nothing; accepting nothing leaves nothing |
| Lists.FilterCutsOne | src/components/Project.jsx:88 | removing the only rejected entry cuts exactly that entry out |
| AccessForm.NameError | src/components/Access.jsx:289-293 | "required" exactly when blank; "too short" exactly when non-blank and under 2 units once trimmed; no error exactly when at least 2 |
| AccessForm.EmailError | src/components/Access.jsx:296-304 | "required" exactly when blank; "invalid" exactly when non-blank and not matching the anchored pattern; otherwise only an earlier "already registered" error is carried over |
| AccessForm.TakenErrorIsNeitherRequiredNorInvalid | src/components/Access.jsx:301-303 | a message mentioning "already registered" differs from the other two address messages |
| AccessForm.PasswordError | src/components/Access.jsx:307-313 | the first failing rule's message, the three being mutually exclusive; no error exactly when at least 8 units and strong |
| AccessForm.ConfirmError | src/components/Access.jsx:316-320 | "please confirm" exactly when empty; "do not match" exactly when non-empty and different |
| AccessForm.ValidateForm | src/components/Access.jsx:285-323 | each field's entry holds exactly that field's verdict, and nothing else is keyed |
| AccessForm.ValidIffAllFieldsAcceptable | src/components/Access.jsx:285-323 | no errors exactly when every field is acceptable |
| AccessForm.HandleSubmit | src/components/Access.jsx:326-337 | the popup opens only for a form without errors; otherwise the errors are stored |
| AccessForm.HandleInputChange | src/components/Access.jsx:207-241 | the value is stored; only that field's error is blanked; editing the address schedules a check of its trimmed value, or none when blank |
| AccessForm.CheckEmailExists | src/components/Access.jsx:244-282 | a malformed address is not looked up; found sets the "already registered" error; a 404 drops the address error only if it is that one; other entries are unchanged |
| AccessForm.TakenAddressBlocksSubmit | src/components/Access.jsx:260-304 | after a found address, validating the same form fails on the address with the "already registered" message |
| AccessForm.CurrentUserEmail | src/components/Access.jsx:95-104 | "" when no user is stored, else the stored user's address, possibly missing |
| AccessForm.OtherUsers | src/components/Access.jsx:107 | exactly the fetched entries whose address differs from the signed-in one |
| AccessForm.ListHidesSignedInUser | src/components/Access.jsx:95-108 | signed in, no entry with the stored address is shown and all others are; a stored user without an address hides every entry without one; signed out, every entry with a non-empty address is shown |
| AccessForm.OtherUsersKeepsOrder | src/components/Access.jsx:107 | the filter keeps the fetched order |
| ChangePassword.NewPasswordRule | src/components/Changeps.jsx:72-78 | the first failing rule's message; no error exactly when at least 8 units and strong |
| ChangePassword.NewPasswordError | src/components/Changeps.jsx:88-90 | reusing a non-empty current password gives "must be different" over any other message |
| ChangePassword.ConfirmError | src/components/Changeps.jsx:81-85 | "please confirm" exactly when empty; "do not match" exactly when non-empty and different |
| ChangePassword.ValidateForm | src/components/Changeps.jsx:58-94 | the general, current, new and confirm entries hold exactly their verdicts |
| ChangePassword.ValidIffAcceptable | src/components/Changeps.jsx:58-94 | no errors exactly when the address is known, the current password given, the new one strong, long enough and different, and confirmed |
| ChangePassword.HandleSubmit | src/components/Changeps.jsx:96-125 | a request is sent exactly when there are no errors, carrying the address and the current and new passwords |
| ChangePassword.FailureMessage | src/components/Changeps.jsx:131-137 | 400 and 404 get their messages; any other status is "Server error: " followed by that status's digits |
| ChangePassword.FailureMessageInjective | src/components/Changeps.jsx:136 | distinct other statuses give distinct messages |
| ChangePassword.HandleReply | src/components/Changeps.jsx:127-158 | a 2xx status shows success and empties the form; a failure status or thrown error shows its message (or the default) in the error popup and changes nothing else; the address and field errors are never touched |
| ChangePassword.ChangedPasswordIsNotResent | src/components/Changeps.jsx:143-150 | after a success the next submit sends nothing, the new password being required again |
| ChangePassword.FailedChangeCanBeRetried | src/components/Changeps.jsx:152-155 | after a failure the next submit sends the same request |
| ChangePassword.HandleCancel | src/components/Changeps.jsx:161-170 | empty fields, no errors, no popups; the address is kept |
| ChangePassword.CancelledFormIsRejected | src/components/Changeps.jsx:161-170 | the form left by cancel fails on all three password fields |
| LoginForm.EmailError | src/components/Login.jsx:64-68 | "required" exactly when empty; "invalid" exactly when non-empty with no matching substring |
| LoginForm.PasswordError | src/components/Login.jsx:71-75 | "required" exactly when empty; "too short" exactly when non-empty and under 6 units |
| LoginForm.ValidateForm | src/components/Login.jsx:60-79 | entries for exactly the failing fields; empty exactly when both fields pass |
| LoginForm.ClassifyError | src/components/Login.jsx:130-136 | one of three messages, chosen by a TypeError mentioning "Failed to fetch", another TypeError, or anything else |
| LoginForm.HandleEmailLogin | src/components/Login.jsx:81-140 | a request is sent exactly when the form is valid; only an OK reply with success stores the user, arms the timer (its effects passed on), clears the errors and redirects, the form kept; any other reply shows the server message or the default and has no effect |
| LoginForm.SuccessfulLoginStartsSession | src/components/Login.jsx:102-119 | after a successful login the session is valid for exactly the next 30 minutes and the timer is due at its end |
| EditProject.Hundredths | src/components/EditProject.jsx:185 | the shown size is the nearest hundredth of a mebibyte |
| EditProject.MegabyteText | src/components/EditProject.jsx:185 | whole mebibytes, '.', two digits, reading back as the rounded hundredths |
| EditProject.ValidateImageFile | src/components/EditProject.jsx:176-189 | no error exactly when the type is one of the five and the size at most 10 MiB; the type is checked first |
| EditProject.OversizeShowsAtLeastTenMegabytes | src/components/EditProject.jsx:184-185 | a file over the limit is never shown as under 10.00 MB |
| EditProject.FirstInvalid | src/components/EditProject.jsx:106 | nothing exactly when every file passes; otherwise the first failing file's message |
| EditProject.RemoveExistingImage | src/components/EditProject.jsx:130-139 | stored image i leaves the list, the others in order; the URL is queued for removal; nothing else changes |
| EditProject.RemoveNewImage | src/components/EditProject.jsx:141-145 | entry i leaves both the previews and the new files; nothing else changes |
| EditProject.RemoveNewImageKeepsAligned | src/components/EditProject.jsx:141-145 | previews stay aligned with the files |
| EditProject.RemoveMainImage | src/components/EditProject.jsx:125-128 | neither a main file nor a main URL remains |
| EditProject.RemovedMainImageIsNotSent | src/components/EditProject.jsx:125-311 | after removing the main image an update carries an empty main image, and with no other new files one is always sent |
| EditProject.HandleMainImageChange | src/components/EditProject.jsx:86-98 | a valid file becomes the main file and clears the error; an invalid one only sets the error |
| EditProject.ReplaceMainImage | src/components/EditProject.jsx:147-161 | a valid file becomes the main file, the main URL alone of the form is cleared and the error goes; an invalid one only sets the error |
| EditProject.PreviewsOf | src/components/EditProject.jsx:111-115 | preview k shows file k |
| EditProject.HandleAdditionalImagesChange | src/components/EditProject.jsx:100-123 | all or nothing: a valid batch is appended in order with its previews; otherwise the first failing file's message is shown and nothing is added |
| EditProject.AddBatchKeepsAligned | src/components/EditProject.jsx:100-123 | previews stay aligned with the files |
| EditProject.PresetPhrasesMentionPreset | src/components/EditProject.jsx:235 | a body naming a missing or invalid preset mentions "preset" |
| EditProject.PresetInRejectionIsInBody | src/components/EditProject.jsx:236-243 | "preset" in a rejection's message comes from its body |
| EditProject.RejectionMovesOnIffBodyMentionsPreset | src/components/EditProject.jsx:230-245 | a rejected upload moves on to the next strategy exactly when its body mentions "preset" |
| EditProject.RejectionPrefixLetters | src/components/EditProject.jsx:236 | the only 'p' before the body is in "Upload", followed by 'l' |
| EditProject.PresetNotInRejectionPrefix | src/components/EditProject.jsx:236 | "preset" never starts before the body in a rejection message |
| EditProject.RunStrategies | src/components/EditProject.jsx:208-251 | tries a prefix of the strategies in order; every strategy but the last tried failed over a preset; the fallback is used exactly when all failed over a preset; otherwise the last attempt's URL or message |
| EditProject.UploadToCloudinary | src/components/EditProject.jsx:191-257 | an invalid file is never sent; otherwise the strategy loop's result; every error starts with "Image upload failed: " |
| EditProject.FallbackOnlyAfterEveryPreset | src/components/EditProject.jsx:199-251 | the fallback is used exactly when all four attempts failed over a preset; a first success ends the upload |
| Results.Gather | src/components/EditProject.jsx:330-335 | every value in order when no step fails; otherwise the first failure |
| EditProject.UploadAll | src/components/EditProject.jsx:325-344 | all URLs in file order when every upload succeeds; otherwise the first failure's message |
| EditProject.BuildPayload | src/components/EditProject.jsx:300-311 | the ten fields; images are the current ones then the uploaded ones; the main image is the uploaded URL when there is one |
| EditProject.HandleConfirmedSubmit | src/components/EditProject.jsx:288-379 | an unreachable service with images waiting stops the submit; a failed main upload, then a failed additional upload, stops it with its prefixed message; otherwise exactly the update built from the uploaded URLs is sent; once stored the pending files, previews and removals are cleared; a refused or thrown save shows its message; any failure leaves the state as it was apart from the message |
| EditProject.NothingToUploadKeepsImages | src/components/EditProject.jsx:300-311 | with nothing new, the update carries the form's own images |
| EditProject.RemovedImageIsNotSent | src/components/EditProject.jsx:130-344 | a removed stored image is not in the update |
| AddNew.WithField | src/components/Addnew.jsx:118-125 | the named field reads back as given; every other field is unchanged |
| AddNew.Toggle | src/components/Addnew.jsx:117-126 | the switch flips; switching on keeps the text, switching off empties it; nothing else changes |
| AddNew.ToggleTwice | src/components/Addnew.jsx:117-126 | toggling twice restores the switch but empties the text, so the field comes back exactly when it had no text |
| AddNew.ChangeDetails | src/components/Addnew.jsx:128-136 | the text changes, the switch and other fields do not |
| AddNew.TypedTextSurvivesSwitchingOn | src/components/Addnew.jsx:117-136 | text typed while off survives switching on |
| AddNew.HandleMainImageChange | src/components/Addnew.jsx:41-55 | a chosen file becomes the main image |
| AddNew.LatestMainImageWins | src/components/Addnew.jsx:41-55 | only the latest choice of main image counts; choosing nothing keeps the earlier one |
| AddNew.HandleAllImagesChange | src/components/Addnew.jsx:57-62 | the selection replaces the image list |
| AddNew.ChoosingAgainReplaces | src/components/Addnew.jsx:57-87 | choosing again forgets the earlier list; adding to a fresh choice equals choosing both batches at once |
| AddNew.HandleAddMoreImages | src/components/Addnew.jsx:78-87 | a non-empty selection is appended in order after the existing images; an empty one changes nothing |
| AddNew.RemoveImage | src/components/Addnew.jsx:105-115 | entry i leaves both the images and the previews, the others in order |
| AddNew.RemoveAddedImage | src/components/Addnew.jsx:78-115 | adding and removing one of the new images equals adding only the others |
| AddNew.Reset | src/components/Addnew.jsx:145-159 | empty texts, no images, every optional field off, no previews |
| AddNew.ResetForgets | src/components/Addnew.jsx:6-28 | reset gives the initial page whatever came before |
| ProjectList.Key | src/components/Project.jsx:59 | `_id` when set, else `id` |
| ProjectList.HandleDeleteClick | src/components/Project.jsx:45-53 | error cleared, project selected, confirmation open |
| ProjectList.Without | src/components/Project.jsx:88 | no remaining project is filed under the id; every other project is kept |
| ProjectList.HandleConfirmDelete | src/components/Project.jsx:56-98 | without an id nothing is sent; a delete filters the list and shows success; a refusal or error leaves the list and shows its message; the confirmation always closes |
| ProjectList.DeleteRemovesExactlyTheSelected | src/components/Project.jsx:88 | deleting the only project under its key cuts exactly that entry out |
| ProjectList.ClickThenDelete | src/components/Project.jsx:45-91 | clicking then confirming sends the project's key and leaves no project under it |

## Left out

- Rendering, routing, popups' timed auto-close and the `isLoading` / `isSubmitting` / `isCheckingEmail` flags: they only affect what is drawn.
- The proxy routes under `src/app/api`, the `page.js` files, `layout.js`, `Navbar.jsx`, `Left.jsx`, `HusmahLogo.jsx` and `next.config.js`: they forward requests or render, with no logic of their own.
- Session.LoginTime: a stored start time is assumed to be a decimal number (`WellFormed`). The `NaN` that `parseInt` gives for other text is not modelled; the session code itself only ever writes decimal numbers there.
- Session.GetUser: JSON parsing is the parameter `parse`; the stored user is its JSON text.
- Session.SetUser: the user's `lastLoginAt` is the text stored under that key, "" standing for missing or falsy; a non-string stamp is not modelled.
- Session.WatchdogFires: the `confirm` dialog is the boolean `consent` together with the time `answered` at which it is given; the watchdog's restart on the next event is `Session.Activity`.
- Real timers and event listeners: a timer is a deadline plus a callback number, fired by `Session.FireDueTimer`; the six event kinds are one `Session.Activity` event.
- LoginForm.HandleEmailLogin: `onLoginSuccess` and the redirect are reduced to the `redirected` flag; a successful reply without a `user` is not modelled. The redirect on mount when a session is valid, `handleLogout`, `handleForgotPassword` and the login page's `handleInputChange` are not modelled.
- ChangePassword.HandleReply: a 2xx reply whose body is not JSON throws in the code; here any thrown error, that one included, is a `Threw` reply. How the page obtains the signed-in address is not modelled; it is the `userEmail` field.
- AccessForm.CheckEmailExists: the 800 ms debounce is reduced to the pending trimmed address; the user creation and removal requests after the confirmation popup are not modelled.
- EditProject.UploadToCloudinary: the upload service is a function from strategy to outcome. The data-URL fallback reads the file with `FileReader`, so it is the function `dataUrl`, and its failure paths are not modelled. The one-second delay is not modelled either.
- EditProject.HandleConfirmedSubmit: the connectivity probe is the boolean `reachable`; `imagesToRemove` is only logged by the code and is not part of the request, so the model only clears it.
- EditProject.MegabyteText: exact for sizes below 2^53 bytes; beyond that the JavaScript quotient is no longer exact and `toFixed` switches notation.
- EditProject: numeric fields are integers; the `Number(value)` coercion of typed input and the loading of the project (`fetchProjectData`) are not modelled, and nor is `handleInputChange`.
- Object URLs and their revocation in `EditProject.jsx`, and the asynchronous `FileReader` previews of `Addnew.jsx`: `AddNew.HandleAllImagesChange`, `AddNew.HandleAddMoreImages` and `AddNew.HandleMainImageChange` do not update previews, which the browser fills in later in completion order.
- Patterns.IsStrongPassword: the lookahead `.` stops at line terminators, so for a password containing one the converse direction of `StrongPasswordIffHasAllClasses` is not claimed.
- Project ids are compared as strings; numeric ids and the `fetchProjects` load are not modelled.
