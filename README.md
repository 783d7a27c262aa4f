# GScribe core, modelled in Dafny

GScribe is a small notes application. A React front end talks to a hosted
Postgres and authentication service through a ports-and-adapters layer. This
project models the parts of that layer that carry logic:

- the e-mail and password validators;
- the authentication and note use cases;
- the Supabase authentication adapter, both the wired one and the older
  unwired variant, and the Supabase note adapter;
- the React hooks and the toast provider that hold UI state;
- the note form's lock rules and the sign-up page's guard sequence.

Every property is proved by the Dafny verifier.

How the model is built:

- **Effects become values.** The backend is never called. Each port
  (`Ports.AuthPort`, `Ports.NoteRepository`) is a record of total functions:
  each field gives the settled answer the backend returns to that call.
- **Use cases return what they did.** Each use case is a pure function that
  returns its result together with the list of port calls it made
  (`Ports.Traced`). This makes "the port is never called" a checkable fact.
- **Adapters read an answer.** Each adapter takes the client's
  `{data, error}` answer, or a rejection, as a parameter. From it the adapter
  produces the domain value, or the `Error` it would throw.
- **Thrown values.** A thrown JavaScript value is either an `Error`, of
  which only the message matters, or something else
  (`Outcomes.Thrown`). Every `catch` block that reads
  `err instanceof Error ? err.message : fallback` is `Outcomes.MessageOr`.
- **The e-mail regular expression becomes an automaton.** It is written as
  a deterministic automaton (`Validators.Step`, `Validators.Run`). That
  automaton is proved equal to an independent, declarative reading of the
  pattern (`Validators.EmailSpec`): one `@`, a local part, and labels
  separated by dots.
- **The password check becomes a check list.** The fail-fast chain is
  proved to be the first failing check of an ordered list.
- **Stateful code becomes classes.** The hooks, the toast provider and the
  sign-up page update state step by step, so they are classes whose methods
  state the whole new state. The pure shape of each new state is a function
  (`StatusHooks.Settled`, `Toasts.WithoutId`), and the properties are proved
  about those functions.

## Model

| member | source | states |
|---|---|---|
| `Outcomes.MessageOr` | src/infrastructure/ui/hooks/useUpdatePassword.ts:18 | its definition: the message of an `Error`, otherwise the given fallback, as every `err instanceof Error ? err.message : fallback` of the hooks, the page and the adapters' `catch` blocks reads |
| `Validators.Step` | src/core/utils/Validators.ts:7 | its definition: one character of the anchored pattern, as a transition of the automaton; a label counts its length up to 63 and remembers whether its last character is a letter or digit |
| `Validators.Run` | src/core/utils/Validators.ts:7 | its definition: the automaton run over the whole input, left to right; `Validators.RejectedStays` proves the rejecting state is never left |
| `Validators.IsValidEmail` | src/core/utils/Validators.ts:15-18 | its definition: the empty string is refused, otherwise the automaton must end inside a label whose last character is a letter or digit; `Validators.IsValidEmailMeansPattern` states what that accepts |
| `Validators.IsValidEmailMeansPattern` | src/core/utils/Validators.ts:7-18 | the validator accepts a string exactly when it is non-empty and has the form local-part `@` domain: the local part is one or more allowed characters, and the domain is dot-separated labels of 1 to 63 letters, digits or hyphens that start and end with a letter or digit |
| `Validators.ScanDomainCorrect` | src/core/utils/Validators.ts:7 | the automaton, started after the `@`, accepts the rest exactly when that rest is a list of valid labels |
| `Validators.ScanLabelCorrect` | src/core/utils/Validators.ts:7 | inside a label, the automaton's length counter and last-character flag decide acceptance just as re-reading the whole label would |
| `Validators.ScanLocalCorrect` | src/core/utils/Validators.ts:7 | once inside the local part, the automaton accepts exactly the completions that meet the declarative pattern |
| `Validators.ValidEmailStructure` | src/core/utils/Validators.ts:7 | an accepted address holds exactly one `@`, with a valid local part before it and valid labels after it |
| `Validators.EmptyEmailInvalid` | src/core/utils/Validators.ts:16 | the empty string is rejected |
| `Validators.EmailWithoutDot` | src/core/utils/Validators.ts:7 | the domain may be a single label, so `a@b` is accepted |
| `Validators.IsValidPassword` | src/core/utils/Validators.ts:26-34 | its definition: the six checks in the source's order, each returning its own message, and `{true, ""}` when all pass; `Validators.PasswordValidIff` and `Validators.PasswordIsFirstFailing` state what it computes |
| `Validators.PasswordValidIff` | src/core/utils/Validators.ts:26-34 | a password is valid exactly when it has at least 8 characters, an upper-case letter, a lower-case letter, a digit and a listed symbol |
| `Validators.PasswordMessageEmptyIffValid` | src/core/utils/Validators.ts:26-34 | the message is empty exactly when the password is valid |
| `Validators.PasswordFailFast` | src/core/utils/Validators.ts:27-32 | when the first k checks pass and check k fails, the result is check k's message, whatever the later checks say |
| `Validators.PasswordIsFirstFailing` | src/core/utils/Validators.ts:26-34 | the validator's answer is the first failing check of the ordered list required, length, upper, lower, digit, symbol |
| `Validators.ShortPasswords` | src/core/utils/Validators.ts:27-28 | the empty password gets "Password is required."; any other password under 8 characters gets the length message |
| `Validators.StrongPasswordExample` | src/core/utils/Validators.ts:26-34 | `Abc123!@` is valid |
| `Validators.ShortPasswordExample` | src/core/utils/Validators.ts:28 | `abc` gets the length message, not the missing-upper-case message |
| `Strings.Includes` | src/infrastructure/adapters/SupabaseAuthAdapter.ts:99 | its definition, for `String.prototype.includes`: the substring occurs at some position |
| `Strings.TrimStart` | src/infrastructure/ui/components/notes/NoteForm.tsx:78 | the result is a suffix of the input that does not begin with whitespace, and everything removed is whitespace |
| `Strings.TrimEnd` | src/infrastructure/ui/components/notes/NoteForm.tsx:78 | the result is a prefix of the input that does not end with whitespace, and everything removed is whitespace |
| `Strings.Trim` | src/infrastructure/ui/components/notes/NoteForm.tsx:78 | `trim()`: the result is the input with a run of leading and a run of trailing whitespace removed, and it neither begins nor ends with whitespace |
| `Strings.TrimEmptyIff` | src/infrastructure/ui/components/notes/NoteForm.tsx:78 | `trim()` gives the empty string exactly when every character is ECMAScript whitespace |
| `AuthUseCases.SignUp` | src/application/auth/SignUpUseCase.ts:17-19 | one port call, with the four arguments unchanged and in order; the port's answer is the result |
| `AuthUseCases.Login` | src/application/auth/LoginUseCase.tsx:11-13 | one sign-in call with no validation; its answer is the result |
| `AuthUseCases.LogOut` | src/application/auth/LogOutUseCase.ts:12-14 | one log-out call; its failure is passed on |
| `AuthUseCases.SignInAnonymously` | src/application/auth/SignInAnonymouslyUseCase.ts:15-17 | one anonymous sign-in call with the token unchanged |
| `AuthUseCases.SendPasswordResetEmail` | src/application/auth/SendPasswordResetEmailUseCase.ts:12-16 | the port is called exactly when the address is valid; otherwise the result is the error "Invalid email" and no call is made |
| `AuthUseCases.UpdatePassword` | src/application/auth/UpdatePasswordUseCase.ts:11-17 | the port is called exactly when the validator accepts; otherwise the validator's message is thrown and no call is made |
| `AuthUseCases.DeleteAccount` | src/application/auth/DeleteAccountUseCase.ts:9-17 | deletion is called first; a failed deletion is passed on with no log-out; after a successful deletion a log-out follows and the result is success |
| `AuthUseCases.WeakPasswordNeverReachesPort` | src/application/auth/UpdatePasswordUseCase.ts:12-14 | a weak password makes no call, and its error is a non-empty message of one of the six checks |
| `AuthUseCases.EmptyEmailNeverReachesPort` | src/application/auth/SendPasswordResetEmailUseCase.ts:13 | the empty address fails with "Invalid email" and no call |
| `AuthUseCases.LogOutFailureSwallowedOnlyAfterDelete` | src/application/auth/DeleteAccountUseCase.ts:12-16 | after a successful deletion, a failing log-out does not change the result; the log-out use case on its own passes the same failure on |
| `NoteUseCases.CreateNote` | src/application/note/CreateNoteUseCase.ts:10-12 | one create call with title and content unchanged and no count check |
| `NoteUseCases.DeleteNote` | src/application/note/DeleteNoteUseCase.ts:9-11 | one delete call for any id, even the empty one |
| `NoteUseCases.GetNotes` | src/application/note/GetNotesCase.tsx:10-12 | one fetch whose list is returned unchanged |
| `NoteUseCases.UpdateNote` | src/application/note/UpdateNoteUseCase.tsx:11-15 | the repository is called exactly when both id and title are non-empty; an empty id is reported before an empty title |
| `NoteUseCases.UpdateNoteChecksIdFirst` | src/application/note/UpdateNoteUseCase.tsx:12-13 | a note lacking both id and title is reported as lacking its id |
| `SupabaseAuth.UserFromReply` | src/infrastructure/adapters/SupabaseAuthAdapter.ts:71-90 | the guard clauses of `signUp` and `signIn`: a user comes out exactly when there is no error and the user has a non-empty e-mail and a non-empty string alias, built from those fields; a rejection passes through; the reply's error becomes an `Error` with its message; any other failure is one of the three guard messages |
| `SupabaseAuth.TranslateSignUpMessage` | src/infrastructure/adapters/SupabaseAuthAdapter.ts:98-107 | the result is the message itself or one of the two fixed messages, and each fixed message replaces only a message that mentions its trigger |
| `SupabaseAuth.SignUpRequestFor` | src/infrastructure/adapters/SupabaseAuthAdapter.ts:46-55 | the request carries the captcha token as the captcha option and only the alias as user metadata |
| `SupabaseAuth.SignUp` | src/infrastructure/adapters/SupabaseAuthAdapter.ts:35-109 | sign-up succeeds exactly when there is no error and the user has a non-empty e-mail and a non-empty string alias; the user is then built from those fields; every failure is an `Error` |
| `SupabaseAuth.SignUpDuplicateFirst` | src/infrastructure/adapters/SupabaseAuthAdapter.ts:99-101 | a message mentioning "User already registered" becomes "This email is already in use.", even if it also mentions the password rule, whether it is the backend's error or the message of a thrown `Error` |
| `SupabaseAuth.SignUpPasswordRule` | src/infrastructure/adapters/SupabaseAuthAdapter.ts:102-104 | otherwise a message mentioning "Password should contain" becomes the list of password requirements, from the backend's error or a thrown `Error` alike |
| `SupabaseAuth.SignUpOtherMessagesVerbatim` | src/infrastructure/adapters/SupabaseAuthAdapter.ts:94-107 | any other message, from the backend's error or a thrown `Error`, is shown unchanged |
| `SupabaseAuth.SignUpMissingUser` | src/infrastructure/adapters/SupabaseAuthAdapter.ts:74-76 | no user gives "No user data returned" |
| `SupabaseAuth.SignUpMissingEmail` | src/infrastructure/adapters/SupabaseAuthAdapter.ts:77-79 | a missing or empty e-mail gives "No  email returned", with its double space |
| `SupabaseAuth.SignUpMissingAlias` | src/infrastructure/adapters/SupabaseAuthAdapter.ts:81-84 | a missing, empty or non-string alias gives "No alias found in metadata" |
| `SupabaseAuth.SignUpNonErrorThrow` | src/infrastructure/adapters/SupabaseAuthAdapter.ts:93-96 | a thrown non-`Error` gives the generic registration message |
| `SupabaseAuth.SignIn` | src/infrastructure/adapters/SupabaseAuthAdapter.ts:110-151 | sign-in succeeds exactly when there is no error and the user has a non-empty e-mail and a non-empty string alias; every failure is an `Error` |
| `SupabaseAuth.TranslateSignInMessage` | src/infrastructure/adapters/SupabaseAuthAdapter.ts:143-149 | the result is the message itself or "Incorrect email or password.", and the latter replaces only a message that mentions "Invalid login credentials" |
| `SupabaseAuth.SignInTranslation` | src/infrastructure/adapters/SupabaseAuthAdapter.ts:138-149 | a message mentioning "Invalid login credentials" becomes "Incorrect email or password."; any other message is shown unchanged; both hold for the backend's error and for a thrown `Error` |
| `SupabaseAuth.SignInNonErrorThrow` | src/infrastructure/adapters/SupabaseAuthAdapter.ts:138-141 | a thrown non-`Error` gives the generic sign-in message |
| `SupabaseAuth.SignInMissingData` | src/infrastructure/adapters/SupabaseAuthAdapter.ts:119-129 | no user, a missing or empty e-mail, or a missing, empty or non-string alias each gives that guard's own message |
| `SupabaseAuth.SignInRequestFor` | src/infrastructure/adapters/SupabaseAuthAdapter.ts:112-115 | the sign-in call receives the e-mail and password unchanged |
| `SupabaseAuth.SignInTestVectors` | src/infrastructure/adapters/SupabaseAuthAdapter.test.ts:45-89 | the two unit-test scenarios: the client is called with the test's e-mail and password, a complete user maps to the domain user, and bad credentials are translated |
| `SupabaseAuth.SignInAnonymously` | src/infrastructure/adapters/SupabaseAuthAdapter.ts:152-181 | succeeds exactly when there is no error and a user exists; the user has neither e-mail nor alias; messages are not translated |
| `SupabaseAuth.LogOut` | src/infrastructure/adapters/SupabaseAuthAdapter.ts:18-33 | succeeds exactly when sign-out reports no error; every failure is the one fixed message |
| `LegacySupabaseAuth.SignUpRequestFor` | src/infrastructure/adapters/SupaBaseAuthAdapter.ts:38-47 | the older request carries no captcha option; the token is stored as user metadata next to the alias |
| `LegacySupabaseAuth.TranslateSignUpMessage` | src/infrastructure/adapters/SupaBaseAuthAdapter.ts:76-87 | the result is the message itself, the duplicate-registration message or the weak-password message, and each fixed message replaces only a message that mentions its trigger |
| `LegacySupabaseAuth.SignUp` | src/infrastructure/adapters/SupaBaseAuthAdapter.ts:36-89 | the same success condition and user as the wired adapter; every failure is an `Error` |
| `LegacySupabaseAuth.LegacySignUpRules` | src/infrastructure/adapters/SupaBaseAuthAdapter.ts:69-87 | a duplicate registration first; then any message mentioning "Password" becomes the weak-password message; otherwise the message is unchanged; a thrown `Error` with the same message is translated alike |
| `LegacySupabaseAuth.LegacyCoarserOnPasswords` | src/infrastructure/adapters/SupaBaseAuthAdapter.ts:80-84 | wherever the wired adapter applies its password rule, the older one reports a weak password |
| `LegacySupabaseAuth.LegacyTranslatesMore` | src/infrastructure/adapters/SupaBaseAuthAdapter.ts:80-84 | the converse fails: "Password too short" is kept by the wired adapter and replaced by the older one |
| `LegacySupabaseAuth.LegacySignUpDropsCaptcha` | src/infrastructure/adapters/SupaBaseAuthAdapter.ts:41-46 | for every token, the older request has no captcha option, while the wired request has it |
| `SupabaseNotes.MapToDomain` | src/infrastructure/adapters/SupabaseNoteAdapter.ts:19-26 | id, title and content are copied; the timestamp keeps the backend's text |
| `SupabaseNotes.GetAllQuery` | src/infrastructure/adapters/SupabaseNoteAdapter.ts:30-38 | selects from `notes`, unfiltered, newest `created_at` first |
| `SupabaseNotes.GetAll` | src/infrastructure/adapters/SupabaseNoteAdapter.ts:29-48 | an error fails with its message; no data gives the empty list; otherwise one note per row, in row order; a rejection propagates unchanged |
| `SupabaseNotes.GetAllKeepsOrder` | src/infrastructure/adapters/SupabaseNoteAdapter.ts:47 | the note ids come out in the order the rows carried them |
| `SupabaseNotes.CreateQuery` | src/infrastructure/adapters/SupabaseNoteAdapter.ts:51-63 | inserts exactly title and content, and reads one row back |
| `SupabaseNotes.Create` | src/infrastructure/adapters/SupabaseNoteAdapter.ts:65-70 | succeeds exactly when there is no error and one row came back; no row gives "Creation failed" |
| `SupabaseNotes.DeleteQuery` | src/infrastructure/adapters/SupabaseNoteAdapter.ts:74-77 | deletes the rows whose id equals the argument |
| `SupabaseNotes.Delete` | src/infrastructure/adapters/SupabaseNoteAdapter.ts:73-80 | succeeds exactly when there is no error |
| `SupabaseNotes.UpdateQuery` | src/infrastructure/adapters/SupabaseNoteAdapter.ts:83-96 | writes exactly title and content to the row with the note's id, and reads one row back |
| `SupabaseNotes.Update` | src/infrastructure/adapters/SupabaseNoteAdapter.ts:98-103 | succeeds exactly when there is no error and one row came back; no row gives "Update failed" |
| `SupabaseNotes.UpdateIgnoresCreatedAt` | src/infrastructure/adapters/SupabaseNoteAdapter.ts:85-89 | the caller's timestamp never reaches the backend |
| `SupabaseNotes.WritesOnlyTitleAndContent` | src/infrastructure/adapters/SupabaseNoteAdapter.ts:53-89 | create and update write the same two columns; only update and delete target a row by id |
| `StatusHooks.Settled` | src/infrastructure/ui/hooks/useUpdatePassword.ts:14-21 | after the call settles, loading is off and exactly one of success (the hook's fixed text) and error (the message or the hook's fallback) is set |
| `StatusHooks.WeakPasswordShownAsError` | src/infrastructure/ui/hooks/useUpdatePassword.ts:15-19 | a weak password ends with the validator's own non-empty message as the error |
| `StatusHooks.InvalidEmailShownAsError` | src/infrastructure/ui/hooks/useSendPasswordReset.ts:15-19 | an invalid address ends with the error "Invalid email" |
| `StatusHooks.DeletionSuccessIgnoresLogOut` | src/infrastructure/ui/hooks/useDeleteAccount.ts:15-16 | a successful deletion is reported as success whatever the log-out answers |
| `StatusHooks.ActionHook.constructor` | src/infrastructure/ui/hooks/useUpdatePassword.ts:5-7 | starts idle, with no error and no success |
| `StatusHooks.ActionHook.Begin` | src/infrastructure/ui/hooks/useUpdatePassword.ts:10-12 | at entry, loading is on and error and success are cleared |
| `StatusHooks.ActionHook.Finish` | src/infrastructure/ui/hooks/useUpdatePassword.ts:14-21 | from the pending state, the new state is the settled state for that outcome |
| `StatusHooks.ActionHook.HandleUpdatePassword` | src/infrastructure/ui/hooks/useUpdatePassword.ts:9-23 | ends in the settled state of the update-password use case, with error and success never both set |
| `StatusHooks.ActionHook.HandleSendEmail` | src/infrastructure/ui/hooks/useSendPasswordReset.ts:9-23 | ends in the settled state of the password-reset use case |
| `StatusHooks.ActionHook.HandleDeleteAccount` | src/infrastructure/ui/hooks/useDeleteAccount.ts:9-23 | ends in the settled state of the delete-account use case, with the deleting flag off |
| `NotesHook.NotesState.constructor` | src/infrastructure/ui/hooks/useNotes.ts:6-8 | starts with no notes, loading, and no error |
| `NotesHook.NotesState.FetchNotes` | src/infrastructure/ui/hooks/useNotes.ts:10-22 | success replaces the list wholesale; failure keeps the list and sets the message or "Error desconocido"; loading always ends |
| `NotesHook.NotesState.AddNote` | src/infrastructure/ui/hooks/useNotes.ts:23-38 | answers true exactly when creation succeeded; the new note is then first and the list grows by one; on failure the list is kept and the message or "Error al crear nota" is set |
| `Toasts.WithoutId` | src/infrastructure/ui/context/ToastProvider.tsx:11 | keeps exactly the toasts whose id differs, and never lengthens the list |
| `Toasts.WithoutIdAppend` | src/infrastructure/ui/context/ToastProvider.tsx:11 | removal distributes over concatenation, so the remaining toasts keep their order |
| `Toasts.WithoutAbsentId` | src/infrastructure/ui/context/ToastProvider.tsx:11 | removing an id no toast carries changes nothing |
| `Toasts.RemoveIdempotent` | src/infrastructure/ui/context/ToastProvider.tsx:10-12 | after removal no toast has the id, so removing again changes nothing |
| `Toasts.ShowThenRemove` | src/infrastructure/ui/context/ToastProvider.tsx:10-16 | showing a toast under a fresh id and then removing it restores the list |
| `Toasts.ToastStore.constructor` | src/infrastructure/ui/context/ToastProvider.tsx:8 | starts with no toasts |
| `Toasts.ToastStore.ShowToast` | src/infrastructure/ui/context/ToastProvider.tsx:14-16 | appends one toast at the end and leaves the others as they were |
| `Toasts.ToastStore.RemoveToast` | src/infrastructure/ui/context/ToastProvider.tsx:10-12 | the list becomes the old list without that id |
| `NoteFormRules.IsLocked` | src/infrastructure/ui/components/notes/NoteForm.tsx:28 | its definition: the form is locked while the cap is reached, a save is running or the list is loading |
| `NoteFormRules.SubmitDisabled` | src/infrastructure/ui/components/notes/NoteForm.tsx:78 | its definition: the submit button's `disabled`, with `!title.trim()` read as an empty trimmed title; `NoteFormRules.SubmitEnabledIff` states when it is enabled |
| `NoteFormRules.HeaderFor` | src/infrastructure/ui/components/notes/NoteForm.tsx:56-60 | its definition: MODIFY_DATA while editing, else MEMORY_FULL when locked, else INPUT_NEW |
| `NoteFormRules.CounterWarns` | src/infrastructure/ui/components/notes/NoteForm.tsx:150 | its definition: the counter warns once the title reaches 60 characters |
| `NoteFormRules.SubmitEnabledIff` | src/infrastructure/ui/components/notes/NoteForm.tsx:28-78 | submit is enabled exactly when the form is unlocked and the title holds a non-whitespace character |
| `NoteFormRules.LimitLocksForm` | src/infrastructure/ui/components/notes/NoteForm.tsx:28-60 | reaching the note cap locks the form, disables submit, and a new-note form shows MEMORY_FULL |
| `NoteFormRules.BlankTitleDisablesSubmit` | src/infrastructure/ui/components/notes/NoteForm.tsx:78 | a title of whitespace only cannot be submitted |
| `NoteFormRules.CounterWarnsAtLimit` | src/infrastructure/ui/components/notes/NoteForm.tsx:150-162 | within the 60-character input bound, the counter warns exactly at 60 |
| `SignUpForm.ValidatePassword` | src/infrastructure/ui/pages/SignUpPage.tsx:10-20 | no error exactly when the password has an upper-case letter, a lower-case letter, a digit and a symbol; every error is the one fixed notice |
| `SignUpForm.SharedValidatorIsStricter` | src/infrastructure/ui/pages/SignUpPage.tsx:11-14 | every password the shared validator accepts also passes the page check |
| `SignUpForm.PageCheckIsWeaker` | src/infrastructure/ui/pages/SignUpPage.tsx:10-20 | `Aa1!aa` (six characters, enough for the input's `minLength`) passes the page check but not the shared validator, since `validatePassword` has no length rule |
| `SignUpForm.SignUpPage.constructor` | src/infrastructure/ui/pages/SignUpPage.tsx:26-31 | starts with no error and not loading |
| `SignUpForm.SignUpPage.HandleSubmit` | src/infrastructure/ui/pages/SignUpPage.tsx:65-82 | a failing page check, or a missing captcha widget, sets its error and stops before loading; otherwise loading starts and the captcha is executed once |
| `SignUpForm.SignUpPage.HandleSignUp` | src/infrastructure/ui/pages/SignUpPage.tsx:41-63 | one sign-up call with the form's values; success hands the user on and navigates home; failure shows the message or the connection notice and resets the captcha when the widget is mounted; loading always ends |

## Left out

- String lengths count Dafny characters. JavaScript's `length` counts
  UTF-16 code units, so the two differ for characters outside the Basic
  Multilingual Plane. This affects the 8-character password minimum, the
  63-character label limit and the 60-character title bound.
- `new Date(createdAt)` is not parsed. A timestamp keeps the backend's text.
- The captcha relays and `SupabaseCaptchaAdapter.ts` are not modelled.
  They are HTTP forwarding with no state of their own. No use case in the
  code calls `ICaptchaService`. Captcha verification happens inside the
  backend, through the token that sign-up and anonymous sign-in pass on.
- The composition roots (`dependencies.ts`, `di.ts`, `main.tsx`,
  `supabaseClient.ts`) are not modelled. Each hook is given its port as a
  parameter instead.
- The session and subscription plumbing, the pages other than sign-up,
  and the JSX rendering are not modelled.
- The browser's own form validation on the sign-up page is not modelled.
  The inputs carry `required`, `type="email"` and `minLength={6}`
  (SignUpPage.tsx:191-220), so the browser refuses an empty field, a
  badly formed address or a password under 6 characters before
  `handleSubmit` runs. `SignUpForm.SignUpPage.HandleSubmit` starts after
  those checks have passed.
- The captcha widget's `onError` and `onExpire` messages
  (SignUpPage.tsx:241-247) are not modelled.
- Toast expiry (`setTimeout`, ToastProvider.tsx:18-20) is not modelled.
  `crypto.randomUUID` is replaced by an id parameter.
- Console logging is not modelled, including the adapter's logging of the
  password.
- Concurrency is not modelled. Each awaited call is one atomic step. The
  hooks and the sign-up page see only their own calls, so interleaved
  calls and stale React closures are not captured. The account hooks'
  pending state is the state `StatusHooks.ActionHook.Begin` ensures.
- `SignInUpUseCase.tsx` is stale and calls the port with three arguments,
  so it is not modelled.
- The older adapter's `signIn` and `logOut` are not modelled separately.
  Their text is the same as the wired adapter's.
- `sendPasswordResetEmail`, `updatePassword` and `deleteAccount` exist only
  as port operations. Neither authentication adapter implements them, so
  their answers are parameters of `Ports.AuthPort`.
- The two `IAuthService` declarations are merged into one port.
  `INoteRepository` declares only `create` and `getAll`, but the adapter
  and the use cases also use `delete` and `update`, so the port carries
  all four.
- `Note.ts` and `ToastContext.tsx` are not part of this model. `Note` and
  the toast type follow their uses: the three toast kinds come from the
  `ToastList` switch.
- `useNotes` has no optimistic delete or update and no rollback: it has
  only a fetch and a prepend-on-create, and the model has the same two.
- Sign-up makes no `ICaptchaService` call before calling the backend: the
  page hands the captcha token to the sign-up use case, which passes it to
  the backend. The model does the same.
- The two-note cap is not modelled. It is decided by whichever page
  computes `isLimitedReached`, which is not part of this model. The model
  takes the flag as an input to the note form.

## Findings

The older adapter (SupaBaseAuthAdapter.ts) is not wired into the
application. The wired adapter is its corrected successor.

| source | as written | input that shows it | evidently intended | confidence | as-written member | corrected member |
|---|---|---|---|---|---|---|
| src/infrastructure/adapters/SupaBaseAuthAdapter.ts:41-46 | the captcha token is stored as user metadata and no captcha option is sent | any sign-up, e.g. token `t`: metadata has `captchaToken = t` and there is no captcha option | pass the token as the captcha option, as SupabaseAuthAdapter.ts:53 does | medium, not executed | `LegacySupabaseAuth.LegacySignUpDropsCaptcha` | `SupabaseAuth.SignUpRequestFor` |
