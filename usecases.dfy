/** The authentication use cases: each wraps one call on the
    authentication port, two of them behind a validator, and account
    deletion sequences two calls. */
module AuthUseCases {
  import opened Outcomes
  import opened Domain
  import opened Ports
  import opened Validators

  /** `SignUpUseCase.execute`: no validation; the four arguments go to the
      port unchanged and in order, and its answer is the result. */
  function SignUp(auth: AuthPort, email: string, alias: string, password: string,
                  captchaToken: string): (r: Traced<User, AuthCall>)
    ensures r.calls == [SignUpCall(email, alias, password, captchaToken)]
    ensures r.result == auth.signUp(email, alias, password, captchaToken)
  {
    Traced(auth.signUp(email, alias, password, captchaToken),
           [SignUpCall(email, alias, password, captchaToken)])
  }

  /** `LoginUseCase.execute`: no validation, so even empty strings reach
      the port. */
  function Login(auth: AuthPort, email: string, password: string): (r: Traced<User, AuthCall>)
    ensures r.calls == [SignInCall(email, password)]
    ensures r.result == auth.signIn(email, password)
  {
    Traced(auth.signIn(email, password), [SignInCall(email, password)])
  }

  /** `LogOutUseCase.execute`: a failure is not swallowed here. */
  function LogOut(auth: AuthPort): (r: Traced<(), AuthCall>)
    ensures r.calls == [LogOutCall]
    ensures r.result == auth.logOut
  {
    Traced(auth.logOut, [LogOutCall])
  }

  /** `SignInAnonymouslyUseCase.execute`: the captcha token is not checked
      locally. */
  function SignInAnonymously(auth: AuthPort, captchaToken: string): (r: Traced<User, AuthCall>)
    ensures r.calls == [SignInAnonymouslyCall(captchaToken)]
    ensures r.result == auth.signInAnonymously(captchaToken)
  {
    Traced(auth.signInAnonymously(captchaToken), [SignInAnonymouslyCall(captchaToken)])
  }

  /** `SendPasswordResetEmailUseCase.execute`: the e-mail validator gates
      the call. */
  function SendPasswordResetEmail(auth: AuthPort, email: string): (r: Traced<(), AuthCall>)
    ensures r.calls != [] <==> IsValidEmail(email)
    ensures r.calls != [] ==>
      r.calls == [SendPasswordResetEmailCall(email)] && r.result == auth.sendPasswordResetEmail(email)
    ensures r.calls == [] ==> r.result == Fail("Invalid email")
  {
    if !IsValidEmail(email) then Traced(Fail("Invalid email"), [])
    else Traced(auth.sendPasswordResetEmail(email), [SendPasswordResetEmailCall(email)])
  }

  /** `UpdatePasswordUseCase.execute`: the password validator gates the
      call and supplies the failure message. */
  function UpdatePassword(auth: AuthPort, newPassword: string): (r: Traced<(), AuthCall>)
    ensures r.calls != [] <==> IsValidPassword(newPassword).isValid
    ensures r.calls != [] ==>
      r.calls == [UpdatePasswordCall(newPassword)] && r.result == auth.updatePassword(newPassword)
    ensures r.calls == [] ==> r.result == Fail(IsValidPassword(newPassword).message)
  {
    var check := IsValidPassword(newPassword);
    if !check.isValid then Traced(Fail(check.message), [])
    else Traced(auth.updatePassword(newPassword), [UpdatePasswordCall(newPassword)])
  }

  /** `DeleteAccountUseCase.execute`: delete first; only once that succeeded
      is a log-out attempted, and its failure is swallowed. */
  function DeleteAccount(auth: AuthPort): (r: Traced<(), AuthCall>)
    ensures |r.calls| > 0 && r.calls[0] == DeleteAccountCall
    ensures auth.deleteAccount.Threw? ==>
      r.calls == [DeleteAccountCall] && r.result == auth.deleteAccount
    ensures auth.deleteAccount.Ok? ==>
      r.calls == [DeleteAccountCall, LogOutCall] && r.result == Ok(())
  {
    match auth.deleteAccount
    case Threw(t) => Traced(Threw(t), [DeleteAccountCall])
    case Ok(_) =>
      // Whatever auth.logOut answers is dropped.
      Traced(Ok(()), [DeleteAccountCall, LogOutCall])
  }

  // ---------------------------------------------------------------------

  /** A weak password never reaches the port, and the failure the caller
      sees is the validator's first failing check, never an empty
      message. */
  lemma WeakPasswordNeverReachesPort(auth: AuthPort, p: string)
    requires !IsValidPassword(p).isValid
    ensures UpdatePassword(auth, p).calls == []
    ensures UpdatePassword(auth, p).result == Fail(IsValidPassword(p).message)
    ensures IsValidPassword(p).message != ""
    ensures exists k ::
      && 0 <= k < |PasswordChecks|
      && UpdatePassword(auth, p).result == Fail(CheckMessage(PasswordChecks[k]))
  {
    PasswordMessageEmptyIffValid(p);
    PasswordIsFirstFailing(p);
    var c := FirstFailing(PasswordChecks, p).value;
    var k :| 0 <= k < |PasswordChecks| && PasswordChecks[k] == c by {
      match c
      case Required => assert PasswordChecks[0] == c;
      case MinLength => assert PasswordChecks[1] == c;
      case Uppercase => assert PasswordChecks[2] == c;
      case Lowercase => assert PasswordChecks[3] == c;
      case Number => assert PasswordChecks[4] == c;
      case Special => assert PasswordChecks[5] == c;
    }
  }

  /** The empty address is refused before any call is made. */
  lemma EmptyEmailNeverReachesPort(auth: AuthPort)
    ensures SendPasswordResetEmail(auth, "") == Traced(Fail("Invalid email"), [])
  {
  }

  /** Whatever the log-out after a successful deletion answers, deleting the
      account succeeds; the stand-alone log-out use case, by contrast,
      passes that same failure on. */
  lemma LogOutFailureSwallowedOnlyAfterDelete(auth: AuthPort, failure: Thrown)
    requires auth.deleteAccount.Ok?
    ensures DeleteAccount(auth.(logOut := Threw(failure))).result == Ok(())
    ensures DeleteAccount(auth.(logOut := Threw(failure))).result == DeleteAccount(auth).result
    ensures LogOut(auth.(logOut := Threw(failure))).result == Threw(failure)
  {
  }
}

/** The note use cases: each is one call on the repository, and updating
    guards the id and the title first. */
module NoteUseCases {
  import opened Outcomes
  import opened Domain
  import opened Ports

  /** `CreateNoteUseCase.execute`: title and content go to the repository
      as they are, with no trimming, validation or note-count check. */
  function CreateNote(repo: NoteRepository, title: string, content: string): (r: Traced<Note, NoteCall>)
    ensures r.calls == [CreateCall(NoteDraft(title, content))]
    ensures r.result == repo.create(NoteDraft(title, content))
  {
    Traced(repo.create(NoteDraft(title, content)), [CreateCall(NoteDraft(title, content))])
  }

  /** `DeleteNoteUseCase.execute`: any id, even the empty one, reaches the
      repository. */
  function DeleteNote(repo: NoteRepository, id: string): (r: Traced<(), NoteCall>)
    ensures r.calls == [DeleteCall(id)]
    ensures r.result == repo.delete(id)
  {
    Traced(repo.delete(id), [DeleteCall(id)])
  }

  /** `GetNotesUseCase.execute`: the list is returned as the repository
      gives it, with no filtering, reordering or truncation. */
  function GetNotes(repo: NoteRepository): (r: Traced<seq<Note>, NoteCall>)
    ensures r.calls == [GetAllCall]
    ensures r.result == repo.getAll
  {
    Traced(repo.getAll, [GetAllCall])
  }

  /** `UpdateNoteUseCase.execute`: the id is checked, then the title, and
      only then is the repository called with the note unchanged. */
  function UpdateNote(repo: NoteRepository, note: Note): (r: Traced<Note, NoteCall>)
    ensures r.calls != [] <==> note.id != "" && note.title != ""
    ensures note.id == "" ==> r.result == Fail("Cannot update note without ID")
    ensures note.id != "" && note.title == "" ==> r.result == Fail("Title is required")
    ensures r.calls != [] ==> r.calls == [UpdateCall(note)] && r.result == repo.update(note)
  {
    if note.id == "" then Traced(Fail("Cannot update note without ID"), [])
    else if note.title == "" then Traced(Fail("Title is required"), [])
    else Traced(repo.update(note), [UpdateCall(note)])
  }

  /** The id guard comes first: a note with neither id nor title is
      reported as missing its id. */
  lemma UpdateNoteChecksIdFirst(repo: NoteRepository, content: string, createdAt: Timestamp)
    ensures UpdateNote(repo, Note("", "", content, createdAt)).result ==
      Fail("Cannot update note without ID")
    ensures UpdateNote(repo, Note("1", "", content, createdAt)).result == Fail("Title is required")
  {
  }
}
