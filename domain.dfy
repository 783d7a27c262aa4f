/** The domain records of the application and the two ports through which
    the use cases reach the backend. */
module Domain {
  import opened Outcomes

  /** An authenticated identity. Anonymous users have neither e-mail nor
      alias. */
  datatype User = User(id: string, email: Option<string>, alias: Option<string>)

  /** The `Date` the note adapter builds from the backend's `created_at`
      text. Date parsing is not modelled; the text is kept as it came. */
  datatype Timestamp = Timestamp(text: string)

  datatype Note = Note(id: string, title: string, content: string, createdAt: Timestamp)

  /** What `create` receives: a note without `id` and `createdAt`, which the
      backend assigns. */
  datatype NoteDraft = NoteDraft(title: string, content: string)
}

module Ports {
  import opened Outcomes
  import opened Domain

  /** The authentication port: every operation either of the two
      `IAuthService` declarations names. Each field is the settled answer
      the backend gives to that call with those arguments. */
  datatype AuthPort = AuthPort(
    signUp: (string, string, string, string) -> Outcome<User>,
    signIn: (string, string) -> Outcome<User>,
    signInAnonymously: string -> Outcome<User>,
    logOut: Outcome<()>,
    sendPasswordResetEmail: string -> Outcome<()>,
    updatePassword: string -> Outcome<()>,
    deleteAccount: Outcome<()>)

  /** One call made on the authentication port, with its arguments. */
  datatype AuthCall =
    | SignUpCall(email: string, alias: string, password: string, captchaToken: string)
    | SignInCall(email: string, password: string)
    | SignInAnonymouslyCall(captchaToken: string)
    | LogOutCall
    | SendPasswordResetEmailCall(email: string)
    | UpdatePasswordCall(newPassword: string)
    | DeleteAccountCall

  /** The note repository port, with the `delete` and `update` operations
      the note adapter and the use cases rely on besides `create` and
      `getAll`. */
  datatype NoteRepository = NoteRepository(
    create: NoteDraft -> Outcome<Note>,
    getAll: Outcome<seq<Note>>,
    delete: string -> Outcome<()>,
    update: Note -> Outcome<Note>)

  datatype NoteCall =
    | CreateCall(draft: NoteDraft)
    | GetAllCall
    | DeleteCall(id: string)
    | UpdateCall(note: Note)

  /** The settled result of a use case together with the port calls it
      made, in the order it made them. */
  datatype Traced<T, C> = Traced(result: Outcome<T>, calls: seq<C>)
}
