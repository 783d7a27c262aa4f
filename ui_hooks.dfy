/** The three account hooks (`useUpdatePassword`, `useSendPasswordReset`,
    `useDeleteAccount`). Each keeps a busy flag, an error and a success
    message. It sets them at entry, again when the awaited use case
    settles, and clears the busy flag in `finally`. */
module StatusHooks {
  import opened Outcomes
  import opened Ports
  import opened Validators
  import AuthUseCases

  datatype HookKind = UpdatePasswordHook | SendPasswordResetHook | DeleteAccountHook

  function SuccessText(k: HookKind): string
  {
    match k
    case UpdatePasswordHook => "Password has been updated."
    case SendPasswordResetHook => "Email has been sent to reset your password."
    case DeleteAccountHook => "Account has been deleted."
  }

  /** The message shown when the use case throws something other than an
      `Error`. */
  function FallbackText(k: HookKind): string
  {
    match k
    case UpdatePasswordHook => "Error could not update password."
    case SendPasswordResetHook => "Error could not send password reset email."
    case DeleteAccountHook => "Error could not delete account."
  }

  /** The three state fields: `isLoading` (`isDeleting` for account
      deletion), `error` and `success`. */
  datatype Status = Status(busy: bool, error: Option<string>, success: Option<string>)

  const Idle := Status(false, None, None)
  const Pending := Status(true, None, None)

  /** Error and success are never both set, and nothing is reported while
      the call is still pending. */
  predicate Consistent(s: Status)
  {
    !(s.error.Some? && s.success.Some?) && (s.busy ==> s.error.None? && s.success.None?)
  }

  /** The state once the awaited use case has settled with `o`. */
  function Settled(k: HookKind, o: Outcome<()>): (s: Status)
    ensures !s.busy && Consistent(s)
    ensures s.success.Some? <==> o.Ok?
    ensures s.error.Some? <==> o.Threw?
    ensures o.Ok? ==> s.success == Some(SuccessText(k))
    ensures o.Threw? ==> s.error == Some(MessageOr(o.thrown, FallbackText(k)))
  {
    match o
    case Ok(_) => Status(false, None, Some(SuccessText(k)))
    case Threw(t) => Status(false, Some(MessageOr(t, FallbackText(k))), None)
  }

  /** A weak password ends the update-password hook with the validator's
      own message as the error, and no success. */
  lemma WeakPasswordShownAsError(auth: AuthPort, p: string)
    requires !IsValidPassword(p).isValid
    ensures Settled(UpdatePasswordHook, AuthUseCases.UpdatePassword(auth, p).result) ==
      Status(false, Some(IsValidPassword(p).message), None)
    ensures IsValidPassword(p).message != ""
  {
    AuthUseCases.WeakPasswordNeverReachesPort(auth, p);
  }

  /** An invalid address ends the password-reset hook with "Invalid email". */
  lemma InvalidEmailShownAsError(auth: AuthPort, email: string)
    requires !IsValidEmail(email)
    ensures Settled(SendPasswordResetHook, AuthUseCases.SendPasswordResetEmail(auth, email).result) ==
      Status(false, Some("Invalid email"), None)
  {
  }

  /** Once the deletion succeeds the hook reports success, whatever the
      log-out that follows it answers. */
  lemma DeletionSuccessIgnoresLogOut(auth: AuthPort, logOut: Outcome<()>)
    requires auth.deleteAccount.Ok?
    ensures Settled(DeleteAccountHook, AuthUseCases.DeleteAccount(auth.(logOut := logOut)).result) ==
      Status(false, None, Some("Account has been deleted."))
  {
  }

  /** One instance of one of the three hooks. */
  class ActionHook {
    const kind: HookKind
    var busy: bool
    var error: Option<string>
    var success: Option<string>

    function State(): Status
      reads this
    {
      Status(busy, error, success)
    }

    ghost predicate Valid()
      reads this
    {
      Consistent(State())
    }

    /** `useState(false)`, `useState(null)`, `useState(null)`. */
    constructor (k: HookKind)
      ensures kind == k && State() == Idle && Valid()
    {
      kind := k;
      busy, error, success := false, None, None;
    }

    /** The three setters before the `await`. */
    method Begin()
      modifies this
      ensures State() == Pending && Valid()
    {
      busy := true;
      error := None;
      success := None;
    }

    /** The `try`/`catch` arm the outcome selects, then `finally`. */
    method Finish(o: Outcome<()>)
      requires State() == Pending
      modifies this
      ensures State() == Settled(kind, o) && Valid()
    {
      match o {
        case Ok(_) =>
          success := Some(SuccessText(kind));
        case Threw(t) =>
          error := Some(MessageOr(t, FallbackText(kind)));
      }
      busy := false;
    }

    /** `handleUpdatePassword`. */
    method HandleUpdatePassword(auth: AuthPort, newPassword: string)
      requires kind == UpdatePasswordHook
      modifies this
      ensures State() == Settled(kind, AuthUseCases.UpdatePassword(auth, newPassword).result)
      ensures Valid()
    {
      Begin();
      Finish(AuthUseCases.UpdatePassword(auth, newPassword).result);
    }

    /** `handleSendEmail`. */
    method HandleSendEmail(auth: AuthPort, email: string)
      requires kind == SendPasswordResetHook
      modifies this
      ensures State() == Settled(kind, AuthUseCases.SendPasswordResetEmail(auth, email).result)
      ensures Valid()
    {
      Begin();
      Finish(AuthUseCases.SendPasswordResetEmail(auth, email).result);
    }

    /** `handleDeleteAccount`. */
    method HandleDeleteAccount(auth: AuthPort)
      requires kind == DeleteAccountHook
      modifies this
      ensures State() == Settled(kind, AuthUseCases.DeleteAccount(auth).result)
      ensures Valid()
    {
      Begin();
      Finish(AuthUseCases.DeleteAccount(auth).result);
    }
  }
}

/** `useNotes`: the note list with its loading flag and error. A fetch
    replaces the list wholesale, a successful create puts the new note
    first, and a failure leaves the list as it was. */
module NotesHook {
  import opened Outcomes
  import opened Domain
  import opened Ports
  import NoteUseCases

  const FetchFallback := "Error desconocido"
  const CreateFallback := "Error al crear nota"

  class NotesState {
    var notes: seq<Note>
    var isLoading: bool
    var error: Option<string>

    /** The hook starts out loading, because its effect fetches at once. */
    constructor ()
      ensures notes == [] && isLoading && error == None
    {
      notes, isLoading, error := [], true, None;
    }

    /** `fetchNotes`. */
    method FetchNotes(repo: NoteRepository)
      modifies this
      ensures !isLoading
      ensures repo.getAll.Ok? ==> notes == repo.getAll.value && error == None
      ensures repo.getAll.Threw? ==>
        notes == old(notes) && error == Some(MessageOr(repo.getAll.thrown, FetchFallback))
    {
      isLoading := true;
      error := None;
      match NoteUseCases.GetNotes(repo).result {
        case Ok(data) =>
          notes := data;
        case Threw(t) =>
          error := Some(MessageOr(t, FetchFallback));
      }
      isLoading := false;
    }

    /** `addNote`: no count check is made before creating; the answer says
        whether the note was created. */
    method AddNote(repo: NoteRepository, title: string, content: string) returns (ok: bool)
      modifies this
      ensures var created := repo.create(NoteDraft(title, content));
        && (ok <==> created.Ok?)
        && (ok ==> notes == [created.value] + old(notes) && |notes| == |old(notes)| + 1 && error == None)
        && (!ok ==> notes == old(notes) && error == Some(MessageOr(created.thrown, CreateFallback)))
      ensures !isLoading
    {
      isLoading := true;
      error := None;
      match NoteUseCases.CreateNote(repo, title, content).result {
        case Ok(newNote) =>
          notes := [newNote] + notes;
          ok := true;
        case Threw(t) =>
          error := Some(MessageOr(t, CreateFallback));
          ok := false;
      }
      isLoading := false;
    }
  }
}

/** The toast list of `ToastProvider`: `showToast` appends and
    `removeToast` filters by id. */
module Toasts {

  datatype ToastType = SuccessToast | ErrorToast | InfoToast

  datatype Toast = Toast(id: string, message: string, kind: ToastType)

  /** `toasts.filter(toast => toast.id !== id)`. */
  function WithoutId(ts: seq<Toast>, id: string): (r: seq<Toast>)
    ensures |r| <= |ts|
    ensures forall t :: t in r ==> t in ts && t.id != id
    ensures forall t :: t in ts && t.id != id ==> t in r
  {
    if ts == [] then []
    else if ts[0].id == id then WithoutId(ts[1..], id)
    else [ts[0]] + WithoutId(ts[1..], id)
  }

  predicate IdAbsent(ts: seq<Toast>, id: string)
  {
    forall i :: 0 <= i < |ts| ==> ts[i].id != id
  }

  /** Filtering distributes over concatenation, so the toasts that stay
      keep their relative order. */
  lemma {:induction false} WithoutIdAppend(a: seq<Toast>, b: seq<Toast>, id: string)
    ensures WithoutId(a + b, id) == WithoutId(a, id) + WithoutId(b, id)
  {
    if a == [] {
      assert a + b == b;
    } else {
      var c := a + b;
      assert c[0] == a[0] && c[1..] == a[1..] + b;
      WithoutIdAppend(a[1..], b, id);
      if a[0].id == id {
        calc {
          WithoutId(c, id);
          WithoutId(a[1..] + b, id);
          WithoutId(a[1..], id) + WithoutId(b, id);
        }
      } else {
        calc {
          WithoutId(c, id);
          [a[0]] + WithoutId(a[1..] + b, id);
          [a[0]] + (WithoutId(a[1..], id) + WithoutId(b, id));
          ([a[0]] + WithoutId(a[1..], id)) + WithoutId(b, id);
        }
      }
    }
  }

  /** Removing an id that no toast carries changes nothing. */
  lemma {:induction false} WithoutAbsentId(ts: seq<Toast>, id: string)
    requires IdAbsent(ts, id)
    ensures WithoutId(ts, id) == ts
  {
    if ts != [] {
      assert IdAbsent(ts[1..], id) by {
        forall i | 0 <= i < |ts[1..]| ensures ts[1..][i].id != id {
          assert ts[1..][i] == ts[i + 1];
        }
      }
      WithoutAbsentId(ts[1..], id);
    }
  }

  /** Removing an id leaves no toast with it, so removing it again changes
      nothing. */
  lemma RemoveIdempotent(ts: seq<Toast>, id: string)
    ensures IdAbsent(WithoutId(ts, id), id)
    ensures WithoutId(WithoutId(ts, id), id) == WithoutId(ts, id)
  {
    var r := WithoutId(ts, id);
    assert forall i :: 0 <= i < |r| ==> r[i] in r;
    WithoutAbsentId(r, id);
  }

  /** Showing a toast under a fresh id and then removing that id gives back
      the list as it was. */
  lemma ShowThenRemove(ts: seq<Toast>, t: Toast)
    requires IdAbsent(ts, t.id)
    ensures WithoutId(ts + [t], t.id) == ts
  {
    WithoutIdAppend(ts, [t], t.id);
    WithoutAbsentId(ts, t.id);
  }

  class ToastStore {
    var toasts: seq<Toast>

    constructor ()
      ensures toasts == []
    {
      toasts := [];
    }

    /** `showToast`, with the identifier `crypto.randomUUID` would give
        passed in. */
    method ShowToast(id: string, message: string, kind: ToastType)
      modifies this
      ensures toasts == old(toasts) + [Toast(id, message, kind)]
    {
      toasts := toasts + [Toast(id, message, kind)];
    }

    /** `removeToast`. */
    method RemoveToast(id: string)
      modifies this
      ensures toasts == WithoutId(old(toasts), id)
    {
      toasts := WithoutId(toasts, id);
    }
  }
}
