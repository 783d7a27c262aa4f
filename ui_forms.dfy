/** The note form's lock and submit rules. The locked form is the only
    place where the note cap shows: the flag saying the cap is reached
    comes from the page that renders the form. */
module NoteFormRules {
  import opened Strings

  const MaxTitleLength: nat := 60

  /** `isLocked`. */
  predicate IsLocked(isLimitedReached: bool, isSaving: bool, isLoading: bool)
  {
    isLimitedReached || isSaving || isLoading
  }

  /** The submit button's `disabled`; `!title.trim()` holds exactly when
      the trimmed title is the empty string. */
  predicate SubmitDisabled(isLimitedReached: bool, isSaving: bool, isLoading: bool, title: string)
  {
    isLoading || Trim(title) == "" || isSaving || IsLocked(isLimitedReached, isSaving, isLoading)
  }

  datatype Header = ModifyData | MemoryFull | InputNew

  /** The form's heading: editing wins over the lock. */
  function HeaderFor(editing: bool, locked: bool): Header
  {
    if editing then ModifyData else if locked then MemoryFull else InputNew
  }

  /** The title counter turns to a warning once the title reaches the
      limit. */
  predicate CounterWarns(title: string)
  {
    |title| >= MaxTitleLength
  }

  /** Submit is enabled exactly when the form is unlocked and the title
      holds a character other than whitespace. */
  lemma SubmitEnabledIff(isLimitedReached: bool, isSaving: bool, isLoading: bool, title: string)
    ensures !SubmitDisabled(isLimitedReached, isSaving, isLoading, title) <==>
      !IsLocked(isLimitedReached, isSaving, isLoading) && !AllWhitespace(title)
  {
    TrimEmptyIff(title);
  }

  /** Reaching the note cap locks the form: submit is disabled whatever the
      title, and a new-note form shows the full-memory heading. */
  lemma LimitLocksForm(isSaving: bool, isLoading: bool, title: string)
    ensures IsLocked(true, isSaving, isLoading)
    ensures SubmitDisabled(true, isSaving, isLoading, title)
    ensures HeaderFor(false, IsLocked(true, isSaving, isLoading)) == MemoryFull
  {
  }

  /** A title made of whitespace only can never be submitted. */
  lemma BlankTitleDisablesSubmit(isLimitedReached: bool, isSaving: bool, isLoading: bool, title: string)
    requires AllWhitespace(title)
    ensures SubmitDisabled(isLimitedReached, isSaving, isLoading, title)
  {
    TrimEmptyIff(title);
  }

  /** The input holds at most 60 characters, so within that bound the
      counter warns exactly at the bound. */
  lemma CounterWarnsAtLimit(title: string)
    requires |title| <= MaxTitleLength
    ensures CounterWarns(title) <==> |title| == MaxTitleLength
  {
  }
}

/** The sign-up page: its own, weaker password check, and the guard
    sequence from submitting the form to the sign-up call. */
module SignUpForm {
  import opened Outcomes
  import opened Domain
  import opened Ports
  import opened Validators
  import AuthUseCases

  const WeakPasswordNotice := "Password must include uppercase, lowercase, numbers, and symbols"
  const CaptchaUnavailable := "System Error: Captcha validation unavailable."
  const ConnectionNotice := "An unexpected error occurred. Please check your connection."

  /** The page's `validatePassword`: the same character classes as the
      shared validator, but no length requirement and a single message. */
  function ValidatePassword(p: string): (r: Option<string>)
    ensures r.None? <==> HasUpper(p) && HasLower(p) && HasDigit(p) && HasSymbol(p)
    ensures r.Some? ==> r.value == WeakPasswordNotice
  {
    if !HasUpper(p) || !HasLower(p) || !HasDigit(p) || !HasSymbol(p) then Some(WeakPasswordNotice)
    else None
  }

  /** Every password the shared validator accepts passes the page's
      check as well. */
  lemma SharedValidatorIsStricter(p: string)
    requires IsValidPassword(p).isValid
    ensures ValidatePassword(p).None?
  {
    PasswordValidIff(p);
  }

  /** The converse fails: a six-character password, long enough for the
      input's `minLength`, passes the page's check and is refused by the
      shared validator, because `validatePassword` has no length rule. */
  lemma PageCheckIsWeaker()
    ensures ValidatePassword("Aa1!aa").None?
    ensures !IsValidPassword("Aa1!aa").isValid
  {
    var p := "Aa1!aa";
    assert IsUpper(p[0]) && IsLower(p[1]) && IsDigit(p[2]);
    assert p[3] == '!' && '!' in PasswordSymbols;
  }

  /** The page's state: the three inputs, the error, the loading flag, and
      what the page hands on (the signed-up user to `setUser`, the
      navigation to "/", the captcha's `execute` and `resetCaptcha`). */
  class SignUpPage {
    var email: string
    var alias: string
    var password: string
    var error: Option<string>
    var isLoading: bool
    var signedUpUser: Option<User>
    var navigatedHome: bool
    var captchaExecutions: nat
    var captchaResets: nat

    constructor (email: string, alias: string, password: string)
      ensures this.email == email && this.alias == alias && this.password == password
      ensures error == None && !isLoading && signedUpUser == None && !navigatedHome
      ensures captchaExecutions == 0 && captchaResets == 0
    {
      this.email, this.alias, this.password := email, alias, password;
      error, isLoading := None, false;
      signedUpUser, navigatedHome := None, false;
      captchaExecutions, captchaResets := 0, 0;
    }

    /** `handleSubmit`: a failing password check or a missing captcha
        widget stops the submission before loading starts; otherwise the
        invisible captcha is executed, and its token later arrives at
        `HandleSignUp`. */
    method HandleSubmit(captchaMounted: bool)
      modifies this
      ensures ValidatePassword(password).Some? ==>
        error == ValidatePassword(password) && isLoading == old(isLoading) &&
        captchaExecutions == old(captchaExecutions)
      ensures ValidatePassword(password).None? && !captchaMounted ==>
        error == Some(CaptchaUnavailable) && isLoading == old(isLoading) &&
        captchaExecutions == old(captchaExecutions)
      ensures ValidatePassword(password).None? && captchaMounted ==>
        error == None && isLoading && captchaExecutions == old(captchaExecutions) + 1
      ensures email == old(email) && alias == old(alias) && password == old(password)
      ensures signedUpUser == old(signedUpUser) && navigatedHome == old(navigatedHome)
      ensures captchaResets == old(captchaResets)
    {
      error := None;
      var passwordError := ValidatePassword(password);
      if passwordError.Some? {
        error := passwordError;
        return;
      }
      if !captchaMounted {
        error := Some(CaptchaUnavailable);
        return;
      }
      isLoading := true;
      captchaExecutions := captchaExecutions + 1;
    }

    /** `handleSignUp`, called with the captcha's token: one sign-up call
        with the form's values; success hands the user on and goes home,
        failure shows the message and resets the captcha if the widget is
        still mounted (`captchaRef.current?.resetCaptcha()`). Loading always
        ends. */
    method HandleSignUp(auth: AuthPort, captchaToken: string, captchaMounted: bool)
      modifies this
      ensures !isLoading
      ensures email == old(email) && alias == old(alias) && password == old(password)
      ensures captchaExecutions == old(captchaExecutions)
      ensures var r := auth.signUp(email, alias, password, captchaToken);
        && (r.Ok? ==>
              signedUpUser == Some(r.value) && navigatedHome && error == old(error) &&
              captchaResets == old(captchaResets))
        && (r.Threw? ==>
              error == Some(MessageOr(r.thrown, ConnectionNotice)) &&
              captchaResets == old(captchaResets) + (if captchaMounted then 1 else 0) &&
              signedUpUser == old(signedUpUser) && navigatedHome == old(navigatedHome))
    {
      match AuthUseCases.SignUp(auth, email, alias, password, captchaToken).result {
        case Ok(user) =>
          signedUpUser := Some(user);
          navigatedHome := true;
        case Threw(t) =>
          error := Some(MessageOr(t, ConnectionNotice));
          if captchaMounted {
            captchaResets := captchaResets + 1;
          }
      }
      isLoading := false;
    }
  }
}
