/** The wired Supabase authentication adapter: it reads the client's
    `{data, error}` answer through guard clauses and translates every
    failure into a user-facing `Error`. The client call itself is a
    parameter: its settled answer. */
module SupabaseAuth {
  import opened Outcomes
  import opened Domain
  import opened Strings

  /** The value of `user_metadata.alias`: missing, a string, or some other
      value (a number, an object). */
  datatype MetaValue = Absent | Text(text: string) | NotText

  /** `data.user` as the client returns it. */
  datatype AuthUserData = AuthUserData(id: string, email: Option<string>, alias: MetaValue)

  /** What awaiting `signUp`, `signInWithPassword` or `signInAnonymously`
      settles to: the call threw, or it resolved with an optional error
      (an `AuthError`, of which its message is kept) and an optional user. */
  datatype AuthReply =
    | Rejected(thrown: Thrown)
    | Replied(error: Option<string>, user: Option<AuthUserData>)

  /** What awaiting `signOut` settles to. */
  datatype SignOutReply = SignOutRejected(thrown: Thrown) | SignedOut(error: Option<string>)

  /** The argument of `supabase.auth.signUp`. */
  datatype SignUpRequest = SignUpRequest(
    email: string, password: string, metadata: map<string, string>, captchaToken: Option<string>)

  /** `user_metadata.alias` passes the guard only when it is a non-empty
      string. */
  predicate AliasPresent(a: MetaValue)
  {
    a.Text? && a.text != ""
  }

  /** The user passes both guards: a non-empty e-mail and an alias. */
  predicate CompleteUser(u: AuthUserData)
  {
    u.email.Some? && u.email.value != "" && AliasPresent(u.alias)
  }

  /** The `try` block of `signUp` and `signIn`: rethrow the client's error,
      then guard the user, its e-mail and its alias, in that order. */
  function UserFromReply(reply: AuthReply, noUser: string, noEmail: string, noAlias: string): (r: Outcome<User>)
    ensures r.Ok? <==> reply.Replied? && reply.error.None? && reply.user.Some? && CompleteUser(reply.user.value)
    ensures r.Ok? ==> r.value == User(reply.user.value.id, reply.user.value.email, Some(reply.user.value.alias.text))
    ensures reply.Rejected? ==> r == Threw(reply.thrown)
    ensures reply.Replied? && reply.error.Some? ==> r == Fail(reply.error.value)
    ensures reply.Replied? && reply.error.None? && r.Threw? ==>
      r == Fail(noUser) || r == Fail(noEmail) || r == Fail(noAlias)
  {
    match reply
    case Rejected(t) => Threw(t)
    case Replied(Some(m), _) => Fail(m)
    case Replied(None, None) => Fail(noUser)
    case Replied(None, Some(u)) =>
      if u.email.None? || u.email.value == "" then Fail(noEmail)
      else if !AliasPresent(u.alias) then Fail(noAlias)
      else Ok(User(u.id, Some(u.email.value), Some(u.alias.text)))
  }

  // ---------------------------------------------------------------------
  // signUp

  function SignUpRequestFor(email: string, alias: string, password: string, captchaToken: string): (q: SignUpRequest)
    ensures q.captchaToken == Some(captchaToken)
    ensures q.metadata.Keys == {"alias"} && q.metadata["alias"] == alias
    ensures q.email == email && q.password == password
  {
    SignUpRequest(email, password, map["alias" := alias], Some(captchaToken))
  }

  function SignUpAttempt(reply: AuthReply): Outcome<User>
  {
    UserFromReply(reply, "No user data returned", "No  email returned", "No alias found in metadata")
  }

  const EmailInUse := "This email is already in use."
  const PasswordRules := "Password must contain: uppercase letter, lowercase letter, number, and symbol"

  /** The sign-up catch's translation: one of the two fixed messages, each
      only for a message that mentions its trigger, or the message itself. */
  function TranslateSignUpMessage(m: string): (r: string)
    ensures r == m || r == EmailInUse || r == PasswordRules
    ensures r == EmailInUse && r != m ==> Includes(m, "User already registered")
    ensures r == PasswordRules && r != m ==> Includes(m, "Password should contain")
  {
    if Includes(m, "User already registered") then EmailInUse
    else if Includes(m, "Password should contain") then PasswordRules
    else m
  }

  /** `SupabaseAuthAdapter.signUp`. */
  function SignUp(reply: AuthReply): (r: Outcome<User>)
    ensures r.Ok? <==> reply.Replied? && reply.error.None? && reply.user.Some? && CompleteUser(reply.user.value)
    ensures r.Ok? ==> r.value == User(reply.user.value.id, reply.user.value.email, Some(reply.user.value.alias.text))
    ensures r.Threw? ==> r.thrown.ErrorValue?
  {
    match SignUpAttempt(reply)
    case Ok(u) => Ok(u)
    case Threw(t) =>
      Fail(TranslateSignUpMessage(MessageOr(t, SignUpFallback)))
  }

  // ---------------------------------------------------------------------
  // signIn

  /** The argument of `supabase.auth.signInWithPassword`. */
  datatype SignInRequest = SignInRequest(email: string, password: string)

  function SignInRequestFor(email: string, password: string): (q: SignInRequest)
    ensures q.email == email && q.password == password
  {
    SignInRequest(email, password)
  }

  function SignInAttempt(reply: AuthReply): Outcome<User>
  {
    UserFromReply(reply, "No user data returned.", "No email returned.", "No alias found in metadata.")
  }

  const IncorrectCredentials := "Incorrect email or password."

  /** The sign-in catch's translation: the fixed credentials message only
      for a message that mentions invalid credentials, otherwise the message
      itself. */
  function TranslateSignInMessage(m: string): (r: string)
    ensures r == m || r == IncorrectCredentials
    ensures r != m ==> Includes(m, "Invalid login credentials")
  {
    if Includes(m, "Invalid login credentials") then IncorrectCredentials else m
  }

  /** `SupabaseAuthAdapter.signIn`. */
  function SignIn(reply: AuthReply): (r: Outcome<User>)
    ensures r.Ok? <==> reply.Replied? && reply.error.None? && reply.user.Some? && CompleteUser(reply.user.value)
    ensures r.Ok? ==> r.value == User(reply.user.value.id, reply.user.value.email, Some(reply.user.value.alias.text))
    ensures r.Threw? ==> r.thrown.ErrorValue?
  {
    match SignInAttempt(reply)
    case Ok(u) => Ok(u)
    case Threw(t) =>
      Fail(TranslateSignInMessage(MessageOr(t, "An unexpected error occurred during sign-in.")))
  }

  // ---------------------------------------------------------------------
  // signInAnonymously and logOut

  /** `SupabaseAuthAdapter.signInAnonymously`: no translation, and the user
      that comes back carries neither e-mail nor alias. */
  function SignInAnonymously(reply: AuthReply): (r: Outcome<User>)
    ensures r.Ok? <==> reply.Replied? && reply.error.None? && reply.user.Some?
    ensures r.Ok? ==> r.value == User(reply.user.value.id, None, None)
    ensures reply == Replied(None, None) ==> r == Fail("Anonymous sign-in failed.")
    ensures reply.Replied? && reply.error.Some? ==> r == Fail(reply.error.value)
    ensures reply.Rejected? ==>
      r == Fail(MessageOr(reply.thrown, "An unexpected error occurred during guest sign-in."))
  {
    match reply
    case Rejected(t) => Fail(MessageOr(t, "An unexpected error occurred during guest sign-in."))
    case Replied(Some(m), _) => Fail(m)
    case Replied(None, None) => Fail("Anonymous sign-in failed.")
    case Replied(None, Some(u)) => Ok(User(u.id, None, None))
  }

  const SignOutFailed := "An error occurred during sign-out. Please try again."

  /** `SupabaseAuthAdapter.logOut`: every failure, whatever its cause, is
      the one fixed message. */
  function LogOut(reply: SignOutReply): (r: Outcome<()>)
    ensures r.Ok? <==> reply == SignedOut(None)
    ensures r.Threw? ==> r == Fail(SignOutFailed)
  {
    match reply
    case SignedOut(None) => Ok(())
    case _ => Fail(SignOutFailed)
  }

  // ---------------------------------------------------------------------
  // The translation rules.

  /** A duplicate registration is reported as such, and that rule comes
      before the password rule. The catch translates the message of any
      caught `Error`, so a rejected client call whose `Error` carries the
      same message is reported in the same words. */
  lemma SignUpDuplicateFirst(m: string, user: Option<AuthUserData>)
    requires Includes(m, "User already registered")
    ensures SignUp(Replied(Some(m), user)) == Fail(EmailInUse)
    ensures SignUp(Rejected(ErrorValue(m))) == Fail(EmailInUse)
  {
  }

  lemma SignUpPasswordRule(m: string, user: Option<AuthUserData>)
    requires !Includes(m, "User already registered") && Includes(m, "Password should contain")
    ensures SignUp(Replied(Some(m), user)) == Fail(PasswordRules)
    ensures SignUp(Rejected(ErrorValue(m))) == Fail(PasswordRules)
  {
  }

  /** A message that matches neither rule is shown verbatim, whether the
      backend answered with it or the client call threw it. */
  lemma SignUpOtherMessagesVerbatim(m: string, user: Option<AuthUserData>)
    requires !Includes(m, "User already registered") && !Includes(m, "Password should contain")
    ensures SignUp(Replied(Some(m), user)) == Fail(m)
    ensures SignUp(Rejected(ErrorValue(m))) == Fail(m)
  {
  }

  /** A message with neither an upper-case U nor an upper-case P matches no
      rule. */
  lemma SignUpKeepsMessage(m: string)
    requires 'U' !in m && 'P' !in m
    ensures TranslateSignUpMessage(m) == m
  {
    MissingFirstExcludes(m, "User already registered");
    MissingFirstExcludes(m, "Password should contain");
  }

  /** The guard clauses' own messages go through the same translation and
      come out unchanged. */
  lemma SignUpMissingUser()
    ensures SignUp(Replied(None, None)) == Fail("No user data returned")
  {
    ShorterExcludes("No user data returned", "User already registered");
    ShorterExcludes("No user data returned", "Password should contain");
  }

  lemma SignUpMissingEmail(id: string, email: Option<string>, alias: MetaValue)
    requires email == None || email == Some("")
    ensures SignUp(Replied(None, Some(AuthUserData(id, email, alias)))) == Fail("No  email returned")
  {
    ShorterExcludes("No  email returned", "User already registered");
    ShorterExcludes("No  email returned", "Password should contain");
  }

  lemma SignUpMissingAlias(id: string, email: string, alias: MetaValue)
    requires email != "" && !AliasPresent(alias)
    ensures SignUp(Replied(None, Some(AuthUserData(id, Some(email), alias)))) ==
      Fail("No alias found in metadata")
  {
    var m := "No alias found in metadata";
    AliasMessageLetters(m);
    SignUpKeepsMessage(m);
    assert SignUpAttempt(Replied(None, Some(AuthUserData(id, Some(email), alias)))) == Fail(m);
  }

  lemma AliasMessageLetters(m: string)
    requires m == "No alias found in metadata"
    ensures 'U' !in m && 'P' !in m
  {
  }

  /** The registration fallback, "An unexpected error occurred during
      registration.". */
  const SignUpFallback := "An unexpected" + " error occurred" + " during registration."

  lemma SignUpFallbackLetters()
    ensures 'U' !in SignUpFallback && 'P' !in SignUpFallback
  {
  }

  /** A thrown value that is not an `Error` becomes the generic
      registration message. */
  lemma SignUpNonErrorThrow()
    ensures SignUp(Rejected(OtherValue)) == Fail(SignUpFallback)
  {
    SignUpFallbackLetters();
    SignUpKeepsMessage(SignUpFallback);
  }

  /** Bad credentials are reported in the application's own words; every
      other `Error` message is passed on verbatim. Both hold alike for the
      backend's error and for an `Error` the client call throws. */
  lemma SignInTranslation(m: string, user: Option<AuthUserData>)
    ensures Includes(m, "Invalid login credentials") ==>
      SignIn(Replied(Some(m), user)) == Fail(IncorrectCredentials)
    ensures !Includes(m, "Invalid login credentials") ==>
      SignIn(Replied(Some(m), user)) == Fail(m)
    ensures Includes(m, "Invalid login credentials") ==>
      SignIn(Rejected(ErrorValue(m))) == Fail(IncorrectCredentials)
    ensures !Includes(m, "Invalid login credentials") ==>
      SignIn(Rejected(ErrorValue(m))) == Fail(m)
  {
  }

  /** A thrown value that is not an `Error` becomes the generic sign-in
      message. */
  lemma SignInNonErrorThrow()
    ensures SignIn(Rejected(OtherValue)) == Fail("An unexpected error occurred during sign-in.")
  {
    MissingFirstExcludes("An unexpected error occurred during sign-in.", "Invalid login credentials");
  }

  /** A missing user, a user with a missing or empty e-mail, and a user
      without a usable alias are each refused with the guard's own
      message. */
  lemma SignInMissingData(id: string, email: Option<string>, alias: MetaValue)
    ensures SignIn(Replied(None, None)) == Fail("No user data returned.")
    ensures email == None || email == Some("") ==>
      SignIn(Replied(None, Some(AuthUserData(id, email, alias)))) == Fail("No email returned.")
    ensures email.Some? && email.value != "" && !AliasPresent(alias) ==>
      SignIn(Replied(None, Some(AuthUserData(id, email, alias)))) == Fail("No alias found in metadata.")
  {
    ShorterExcludes("No email returned.", "Invalid login credentials");
    ShorterExcludes("No user data returned.", "Invalid login credentials");
    MissingFirstExcludes("No alias found in metadata.", "Invalid login credentials");
  }

  /** The adapter's unit tests, as lemmas: the client receives the test's
      e-mail and password, a complete user is mapped to the domain user, and
      the backend's bad-credentials error is translated. */
  lemma SignInTestVectors()
    ensures SignInRequestFor("user@example.com", "Password123!") ==
      SignInRequest("user@example.com", "Password123!")
    ensures SignIn(Replied(None, Some(AuthUserData("user-uuid-123", Some("user@example.com"), Text("TestAlias"))))) ==
      Ok(User("user-uuid-123", Some("user@example.com"), Some("TestAlias")))
    ensures SignIn(Replied(Some("Invalid login credentials"), None)) == Fail(IncorrectCredentials)
  {
    StartsWithIncludes("Invalid login credentials", "Invalid login credentials");
  }
}

/** The older, unwired variant of the same adapter. Its `signIn` and
    `logOut` are the wired adapter's rules unchanged; its `signUp` puts the
    captcha token into the user metadata and translates any message that
    mentions "Password" into a generic weak-password message. */
module LegacySupabaseAuth {
  import opened Outcomes
  import opened Domain
  import opened Strings
  import SupabaseAuth

  /** The argument the older adapter passes to `supabase.auth.signUp`: no
      captcha option; the token travels as user metadata. */
  function SignUpRequestFor(email: string, alias: string, password: string, captchaToken: string): (q: SupabaseAuth.SignUpRequest)
    ensures q.captchaToken.None?
    ensures q.metadata.Keys == {"alias", "captchaToken"}
    ensures q.metadata["alias"] == alias && q.metadata["captchaToken"] == captchaToken
  {
    SupabaseAuth.SignUpRequest(email, password, map["alias" := alias, "captchaToken" := captchaToken], None)
  }

  const WeakPassword := "The password is too weak. Please use a stronger password."

  /** The older sign-up translation: one of two fixed messages, each only
      for a message that mentions its trigger, or the message itself. */
  function TranslateSignUpMessage(m: string): (r: string)
    ensures r == m || r == SupabaseAuth.EmailInUse || r == WeakPassword
    ensures r == SupabaseAuth.EmailInUse && r != m ==> Includes(m, "User already registered")
    ensures r == WeakPassword && r != m ==> Includes(m, "Password")
  {
    if Includes(m, "User already registered") then SupabaseAuth.EmailInUse
    else if Includes(m, "Password") then WeakPassword
    else m
  }

  /** `SupaBaseAuthAdapter.signUp` (the older file). */
  function SignUp(reply: SupabaseAuth.AuthReply): (r: Outcome<User>)
    ensures r.Ok? <==> SupabaseAuth.SignUp(reply).Ok?
    ensures r.Ok? ==> r == SupabaseAuth.SignUp(reply)
    ensures r.Threw? ==> r.thrown.ErrorValue?
  {
    match SupabaseAuth.SignUpAttempt(reply)
    case Ok(u) => Ok(u)
    case Threw(t) =>
      Fail(TranslateSignUpMessage(MessageOr(t, SupabaseAuth.SignUpFallback)))
  }

  /** "User already registered" is checked first; after it, any message
      mentioning "Password" becomes the weak-password message. A rejected
      client call whose `Error` carries the message is translated alike. */
  lemma LegacySignUpRules(m: string, user: Option<SupabaseAuth.AuthUserData>)
    ensures Includes(m, "User already registered") ==>
      SignUp(SupabaseAuth.Replied(Some(m), user)) == Fail(SupabaseAuth.EmailInUse)
    ensures !Includes(m, "User already registered") && Includes(m, "Password") ==>
      SignUp(SupabaseAuth.Replied(Some(m), user)) == Fail(WeakPassword)
    ensures !Includes(m, "User already registered") && !Includes(m, "Password") ==>
      SignUp(SupabaseAuth.Replied(Some(m), user)) == Fail(m)
    ensures SignUp(SupabaseAuth.Rejected(ErrorValue(m))) == SignUp(SupabaseAuth.Replied(Some(m), user))
  {
  }

  /** Wherever the wired adapter applies its password rule, the older one
      reports a weak password. */
  lemma LegacyCoarserOnPasswords(m: string, user: Option<SupabaseAuth.AuthUserData>)
    requires !Includes(m, "User already registered") && Includes(m, "Password should contain")
    ensures SupabaseAuth.SignUp(SupabaseAuth.Replied(Some(m), user)) == Fail(SupabaseAuth.PasswordRules)
    ensures SignUp(SupabaseAuth.Replied(Some(m), user)) == Fail(WeakPassword)
  {
    assert "Password" + " should contain" == "Password should contain";
    IncludesPrefixOf(m, "Password", " should contain");
  }

  /** The converse fails: a backend message that mentions "Password" in
      other words is shown verbatim by the wired adapter and replaced by
      the older one. */
  lemma LegacyTranslatesMore(user: Option<SupabaseAuth.AuthUserData>)
    ensures SupabaseAuth.SignUp(SupabaseAuth.Replied(Some("Password too short"), user)) ==
      Fail("Password too short")
    ensures SignUp(SupabaseAuth.Replied(Some("Password too short"), user)) == Fail(WeakPassword)
  {
    ShorterExcludes("Password too short", "User already registered");
    ShorterExcludes("Password too short", "Password should contain");
    assert StartsWith("Password too short", "Password");
    StartsWithIncludes("Password too short", "Password");
  }

  /** The older adapter never hands the captcha token to the captcha
      check: for every token the request carries no captcha option, while
      the wired adapter's request carries the token. */
  lemma LegacySignUpDropsCaptcha(email: string, alias: string, password: string, token: string)
    ensures SignUpRequestFor(email, alias, password, token).captchaToken == None
    ensures SupabaseAuth.SignUpRequestFor(email, alias, password, token).captchaToken == Some(token)
  {
  }
}
