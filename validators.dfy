/** The two static validators of the core: an e-mail recogniser for the
    anchored pattern the application uses, and the fail-fast password
    strength check. */
module Validators {
  import opened Outcomes

  // ---------------------------------------------------------------------
  // Character classes shared by both validators (ASCII ranges, as in the
  // regular expressions of the source).

  predicate IsUpper(c: char) { 'A' <= c <= 'Z' }
  predicate IsLower(c: char) { 'a' <= c <= 'z' }
  predicate IsDigit(c: char) { '0' <= c <= '9' }
  predicate IsAlnum(c: char) { IsUpper(c) || IsLower(c) || IsDigit(c) }

  /** The punctuation allowed in the local part of an address, besides
      letters and digits. */
  const LocalSymbols: string := ".!#$%&'*+/=?^_`{|}~-"

  predicate IsLocalChar(c: char) { IsAlnum(c) || c in LocalSymbols }
  predicate IsLabelChar(c: char) { IsAlnum(c) || c == '-' }

  const MaxLabelLength: nat := 63

  // ---------------------------------------------------------------------
  // The e-mail pattern, declaratively: a non-empty local part, one '@',
  // and a domain whose every dot-separated label is valid.

  predicate LocalPart(p: string)
  {
    |p| > 0 && forall i :: 0 <= i < |p| ==> IsLocalChar(p[i])
  }

  /** 1 to 63 letters, digits or hyphens, beginning and ending with a letter
      or digit. */
  predicate ValidLabel(l: string)
  {
    && 1 <= |l| <= MaxLabelLength
    && IsAlnum(l[0]) && IsAlnum(l[|l| - 1])
    && forall i :: 0 <= i < |l| ==> IsLabelChar(l[i])
  }

  /** `d.split(".")`. */
  function Labels(d: string): (r: seq<string>)
    ensures |r| > 0
  {
    if d == [] then [[]]
    else
      var rest := Labels(d[1..]);
      if d[0] == '.' then [[]] + rest
      else [[d[0]] + rest[0]] + rest[1..]
  }

  predicate AllLabelsValid(ls: seq<string>)
  {
    forall k :: 0 <= k < |ls| ==> ValidLabel(ls[k])
  }

  predicate DomainPart(d: string)
  {
    AllLabelsValid(Labels(d))
  }

  /** `s` splits at index `i` into a local part, the '@' and a domain. */
  predicate AtSplit(s: string, i: int)
  {
    0 <= i < |s| && s[i] == '@' && LocalPart(s[..i]) && DomainPart(s[i + 1..])
  }

  predicate EmailSpec(s: string)
  {
    exists i | 0 <= i < |s| :: AtSplit(s, i)
  }

  // ---------------------------------------------------------------------
  // The recogniser: the anchored pattern run as a finite automaton over
  // the characters of the input, left to right.

  datatype ScanState =
    | LocalStart                           // nothing read yet
    | InLocal                              // inside a non-empty local part
    | LabelStart                           // after '@' or after a '.'
    | InLabel(length: nat, endsAlnum: bool) // inside a domain label
    | Rejected

  function Step(st: ScanState, c: char): ScanState
  {
    match st
    case LocalStart => if IsLocalChar(c) then InLocal else Rejected
    case InLocal =>
      if IsLocalChar(c) then InLocal else if c == '@' then LabelStart else Rejected
    case LabelStart => if IsAlnum(c) then InLabel(1, true) else Rejected
    case InLabel(n, e) =>
      if IsLabelChar(c) && n < MaxLabelLength then InLabel(n + 1, IsAlnum(c))
      else if c == '.' && e then LabelStart
      else Rejected
    case Rejected => Rejected
  }

  function Run(st: ScanState, s: string): ScanState
    decreases |s|
  {
    if s == [] then st else Run(Step(st, s[0]), s[1..])
  }

  predicate Accepting(st: ScanState)
  {
    st.InLabel? && st.endsAlnum
  }

  /** `Validators.isValidEmail`: the empty string is refused, then the
      pattern is matched against the whole input. */
  predicate IsValidEmail(email: string)
  {
    if email == "" then false else Accepting(Run(LocalStart, email))
  }

  // ---------------------------------------------------------------------
  // The recogniser accepts exactly the strings the declarative pattern
  // describes.

  lemma {:induction false} RejectedStays(s: string)
    ensures Run(Rejected, s) == Rejected
    decreases |s|
  {
    if s != [] {
      RejectedStays(s[1..]);
    }
  }

  lemma {:induction false} LabelsOfUndotted(cur: string, d: string)
    requires forall i :: 0 <= i < |cur| ==> cur[i] != '.'
    ensures Labels(cur + d) == [cur + Labels(d)[0]] + Labels(d)[1..]
    decreases |cur|
  {
    if cur != [] {
      var tail := cur[1..];
      var L := Labels(d);
      assert (cur + d)[1..] == tail + d;
      assert (cur + d)[0] == cur[0] != '.';
      LabelsOfUndotted(tail, d);
      var rest := Labels(tail + d);
      assert rest == [tail + L[0]] + L[1..];
      assert rest[0] == tail + L[0];
      assert rest[1..] == L[1..];
      assert Labels(cur + d) == [[cur[0]] + rest[0]] + rest[1..];
      assert [cur[0]] + (tail + L[0]) == cur + L[0];
    } else {
      var L := Labels(d);
      assert cur + d == d && cur + L[0] == L[0];
      assert [L[0]] + L[1..] == L;
    }
  }

  lemma AllLabelsValidCons(a: string, rest: seq<string>)
    ensures AllLabelsValid([a] + rest) == (ValidLabel(a) && AllLabelsValid(rest))
  {
    if ValidLabel(a) && AllLabelsValid(rest) {
      forall k | 0 <= k < |[a] + rest| ensures ValidLabel(([a] + rest)[k]) {
        if k > 0 {
          assert ([a] + rest)[k] == rest[k - 1];
        }
      }
    }
    if AllLabelsValid([a] + rest) {
      assert ValidLabel(([a] + rest)[0]);
      forall k | 0 <= k < |rest| ensures ValidLabel(rest[k]) {
        assert rest[k] == ([a] + rest)[k + 1];
      }
    }
  }

  /** Inside a label: `cur` is the part of the current label read so far. */
  predicate LabelSoFar(cur: string)
  {
    && 1 <= |cur| <= MaxLabelLength
    && IsAlnum(cur[0])
    && forall i :: 0 <= i < |cur| ==> IsLabelChar(cur[i])
  }

  lemma {:induction false} ScanLabelCorrect(cur: string, d: string)
    requires LabelSoFar(cur)
    ensures Accepting(Run(InLabel(|cur|, IsAlnum(cur[|cur| - 1])), d)) == DomainPart(cur + d)
    decreases |d|, 1
  {
    var st := InLabel(|cur|, IsAlnum(cur[|cur| - 1]));
    LabelsOfUndotted(cur, d);
    var ls := Labels(d);
    AllLabelsValidCons(cur + ls[0], ls[1..]);
    if d == [] {
      assert cur + d == cur;
    } else {
      var c := d[0];
      if IsLabelChar(c) && |cur| < MaxLabelLength {
        var cur' := cur + [c];
        assert cur' + d[1..] == cur + d;
        ScanLabelCorrect(cur', d[1..]);
      } else if c == '.' {
        assert ls == [[]] + Labels(d[1..]);
        assert ls[0] == [] && ls[1..] == Labels(d[1..]);
        assert cur + ls[0] == cur;
        RejectedStays(d[1..]);
        ScanDomainCorrect(d[1..]);
      } else {
        RejectedStays(d[1..]);
        var first := cur + ls[0];
        assert ls[0] == [c] + Labels(d[1..])[0];
        assert first[|cur|] == c;
        assert !ValidLabel(first);
      }
    }
  }

  lemma {:induction false} ScanDomainCorrect(d: string)
    ensures Accepting(Run(LabelStart, d)) == DomainPart(d)
    decreases |d|, 0
  {
    if d != [] {
      var c := d[0];
      var ls := Labels(d);
      if IsAlnum(c) {
        assert [c] + d[1..] == d;
        ScanLabelCorrect([c], d[1..]);
      } else {
        RejectedStays(d[1..]);
        AllLabelsValidCons(ls[0], ls[1..]);
        assert ls == [ls[0]] + ls[1..];
        if c == '.' {
          assert ls[0] == [];
        } else {
          assert ls[0][0] == c;
        }
      }
    } else {
      assert Labels(d) == [[]];
      assert !ValidLabel(Labels(d)[0]);
    }
  }

  lemma {:induction false} ScanLocalCorrect(pre: string, s: string)
    requires LocalPart(pre)
    ensures Accepting(Run(InLocal, s)) == EmailSpec(pre + s)
    decreases |s|
  {
    var w := pre + s;
    if s == [] {
      assert w == pre;
      forall i | 0 <= i < |w| ensures !AtSplit(w, i) {
        assert w[i] == pre[i];
      }
    } else {
      var c := s[0];
      if IsLocalChar(c) {
        var pre' := pre + [c];
        assert pre' + s[1..] == w;
        ScanLocalCorrect(pre', s[1..]);
      } else {
        // Any split index other than |pre| puts a non-local character,
        // either an '@' of `pre` or `c`, where the source forbids it.
        forall i | 0 <= i < |w| && i != |pre| ensures !AtSplit(w, i) {
          if i < |pre| {
            assert w[i] == pre[i];
          } else {
            assert w[..i][|pre|] == c;
          }
        }
        if c == '@' {
          assert w[|pre| + 1..] == s[1..];
          assert w[..|pre|] == pre;
          ScanDomainCorrect(s[1..]);
          assert EmailSpec(w) <==> AtSplit(w, |pre|);
        } else {
          RejectedStays(s[1..]);
          assert w[|pre|] == c;
        }
      }
    }
  }

  /** The recogniser and the declarative pattern agree on every input. */
  lemma IsValidEmailMeansPattern(s: string)
    ensures IsValidEmail(s) <==> EmailSpec(s)
  {
    if s != [] {
      var c := s[0];
      if IsLocalChar(c) {
        assert [c] + s[1..] == s;
        ScanLocalCorrect([c], s[1..]);
      } else {
        RejectedStays(s[1..]);
        forall i | 0 <= i < |s| ensures !AtSplit(s, i) {
          if i > 0 {
            assert s[..i][0] == c;
          }
        }
      }
    }
  }

  // ---------------------------------------------------------------------
  // What a valid address looks like.

  lemma {:induction false} DomainHasNoAt(st: ScanState, d: string)
    requires st == LabelStart || st.InLabel?
    requires Accepting(Run(st, d))
    ensures forall k :: 0 <= k < |d| ==> d[k] == '.' || IsLabelChar(d[k])
    decreases |d|
  {
    if d != [] {
      var next := Step(st, d[0]);
      if next == Rejected {
        RejectedStays(d[1..]);
      } else {
        DomainHasNoAt(next, d[1..]);
        assert forall k :: 1 <= k < |d| ==> d[k] == d[1..][k - 1];
      }
    }
  }

  /** The empty string is never a valid address. */
  lemma EmptyEmailInvalid()
    ensures !IsValidEmail("")
  {
  }

  /** A valid address has exactly one '@'; before it a non-empty run of the
      allowed local characters, after it only valid dot-separated labels. */
  lemma ValidEmailStructure(s: string)
    requires IsValidEmail(s)
    ensures exists i ::
      && 0 <= i < |s| && s[i] == '@'
      && LocalPart(s[..i])
      && AllLabelsValid(Labels(s[i + 1..]))
      && (forall j :: 0 <= j < |s| && s[j] == '@' ==> j == i)
  {
    IsValidEmailMeansPattern(s);
    var i :| 0 <= i < |s| && AtSplit(s, i);
    var d := s[i + 1..];
    ScanDomainCorrect(d);
    DomainHasNoAt(LabelStart, d);
    assert forall j :: 0 <= j < |s| && s[j] == '@' ==> j == i;
  }

  /** No dot is needed after the '@'. */
  lemma EmailWithoutDot()
    ensures IsValidEmail("a@b")
  {
  }

  // ---------------------------------------------------------------------
  // The password check.

  datatype ValidationResult = ValidationResult(isValid: bool, message: string)

  /** The punctuation one of which a password must contain. */
  const PasswordSymbols: string := "!@#$%^&*()_+-=[]{};':\"|,.<>?~`"

  const MinPasswordLength: nat := 8

  predicate HasUpper(p: string) { exists i :: 0 <= i < |p| && IsUpper(p[i]) }
  predicate HasLower(p: string) { exists i :: 0 <= i < |p| && IsLower(p[i]) }
  predicate HasDigit(p: string) { exists i :: 0 <= i < |p| && IsDigit(p[i]) }
  predicate HasSymbol(p: string) { exists i :: 0 <= i < |p| && p[i] in PasswordSymbols }

  /** `Validators.isValidPassword`: the first failing check picks the message. */
  function IsValidPassword(password: string): ValidationResult
  {
    if password == "" then ValidationResult(false, "Password is required.")
    else if |password| < MinPasswordLength then
      ValidationResult(false, "Password must be at least 8 characters.")
    else if !HasUpper(password) then
      ValidationResult(false, "Password must contain at least one uppercase letter.")
    else if !HasLower(password) then
      ValidationResult(false, "Password must contain at least one lowercase letter.")
    else if !HasDigit(password) then
      ValidationResult(false, "Password must contain at least one number.")
    else if !HasSymbol(password) then
      ValidationResult(false, "Password must contain at least one special character.")
    else ValidationResult(true, "")
  }

  /** The checks of the password rule, as data, in the order the source
      runs them. */
  datatype PasswordCheck = Required | MinLength | Uppercase | Lowercase | Number | Special

  const PasswordChecks: seq<PasswordCheck> :=
    [Required, MinLength, Uppercase, Lowercase, Number, Special]

  predicate Passes(c: PasswordCheck, p: string)
  {
    match c
    case Required => p != ""
    case MinLength => |p| >= MinPasswordLength
    case Uppercase => HasUpper(p)
    case Lowercase => HasLower(p)
    case Number => HasDigit(p)
    case Special => HasSymbol(p)
  }

  function CheckMessage(c: PasswordCheck): string
  {
    match c
    case Required => "Password is required."
    case MinLength => "Password must be at least 8 characters."
    case Uppercase => "Password must contain at least one uppercase letter."
    case Lowercase => "Password must contain at least one lowercase letter."
    case Number => "Password must contain at least one number."
    case Special => "Password must contain at least one special character."
  }

  /** The first check of `checks` that `p` fails, if any. */
  function FirstFailing(checks: seq<PasswordCheck>, p: string): Option<PasswordCheck>
  {
    if checks == [] then None
    else if !Passes(checks[0], p) then Some(checks[0])
    else FirstFailing(checks[1..], p)
  }

  /** A password is valid exactly when it is at least 8 characters long and
      holds an uppercase letter, a lowercase letter, a digit and a symbol. */
  lemma PasswordValidIff(p: string)
    ensures IsValidPassword(p).isValid <==>
      |p| >= MinPasswordLength && HasUpper(p) && HasLower(p) && HasDigit(p) && HasSymbol(p)
  {
  }

  /** The message is empty exactly when the password is valid. */
  lemma PasswordMessageEmptyIffValid(p: string)
    ensures IsValidPassword(p).message == "" <==> IsValidPassword(p).isValid
  {
  }

  /** Fail fast: when the first `k` checks pass and check `k` fails, the
      result is that check's message, whatever the later checks say. */
  lemma PasswordFailFast(p: string, k: nat)
    requires k < |PasswordChecks|
    requires forall j :: 0 <= j < k ==> Passes(PasswordChecks[j], p)
    requires !Passes(PasswordChecks[k], p)
    ensures IsValidPassword(p) == ValidationResult(false, CheckMessage(PasswordChecks[k]))
  {
    if k > 0 { assert Passes(PasswordChecks[0], p); }
    if k > 1 { assert Passes(PasswordChecks[1], p); }
    if k > 2 { assert Passes(PasswordChecks[2], p); }
    if k > 3 { assert Passes(PasswordChecks[3], p); }
    if k > 4 { assert Passes(PasswordChecks[4], p); }
  }

  /** The validator is the fail-fast evaluation of the check list. */
  lemma PasswordIsFirstFailing(p: string)
    ensures IsValidPassword(p) ==
      match FirstFailing(PasswordChecks, p)
      case None => ValidationResult(true, "")
      case Some(c) => ValidationResult(false, CheckMessage(c))
  {
    var c0 := PasswordChecks;
    var c1, c2, c3 := c0[1..], c0[2..], c0[3..];
    var c4, c5, c6 := c0[4..], c0[5..], c0[6..];
    assert c1[1..] == c2 && c2[1..] == c3 && c3[1..] == c4 && c4[1..] == c5 && c5[1..] == c6;
    assert c6 == [];
    assert FirstFailing(c5, p) == if !HasSymbol(p) then Some(Special) else None;
    assert FirstFailing(c4, p) == if !HasDigit(p) then Some(Number) else FirstFailing(c5, p);
    assert FirstFailing(c3, p) == if !HasLower(p) then Some(Lowercase) else FirstFailing(c4, p);
    assert FirstFailing(c2, p) == if !HasUpper(p) then Some(Uppercase) else FirstFailing(c3, p);
    assert FirstFailing(c1, p) ==
      if |p| < MinPasswordLength then Some(MinLength) else FirstFailing(c2, p);
  }

  /** The empty password is reported as missing, and every other password
      shorter than 8 as too short, whatever characters it holds. */
  lemma ShortPasswords(p: string)
    ensures p == "" ==> IsValidPassword(p) == ValidationResult(false, "Password is required.")
    ensures 0 < |p| < MinPasswordLength ==>
      IsValidPassword(p) == ValidationResult(false, "Password must be at least 8 characters.")
  {
  }

  lemma StrongPasswordExample()
    ensures IsValidPassword("Abc123!@").isValid
  {
    var p := "Abc123!@";
    assert HasUpper(p) && HasLower(p) && HasDigit(p) by {
      assert IsUpper(p[0]) && IsLower(p[1]) && IsDigit(p[3]);
    }
    assert HasSymbol(p) by {
      assert p[6] == '!' && '!' in PasswordSymbols;
    }
    PasswordValidIff(p);
  }

  lemma ShortPasswordExample()
    ensures IsValidPassword("abc") ==
      ValidationResult(false, "Password must be at least 8 characters.")
  {
  }
}
