/** The first step of the registration wizard: password strength, the e-mail
    pattern, the form-validity conjunction, the guards of the username and
    e-mail pre-checks, the tri-state password-match flag and the submit
    handler. The React state of the component is a class whose methods are
    the component's handlers and effects; the wizard store is shared. */
module RegisterStepOne {
  import opened Wrappers
  import opened RegisterStore
  import Strings

  // ---------------------------------------------------------------- characters

  predicate IsLower(c: char) { 'a' <= c <= 'z' }
  predicate IsUpper(c: char) { 'A' <= c <= 'Z' }
  /** `\d` without the unicode flag: the ASCII digits. */
  predicate IsDigit(c: char) { '0' <= c <= '9' }
  /** The class `[!@#$%^&*(),.?":{}|<>]`. */
  predicate IsSpecial(c: char) { c in "!@#$%^&*(),.?\":{}|<>" }

  /** `\s` of JavaScript regular expressions. */
  predicate IsJsWhitespace(c: char)
  {
    c == ' ' || c == '\t' || c == '\n' || c == '\r' || c == '\U{B}' || c == '\U{C}' ||
    c == '\U{A0}' || c == '\U{1680}' || ('\U{2000}' <= c <= '\U{200A}') ||
    c == '\U{2028}' || c == '\U{2029}' || c == '\U{202F}' || c == '\U{205F}' ||
    c == '\U{3000}' || c == '\U{FEFF}'
  }

  predicate HasLower(p: string) { exists i :: 0 <= i < |p| && IsLower(p[i]) }
  predicate HasUpper(p: string) { exists i :: 0 <= i < |p| && IsUpper(p[i]) }
  predicate HasDigit(p: string) { exists i :: 0 <= i < |p| && IsDigit(p[i]) }
  predicate HasSpecial(p: string) { exists i :: 0 <= i < |p| && IsSpecial(p[i]) }

  // ---------------------------------------------------------- password strength

  datatype Strength = Weak | Medium | Strong

  /** The five criteria, in the order the component lists them. */
  function Criteria(p: string): (cs: seq<bool>)
    ensures |cs| == 5
  {
    [HasLower(p), HasUpper(p), HasDigit(p), HasSpecial(p), |p| >= 8]
  }

  /** `bs.filter(Boolean).length`. */
  function CountTrue(bs: seq<bool>): (n: nat)
    ensures n <= |bs|
  {
    if |bs| == 0 then 0 else (if bs[0] then 1 else 0) + CountTrue(bs[1..])
  }

  /** Every flag is counted exactly when all of them hold. */
  lemma {:induction false} CountTrueAll(bs: seq<bool>)
    ensures CountTrue(bs) == |bs| <==> forall i :: 0 <= i < |bs| ==> bs[i]
  {
    if |bs| > 0 {
      CountTrueAll(bs[1..]);
      if !bs[0] {
        assert CountTrue(bs) <= |bs[1..]|;
      } else {
        assert forall i :: 1 <= i < |bs| ==> bs[i] == bs[1..][i - 1];
      }
    }
  }

  function Score(p: string): (n: nat)
    ensures n <= 5
  {
    CountTrue(Criteria(p))
  }

  /** `checkPasswordStrength`: nothing for an empty password, otherwise weak up
      to a score of 2, medium up to 4, strong at 5. */
  function PasswordStrength(p: string): (r: Option<Strength>)
    ensures r.None? <==> p == ""
    ensures r == Some(Weak) <==> p != "" && Score(p) <= 2
    ensures r == Some(Medium) <==> p != "" && 3 <= Score(p) <= 4
    ensures r == Some(Strong) <==> p != "" && Score(p) == 5
  {
    if p == "" then None
    else if Score(p) <= 2 then Some(Weak)
    else if Score(p) <= 4 then Some(Medium)
    else Some(Strong)
  }

  /** Strong means every criterion holds; in particular the password has at
      least eight characters. */
  lemma StrongMeansAllCriteria(p: string)
    ensures PasswordStrength(p) == Some(Strong) <==>
      HasLower(p) && HasUpper(p) && HasDigit(p) && HasSpecial(p) && |p| >= 8
    ensures PasswordStrength(p) == Some(Strong) ==> |p| >= 8
  {
    var cs := Criteria(p);
    CountTrueAll(cs);
    assert (forall i :: 0 <= i < |cs| ==> cs[i]) <==> cs[0] && cs[1] && cs[2] && cs[3] && cs[4];
  }

  // -------------------------------------------------------------------- e-mail

  /** No whitespace and no '@': the class `[^\s@]`. */
  predicate Plain(t: string)
  {
    forall k :: 0 <= k < |t| ==> !IsJsWhitespace(t[k]) && t[k] != '@'
  }

  /** `/^[^\s@]+@[^\s@]+\.[^\s@]+$/`: a non-empty plain local part, one '@',
      and a plain domain with a '.' that is neither its first nor its last
      character (the dot is itself plain, so any such dot will do). */
  predicate EmailMatches(s: string)
    ensures EmailMatches(s) ==> |s| >= 5 && s[0] != '@' && s[|s| - 1] != '@'
  {
    exists i, j :: 0 < i < j - 1 && j + 1 < |s| && s[i] == '@' && s[j] == '.' &&
      Plain(s[..i]) && Plain(s[i + 1..])
  }

  /** An address of the pattern has exactly one '@'. */
  lemma EmailHasOneAt(s: string)
    requires EmailMatches(s)
    ensures '@' in s
    ensures Strings.Count(s, '@') == 1
  {
    var i, j :| 0 < i < j - 1 && j + 1 < |s| && s[i] == '@' && s[j] == '.' &&
      Plain(s[..i]) && Plain(s[i + 1..]);
    assert s[i] in s;
    assert s == s[..i] + ['@'] + s[i + 1..];
    OneAtBetween(s[..i], s[i + 1..]);
  }

  /** Two plain parts joined by '@' hold exactly one '@'. */
  lemma OneAtBetween(a: string, c: string)
    requires Plain(a) && Plain(c)
    ensures Strings.Count(a + ['@'] + c, '@') == 1
  {
    NoAtNoCount(a);
    NoAtNoCount(c);
    CountSplit(a, ['@'] + c);
    assert a + ['@'] + c == a + (['@'] + c);
    CountSplit(['@'], c);
    assert Strings.Count(['@'], '@') == 1;
  }

  lemma {:induction false} NoAtNoCount(t: string)
    requires Plain(t)
    ensures Strings.Count(t, '@') == 0
  {
    if |t| > 0 {
      assert Plain(t[1..]) by {
        forall k | 0 <= k < |t[1..]| ensures !IsJsWhitespace(t[1..][k]) && t[1..][k] != '@' {
          assert t[1..][k] == t[k + 1];
        }
      }
      NoAtNoCount(t[1..]);
    }
  }

  lemma {:induction false} CountSplit(a: string, b: string)
    ensures Strings.Count(a + b, '@') == Strings.Count(a, '@') + Strings.Count(b, '@')
  {
    if |a| > 0 {
      assert (a + b)[1..] == a[1..] + b;
      CountSplit(a[1..], b);
    } else {
      assert a + b == b;
    }
  }

  // ------------------------------------------------------------ form validity

  /** `validateForm`'s conjunction: names given, the e-mail pattern, a username
      of at least 3 and a password of at least 8 characters, the confirmation
      equal to the password, and both names known to be available. */
  predicate FormIsValid(f: FormData, confirm: string, usernameAvailable: Option<bool>, emailAvailable: Option<bool>)
    ensures FormIsValid(f, confirm, usernameAvailable, emailAvailable) ==>
      UsernameGuard(f.username) && PasswordMatch(f.password, confirm) == Some(true) &&
      PasswordStrength(f.password).Some?
  {
    f.firstName != "" && f.lastName != "" && EmailMatches(f.email) &&
    |f.username| >= 3 && |f.password| >= 8 && f.password == confirm &&
    usernameAvailable == Some(true) && emailAvailable == Some(true)
  }

  /** The guard of `debouncedCheckUsername`: a username of at least 3 characters. */
  predicate UsernameGuard(username: string) { |username| >= 3 }

  /** The guard of `debouncedCheckEmail`: an address containing '@'. */
  predicate EmailGuard(email: string) { '@' in email }

  /** The effect of `formData.password` and `passwordConfirm`: unknown while
      both are empty, otherwise whether they are equal. */
  function PasswordMatch(password: string, confirm: string): (r: Option<bool>)
    ensures r.None? <==> password == "" && confirm == ""
    ensures r == Some(true) <==> (password != "" || confirm != "") && password == confirm
    ensures r == Some(false) <==> password != confirm
  {
    if password != "" || confirm != "" then Some(password == confirm) else None
  }

  /** A valid form has passed both pre-check guards and shows a matching
      confirmation. */
  lemma ValidFormPassedGuards(f: FormData, confirm: string, u: Option<bool>, e: Option<bool>)
    requires FormIsValid(f, confirm, u, e)
    ensures UsernameGuard(f.username) && EmailGuard(f.email)
    ensures PasswordMatch(f.password, confirm) == Some(true)
  {
    EmailHasOneAt(f.email);
  }

  /** Availability left unknown (a guard that failed, a check in flight or a
      lookup error) can never make the form valid. */
  lemma UnknownAvailabilityBlocks(f: FormData, confirm: string, u: Option<bool>, e: Option<bool>)
    requires u.None? || e.None?
    ensures !FormIsValid(f, confirm, u, e)
  {
  }

  /** What `checkDuplicate` gave the component: an error, or the lookup. */
  datatype Lookup = LookupFailed | LookedUp(isDuplicate: bool)

  /** The availability a finished check records. */
  function Availability(l: Lookup): (a: Option<bool>)
    ensures a.Some? <==> l.LookedUp?
    ensures a == Some(true) <==> l == LookedUp(false)
  {
    if l.LookedUp? then Some(!l.isDuplicate) else None
  }

  // ------------------------------------------------------------ the component

  class StepOne {
    const store: RegisterStore
    var passwordConfirm: string
    var passwordMatch: Option<bool>
    var passwordStrength: Option<Strength>
    var formSubmitted: bool
    /** The `formIsValid` ref. */
    var formIsValid: bool

    /** The component as first rendered over the shared store. */
    constructor (store: RegisterStore)
      ensures this.store == store
      ensures passwordConfirm == "" && passwordMatch == None && passwordStrength == None
      ensures !formSubmitted && !formIsValid
    {
      this.store := store;
      passwordConfirm, passwordMatch, passwordStrength := "", None, None;
      formSubmitted, formIsValid := false, false;
    }

    /** `validateForm`: the conjunction is written to the ref and to the
        store's `isFirstStepValid` before it is returned. */
    method ValidateForm() returns (valid: bool)
      modifies this, store
      ensures valid == FormIsValid(old(store.formData), old(passwordConfirm),
                                   old(store.isUsernameAvailable), old(store.isEmailAvailable))
      ensures formIsValid == valid
      ensures store.formData == old(store.formData).(isFirstStepValid := valid)
      ensures store.CheckFlags() == old(store.CheckFlags())
      ensures passwordConfirm == old(passwordConfirm) && passwordMatch == old(passwordMatch)
      ensures passwordStrength == old(passwordStrength) && formSubmitted == old(formSubmitted)
    {
      valid := FormIsValid(store.formData, passwordConfirm, store.isUsernameAvailable, store.isEmailAvailable);
      formIsValid := valid;
      store.SetFirstStepValid(valid);
    }

    /** `handleSubmit`: marks the form submitted and advances the wizard
        exactly when the form is valid. */
    method HandleSubmit() returns (advanced: bool)
      modifies this, store
      ensures formSubmitted
      ensures advanced == FormIsValid(old(store.formData), old(passwordConfirm),
                                      old(store.isUsernameAvailable), old(store.isEmailAvailable))
      ensures formIsValid == advanced
      ensures advanced ==> store.formData == NextStep(old(store.formData).(isFirstStepValid := true))
      ensures !advanced ==> store.formData == old(store.formData).(isFirstStepValid := false)
      ensures store.formData.currentStep == old(store.formData.currentStep) + (if advanced then 1 else 0)
      ensures store.CheckFlags() == old(store.CheckFlags())
      ensures passwordConfirm == old(passwordConfirm) && passwordMatch == old(passwordMatch)
      ensures passwordStrength == old(passwordStrength)
    {
      formSubmitted := true;
      advanced := ValidateForm();
      if advanced {
        store.NextStepAction();
      }
    }

    /** The effect that re-validates on every change once the form was submitted. */
    method RevalidateEffect()
      modifies this, store
      ensures formSubmitted ==> formIsValid == FormIsValid(old(store.formData), passwordConfirm,
                                                           store.isUsernameAvailable, store.isEmailAvailable)
      ensures formSubmitted ==> store.formData == old(store.formData).(isFirstStepValid := formIsValid)
      ensures !formSubmitted ==> formIsValid == old(formIsValid) && store.formData == old(store.formData)
      ensures store.CheckFlags() == old(store.CheckFlags())
      ensures passwordConfirm == old(passwordConfirm) && formSubmitted == old(formSubmitted)
      ensures passwordMatch == old(passwordMatch) && passwordStrength == old(passwordStrength)
    {
      if formSubmitted {
        var _ := ValidateForm();
      }
    }

    /** The confirmation field's `onChange`. */
    method SetPasswordConfirm(c: string)
      modifies this
      ensures passwordConfirm == c
      ensures passwordMatch == old(passwordMatch) && passwordStrength == old(passwordStrength)
      ensures formSubmitted == old(formSubmitted) && formIsValid == old(formIsValid)
    {
      passwordConfirm := c;
    }

    /** The password-match effect. */
    method PasswordMatchEffect()
      modifies this
      ensures passwordMatch == PasswordMatch(store.formData.password, passwordConfirm)
      ensures passwordConfirm == old(passwordConfirm) && passwordStrength == old(passwordStrength)
      ensures formSubmitted == old(formSubmitted) && formIsValid == old(formIsValid)
    {
      if store.formData.password != "" || passwordConfirm != "" {
        passwordMatch := Some(store.formData.password == passwordConfirm);
      } else {
        passwordMatch := None;
      }
    }

    /** The effect that runs `checkPasswordStrength` on the password. */
    method StrengthEffect()
      modifies this
      ensures passwordStrength == PasswordStrength(store.formData.password)
      ensures passwordConfirm == old(passwordConfirm) && passwordMatch == old(passwordMatch)
      ensures formSubmitted == old(formSubmitted) && formIsValid == old(formIsValid)
    {
      passwordStrength := PasswordStrength(store.formData.password);
    }

    /** The start of `debouncedCheckUsername`: a username that fails the guard
        records (false, null) and makes no call; otherwise the check is marked
        in progress and the lookup is made (`queried`). */
    method BeginUsernameCheck(username: string) returns (queried: bool)
      modifies store
      ensures queried <==> UsernameGuard(username)
      ensures store.isCheckingUsername == queried && store.isUsernameAvailable == None
      ensures store.isCheckingEmail == old(store.isCheckingEmail) && store.isEmailAvailable == old(store.isEmailAvailable)
      ensures store.formData == old(store.formData)
    {
      if username == "" || |username| < 3 {
        store.SetUsernameCheckStatus(false, None);
        queried := false;
      } else {
        store.SetUsernameCheckStatus(true, None);
        queried := true;
      }
    }

    /** The end of `debouncedCheckUsername`: the lookup's answer, or unknown
        after an error. */
    method EndUsernameCheck(lookup: Lookup)
      modifies store
      ensures !store.isCheckingUsername && store.isUsernameAvailable == Availability(lookup)
      ensures store.isCheckingEmail == old(store.isCheckingEmail) && store.isEmailAvailable == old(store.isEmailAvailable)
      ensures store.formData == old(store.formData)
    {
      match lookup
      case LookedUp(isDuplicate) => store.SetUsernameCheckStatus(false, Some(!isDuplicate));
      case LookupFailed => store.SetUsernameCheckStatus(false, None);
    }

    /** The start of `debouncedCheckEmail`, guarded by the presence of '@'. */
    method BeginEmailCheck(email: string) returns (queried: bool)
      modifies store
      ensures queried <==> EmailGuard(email)
      ensures store.isCheckingEmail == queried && store.isEmailAvailable == None
      ensures store.isCheckingUsername == old(store.isCheckingUsername) && store.isUsernameAvailable == old(store.isUsernameAvailable)
      ensures store.formData == old(store.formData)
    {
      if email == "" || '@' !in email {
        store.SetEmailCheckStatus(false, None);
        queried := false;
      } else {
        store.SetEmailCheckStatus(true, None);
        queried := true;
      }
    }

    /** The end of `debouncedCheckEmail`. */
    method EndEmailCheck(lookup: Lookup)
      modifies store
      ensures !store.isCheckingEmail && store.isEmailAvailable == Availability(lookup)
      ensures store.isCheckingUsername == old(store.isCheckingUsername) && store.isUsernameAvailable == old(store.isUsernameAvailable)
      ensures store.formData == old(store.formData)
    {
      match lookup
      case LookedUp(isDuplicate) => store.SetEmailCheckStatus(false, Some(!isDuplicate));
      case LookupFailed => store.SetEmailCheckStatus(false, None);
    }
  }
}
