/** The form validators: per-field predicates and the per-form error
    cascades of the login and register screens. */
module Validation {
  import opened Js

  /** A character allowed by the class `[^\s@]`. */
  predicate EmailChar(c: char) {
    !IsWhitespace(c) && c != '@'
  }

  /** One or more characters of `[^\s@]`. */
  ghost predicate EmailRun(t: string) {
    |t| > 0 && forall k :: 0 <= k < |t| ==> EmailChar(t[k])
  }

  /** The language of `^[^\s@]+@[^\s@]+\.[^\s@]+$`: a run, an `@` at index
      `at`, a run, a `.` at index `dot`, a run. */
  ghost predicate MatchesEmailRegex(s: string) {
    exists at, dot ::
      && 0 < at && at + 1 < dot && dot + 1 < |s|
      && s[at] == '@' && s[dot] == '.'
      && EmailRun(s[..at]) && EmailRun(s[at + 1..dot]) && EmailRun(s[dot + 1..])
  }

  /** Some `.` of the domain part is neither its first nor its last character. */
  predicate InnerDot(d: string) {
    exists k :: 0 < k < |d| - 1 && d[k] == '.'
  }

  /** `validateEmail`, decided structurally: no whitespace, exactly one `@`,
      something before it, and a `.` strictly inside the part after it. */
  predicate ValidateEmail(s: string): (r: bool)
    ensures r ==> |s| >= 5
    ensures r ==> exists at :: 0 < at < |s| && s[at] == '@' && OnlyAt(s, at)
  {
    var ok :=
      && (forall k :: 0 <= k < |s| ==> !IsWhitespace(s[k]))
      && match IndexOf(s, '@')
         case None => false
         case Some(at) => at > 0 && '@' !in s[at + 1..] && InnerDot(s[at + 1..]);
    assert ok ==> |s| >= 5 && OnlyAt(s, IndexOf(s, '@').value) by {
      if ok {
        var at := IndexOf(s, '@').value;
        var d := s[at + 1..];
        var k :| 0 < k < |d| - 1 && d[k] == '.';
        assert forall j :: 0 <= j < at ==> s[..at][j] == s[j];
        assert forall j :: at < j < |s| ==> d[j - at - 1] == s[j];
      }
    }
    ok
  }

  /** The only `@` of `s` is the one at index `at`. */
  predicate OnlyAt(s: string, at: nat) {
    forall j :: 0 <= j < |s| && s[j] == '@' ==> j == at
  }

  /** The structural check accepts exactly the strings the regular
      expression of `validateEmail` matches. */
  lemma ValidateEmailIsRegex(s: string)
    ensures ValidateEmail(s) <==> MatchesEmailRegex(s)
  {
    if ValidateEmail(s) {
      ValidateEmailSound(s);
    }
    if MatchesEmailRegex(s) {
      ValidateEmailComplete(s);
    }
  }

  /** Every string the structural check accepts matches the expression. */
  lemma ValidateEmailSound(s: string)
    requires ValidateEmail(s)
    ensures MatchesEmailRegex(s)
  {
    var at := IndexOf(s, '@').value;
    var d := s[at + 1..];
    var k :| 0 < k < |d| - 1 && d[k] == '.';
    var dot := at + 1 + k;
    assert s[dot] == d[k];
    assert EmailRun(s[..at]) by {
      forall j | 0 <= j < at ensures EmailChar(s[..at][j]) {
        assert s[..at][j] == s[j];
        assert s[j] in s[..at];
      }
    }
    var mid, tld := s[at + 1..dot], s[dot + 1..];
    assert EmailRun(mid) by {
      forall j | 0 <= j < |mid| ensures EmailChar(mid[j]) {
        assert mid[j] == d[j];
        assert d[j] in d;
      }
    }
    assert EmailRun(tld) by {
      forall j | 0 <= j < |tld| ensures EmailChar(tld[j]) {
        assert tld[j] == d[k + 1 + j];
        assert d[k + 1 + j] in d;
      }
    }
  }

  /** Every string the expression matches passes the structural check. */
  lemma ValidateEmailComplete(s: string)
    requires MatchesEmailRegex(s)
    ensures ValidateEmail(s)
  {
    var at, dot :|
      && 0 < at && at + 1 < dot && dot + 1 < |s|
      && s[at] == '@' && s[dot] == '.'
      && EmailRun(s[..at]) && EmailRun(s[at + 1..dot]) && EmailRun(s[dot + 1..]);
    forall j | 0 <= j < |s| && j != at
      ensures EmailChar(s[j])
    {
      if j < at {
        assert s[j] == s[..at][j];
      } else if j < dot {
        assert s[j] == s[at + 1..dot][j - (at + 1)];
      } else if j == dot {
      } else {
        assert s[j] == s[dot + 1..][j - (dot + 1)];
      }
    }
    assert '@' !in s[..at] by {
      forall j | 0 <= j < at ensures s[..at][j] != '@' {
        assert s[..at][j] == s[j];
      }
    }
    var found := IndexOf(s, '@');
    assert found == Some(at);
    var d := s[at + 1..];
    assert '@' !in d by {
      forall j | 0 <= j < |d| ensures d[j] != '@' {
        assert d[j] == s[at + 1 + j];
      }
    }
    assert d[dot - (at + 1)] == '.';
  }

  /** `validatePassword`: at least six characters. */
  predicate ValidatePassword(p: string) {
    |p| >= 6
  }

  /** `validateUsername`: at least three characters. */
  predicate ValidateUsername(u: string) {
    |u| >= 3
  }

  /** `validateFullName`: at least two characters once trimmed. */
  predicate ValidateFullName(n: string) {
    |Trim(n)| >= 2
  }

  /** A full name passes exactly when it has two non-whitespace characters
      at different positions: `trim` keeps everything from the first to the
      last of them. */
  lemma FullNameIffTwoVisible(n: string)
    ensures ValidateFullName(n) <==>
      exists i, j :: 0 <= i < j < |n| && !IsWhitespace(n[i]) && !IsWhitespace(n[j])
  {
    TrimSpan(n);
    var a := |n| - |TrimStart(n)|;
    var t := Trim(n);
    if |t| >= 2 {
      assert t[0] == n[a] && t[|t| - 1] == n[a + |t| - 1];
    }
  }

  /** The password and username checks count whitespace like any other
      character; the full-name check does not. */
  lemma LengthChecksCountWhitespace(w: string)
    requires AllWhitespace(w)
    ensures |w| >= 6 ==> ValidatePassword(w)
    ensures |w| >= 3 ==> ValidateUsername(w)
    ensures !ValidateFullName(w)
  {
    TrimEmptyIff(w);
  }

  const EmailRequired := "Email is required"
  const EmailInvalid := "Invalid email format"
  const PasswordRequired := "Password is required"
  const PasswordTooShort := "Password must be at least 6 characters"
  const FullNameRequired := "Full name is required"
  const FullNameTooShort := "Full name must be at least 2 characters"
  const UsernameRequired := "Username is required"
  const UsernameTooShort := "Username must be at least 3 characters"
  const ConfirmRequired := "Please confirm your password"
  const ConfirmMismatch := "Passwords do not match"

  /** The error object of a form: one optional message per field. */
  datatype ValidationErrors = ValidationErrors(
    email: Option<string>,
    password: Option<string>,
    username: Option<string>,
    fullName: Option<string>,
    confirmPassword: Option<string>)
  {
    /** `Object.keys(errors).length === 0` */
    predicate IsEmpty() {
      email.None? && password.None? && username.None? && fullName.None? && confirmPassword.None?
    }
  }

  /** The email field's check, shared by both forms. */
  function EmailError(email: string): (r: Option<string>)
    ensures r == Some(EmailRequired) <==> email == ""
    ensures r == Some(EmailInvalid) <==> email != "" && !MatchesEmailRegex(email)
    ensures r.None? <==> email != "" && MatchesEmailRegex(email)
  {
    ValidateEmailIsRegex(email);
    if email == "" then Some(EmailRequired)
    else if !ValidateEmail(email) then Some(EmailInvalid)
    else None
  }

  /** The password field's check, shared by both forms. */
  function PasswordError(password: string): (r: Option<string>)
    ensures r == Some(PasswordRequired) <==> password == ""
    ensures r == Some(PasswordTooShort) <==> 0 < |password| < 6
    ensures r.None? <==> |password| >= 6
  {
    if password == "" then Some(PasswordRequired)
    else if !ValidatePassword(password) then Some(PasswordTooShort)
    else None
  }

  /** The full-name field's check: emptiness is decided before trimming. */
  function FullNameError(fullName: string): (r: Option<string>)
    ensures r == Some(FullNameRequired) <==> fullName == ""
    ensures r == Some(FullNameTooShort) <==> fullName != "" && |Trim(fullName)| < 2
    ensures r.None? <==> |Trim(fullName)| >= 2
  {
    if fullName == "" then Some(FullNameRequired)
    else if !ValidateFullName(fullName) then Some(FullNameTooShort)
    else None
  }

  /** The username field's check. */
  function UsernameError(username: string): (r: Option<string>)
    ensures r == Some(UsernameRequired) <==> username == ""
    ensures r == Some(UsernameTooShort) <==> 0 < |username| < 3
    ensures r.None? <==> |username| >= 3
  {
    if username == "" then Some(UsernameRequired)
    else if !ValidateUsername(username) then Some(UsernameTooShort)
    else None
  }

  /** The confirmation field's check, against the password as typed. */
  function ConfirmError(password: string, confirmPassword: string): (r: Option<string>)
    ensures r == Some(ConfirmRequired) <==> confirmPassword == ""
    ensures r == Some(ConfirmMismatch) <==> confirmPassword != "" && confirmPassword != password
    ensures r.None? <==> confirmPassword != "" && confirmPassword == password
  {
    if confirmPassword == "" then Some(ConfirmRequired)
    else if password != confirmPassword then Some(ConfirmMismatch)
    else None
  }

  /** `validateLoginForm`: the email and password checks, each looking only at
      its own field; the other keys are never set. */
  function ValidateLoginForm(email: string, password: string): (r: ValidationErrors)
    ensures r.email == Some(EmailRequired) <==> email == ""
    ensures r.email == Some(EmailInvalid) <==> email != "" && !MatchesEmailRegex(email)
    ensures r.email.None? <==> email != "" && MatchesEmailRegex(email)
    ensures r.password == Some(PasswordRequired) <==> password == ""
    ensures r.password == Some(PasswordTooShort) <==> 0 < |password| < 6
    ensures r.password.None? <==> |password| >= 6
    ensures r.username.None? && r.fullName.None? && r.confirmPassword.None?
    ensures r.IsEmpty() <==> email != "" && MatchesEmailRegex(email) && |password| >= 6
  {
    ValidationErrors(EmailError(email), PasswordError(password), None, None, None)
  }

  /** `validateRegisterForm`: five independent field checks. A whitespace-only
      full name is not "required" but "too short"; the confirmation is judged
      only against the password, whatever the password's own validity. */
  function ValidateRegisterForm(fullName: string, username: string, email: string,
                                password: string, confirmPassword: string): (r: ValidationErrors)
    ensures r.fullName == Some(FullNameRequired) <==> fullName == ""
    ensures r.fullName == Some(FullNameTooShort) <==> fullName != "" && |Trim(fullName)| < 2
    ensures r.username == Some(UsernameRequired) <==> username == ""
    ensures r.username == Some(UsernameTooShort) <==> 0 < |username| < 3
    ensures r.email == Some(EmailRequired) <==> email == ""
    ensures r.email == Some(EmailInvalid) <==> email != "" && !MatchesEmailRegex(email)
    ensures r.password == Some(PasswordRequired) <==> password == ""
    ensures r.password == Some(PasswordTooShort) <==> 0 < |password| < 6
    ensures r.confirmPassword == Some(ConfirmRequired) <==> confirmPassword == ""
    ensures r.confirmPassword == Some(ConfirmMismatch) <==> confirmPassword != "" && confirmPassword != password
    ensures r.IsEmpty() <==>
      && |Trim(fullName)| >= 2
      && |username| >= 3
      && email != "" && MatchesEmailRegex(email)
      && |password| >= 6
      && confirmPassword == password
  {
    ValidationErrors(EmailError(email), PasswordError(password), UsernameError(username),
                     FullNameError(fullName), ConfirmError(password, confirmPassword))
  }

  /** A non-empty full name made only of whitespace gets the length error,
      never the "required" one. */
  lemma BlankFullNameIsTooShort(fullName: string, username: string, email: string,
                                password: string, confirmPassword: string)
    requires fullName != "" && AllWhitespace(fullName)
    ensures ValidateRegisterForm(fullName, username, email, password, confirmPassword).fullName
            == Some(FullNameTooShort)
  {
    TrimEmptyIff(fullName);
  }

  /** Each register-form key is decided by its own field alone. */
  lemma RegisterFieldsIndependent(
    fullName: string, username: string, email: string, password: string, confirmPassword: string,
    fullName': string, username': string, email': string, password': string, confirmPassword': string)
    ensures var r := ValidateRegisterForm(fullName, username, email, password, confirmPassword);
      var r' := ValidateRegisterForm(fullName', username', email', password', confirmPassword');
      && (fullName == fullName' ==> r.fullName == r'.fullName)
      && (username == username' ==> r.username == r'.username)
      && (email == email' ==> r.email == r'.email)
      && (password == password' ==> r.password == r'.password)
      && (password == password' && confirmPassword == confirmPassword' ==>
            r.confirmPassword == r'.confirmPassword)
  {
  }
}
