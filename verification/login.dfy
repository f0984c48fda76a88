/** The decision procedure of the login screen's `handleLogin`: blank-field
    checks, identifier normalisation, lookup by email key with a fallback
    scan by username, and the exact password comparison. */
module Login {
  import opened Js
  import opened Types
  import opened Storage

  /** A record's username, lower-cased, equals the normalised identifier
      (`record.username?.toLowerCase() === inputLower`). */
  predicate UsernameMatches(account: Account, needle: string) {
    account.username.Some? && Lower(account.username.value) == needle
  }

  /** The `for…in` scan with `break`: the position of the first record, in
      insertion order, whose username matches. */
  function FirstUsernameMatch(accounts: Accounts, needle: string): (r: Option<nat>)
    ensures r.Some? ==>
      && r.value < |accounts|
      && UsernameMatches(accounts[r.value].1, needle)
      && forall j :: 0 <= j < r.value ==> !UsernameMatches(accounts[j].1, needle)
    ensures r.None? ==> forall j :: 0 <= j < |accounts| ==> !UsernameMatches(accounts[j].1, needle)
    decreases |accounts|
  {
    if |accounts| == 0 then None
    else if UsernameMatches(accounts[0].1, needle) then Some(0)
    else match FirstUsernameMatch(accounts[1..], needle)
      case None => None
      case Some(i) => Some(i + 1)
  }

  /** The record the login looks at: the one under the identifier as an
      email key when there is one, otherwise the first username match. */
  function FindAccount(accounts: Accounts, needle: string): (r: Option<Account>)
    ensures Lookup(accounts, needle).Some? ==> r == Lookup(accounts, needle)
    ensures Lookup(accounts, needle).None? ==>
      match FirstUsernameMatch(accounts, needle)
      case None => r.None?
      case Some(i) => r == Some(accounts[i].1)
  {
    match Lookup(accounts, needle)
    case Some(account) => Some(account)
    case None =>
      match FirstUsernameMatch(accounts, needle)
      case None => None
      case Some(i) => Some(accounts[i].1)
  }

  datatype LoginOutcome =
    | MissingIdentifier
    | MissingPassword
    | NoAccount
    | WrongPassword
    | LoggedIn(user: User)

  /** The message the screen shows for each failed outcome. */
  function ErrorMessage(o: LoginOutcome): string {
    match o
    case MissingIdentifier => "Please enter your email or username"
    case MissingPassword => "Please enter your password"
    case NoAccount => "No account found with this email or username. Please register first."
    case WrongPassword => "Incorrect password. Please try again."
    case LoggedIn(_) => ""
  }

  datatype LoginResult = LoginResult(outcome: LoginOutcome, store: Store)

  /** The normalised identifier: `toLowerCase()` then `trim()`. It is
      empty exactly for a blank identifier, has no whitespace at either end
      and no upper-case ASCII letter. */
  function Normalise(identifier: string): (r: string)
    ensures |r| <= |identifier|
    ensures r == "" <==> AllWhitespace(identifier)
    ensures r != "" ==> !IsWhitespace(r[0]) && !IsWhitespace(r[|r| - 1])
    ensures NoUpper(r)
  {
    TrimEmptyIff(Lower(identifier));
    LowerKeepsWhitespace(identifier);
    LowerHasNoUpper(identifier);
    TrimKeepsNoUpper(Lower(identifier));
    Trim(Lower(identifier))
  }

  /** The part of `handleLogin` after the blank checks: find the record for
      the normalised identifier `needle` and compare the password exactly.
      `fallbackId` stands for the clock-derived `'user-' + Date.now()` used
      when the record has no id. On success the session user is persisted;
      otherwise nothing is. */
  function CheckCredentials(st: Store, needle: string, password: string, fallbackId: string): (r: LoginResult)
    ensures var found := FindAccount(GetRegisteredUsers(st), needle);
      && (r.outcome == NoAccount <==> found.None?)
      && (r.outcome == WrongPassword <==> found.Some? && found.value.password != Some(password))
      && (r.outcome.LoggedIn? <==> found.Some? && found.value.password == Some(password))
    ensures r.outcome.LoggedIn? ==>
      var found := FindAccount(GetRegisteredUsers(st), needle).value;
      && r.outcome.user.username == found.username
      && r.outcome.user.email == found.email
      && r.outcome.user.fullName == found.fullName
      && r.outcome.user.id == (if Truthy(found.id) then found.id.value else fallbackId)
      && GetUser(r.store) == Some(r.outcome.user)
    ensures !r.outcome.LoggedIn? ==> r.store == st
    ensures forall k :: k != UserKey ==> (k in r.store <==> k in st) && (k in st ==> r.store[k] == st[k])
  {
    match FindAccount(GetRegisteredUsers(st), needle)
    case None => LoginResult(NoAccount, st)
    case Some(found) =>
      if found.password != Some(password) then LoginResult(WrongPassword, st)
      else
        var user := User(
          if Truthy(found.id) then found.id.value else fallbackId,
          found.username, found.email, found.fullName);
        LoginResult(LoggedIn(user), SaveUser(st, user))
  }

  /** `handleLogin` against store `st`: a blank identifier is refused first,
      a blank password second, and only then is the store consulted. */
  function HandleLogin(st: Store, identifier: string, password: string, fallbackId: string): (r: LoginResult)
    ensures Trim(identifier) == "" ==> r.outcome == MissingIdentifier && r.store == st
    ensures Trim(identifier) != "" && Trim(password) == "" ==> r.outcome == MissingPassword && r.store == st
    ensures Trim(identifier) != "" && Trim(password) != "" ==>
      var found := FindAccount(GetRegisteredUsers(st), Normalise(identifier));
      && (r.outcome == NoAccount <==> found.None?)
      && (r.outcome == WrongPassword <==> found.Some? && found.value.password != Some(password))
      && (r.outcome.LoggedIn? <==> found.Some? && found.value.password == Some(password))
    ensures r.outcome.LoggedIn? ==>
      var found := FindAccount(GetRegisteredUsers(st), Normalise(identifier)).value;
      && r.outcome.user.username == found.username
      && r.outcome.user.email == found.email
      && r.outcome.user.fullName == found.fullName
      && r.outcome.user.id == (if Truthy(found.id) then found.id.value else fallbackId)
      && GetUser(r.store) == Some(r.outcome.user)
    ensures !r.outcome.LoggedIn? ==> r.store == st
    ensures forall k :: k != UserKey ==> (k in r.store <==> k in st) && (k in st ==> r.store[k] == st[k])
  {
    if Trim(identifier) == "" then LoginResult(MissingIdentifier, st)
    else if Trim(password) == "" then LoginResult(MissingPassword, st)
    else CheckCredentials(st, Normalise(identifier), password, fallbackId)
  }

  /** A direct hit on the email key wins over any username match, even one
      that appears earlier in insertion order. */
  lemma DirectHitWins(accounts: Accounts, needle: string, i: nat)
    requires i < |accounts| && accounts[i].0 == needle
    ensures FindAccount(accounts, needle) == Lookup(accounts, needle)
    ensures FindAccount(accounts, needle).Some?
  {
    assert needle in Keys(accounts) by {
      assert Keys(accounts)[i] == needle;
    }
  }

  /** Lower-casing never turns whitespace into non-whitespace or back, so
      the blank check on the raw identifier and on its normalised form agree. */
  lemma BlankIffNormalisedEmpty(identifier: string)
    ensures Trim(identifier) == "" <==> Normalise(identifier) == ""
  {
    TrimEmptyIff(identifier);
    TrimEmptyIff(Lower(identifier));
    LowerKeepsWhitespace(identifier);
  }

  /** Logging in with any casing of a registered email, with any surrounding
      whitespace, reaches that email's record: the outcome is never "no
      account", and it is success exactly when the password matches. */
  lemma EmailLoginIgnoresCaseAndSpaces(st: Store, identifier: string, password: string, fallbackId: string)
    requires Lookup(GetRegisteredUsers(st), Normalise(identifier)).Some?
    requires Normalise(identifier) != ""
    requires Trim(password) != ""
    ensures var r := HandleLogin(st, identifier, password, fallbackId);
      var account := Lookup(GetRegisteredUsers(st), Normalise(identifier)).value;
      && r.outcome != NoAccount
      && (r.outcome.LoggedIn? <==> account.password == Some(password))
  {
    BlankIffNormalisedEmpty(identifier);
  }

  /** After `saveRegisteredUser` stores a record without a password of its
      own, logging in with any casing of that email, with surrounding
      whitespace or not, succeeds with the saved password and is refused as
      a wrong password with any other non-blank one. */
  lemma LoginAfterSave(st: Store, email: string, saved: string, userData: Account,
                       identifier: string, password: string, fallbackId: string)
    requires userData.password.None?
    requires Normalise(identifier) == Lower(email) && Lower(email) != ""
    requires Trim(password) != ""
    ensures var r := HandleLogin(SaveRegisteredUser(st, email, saved, userData), identifier, password, fallbackId);
      && (password == saved ==> r.outcome.LoggedIn? && r.outcome.user.email == userData.email)
      && (password != saved ==> r.outcome == WrongPassword)
  {
    var st' := SaveRegisteredUser(st, email, saved, userData);
    var account := Spread(saved, userData);
    assert account.password == Some(saved) && account.email == userData.email;
    assert FindAccount(GetRegisteredUsers(st'), Normalise(identifier)) == Some(account);
    BlankIffNormalisedEmpty(identifier);
  }

  /** The password is compared untrimmed: the right password followed by
      whitespace passes the blank check and is then refused as wrong. */
  lemma PasswordComparedUntrimmed(st: Store, identifier: string, password: string, w: string, fallbackId: string)
    requires Trim(identifier) != ""
    requires FindAccount(GetRegisteredUsers(st), Normalise(identifier)).Some?
    requires FindAccount(GetRegisteredUsers(st), Normalise(identifier)).value.password == Some(password)
    requires Trim(password) != ""
    requires w != [] && AllWhitespace(w)
    ensures HandleLogin(st, identifier, password + w, fallbackId).outcome == WrongPassword
  {
    TrimEmptyIff(password);
    TrimEmptyIff(password + w);
    var k :| 0 <= k < |password| && !IsWhitespace(password[k]);
    assert (password + w)[k] == password[k];
    assert |password + w| != |password|;
  }

  /** Whitespace typed after an identifier changes nothing: the login
      behaves exactly as for the identifier alone. */
  lemma TrailingSpacesIgnored(st: Store, identifier: string, w: string, password: string, fallbackId: string)
    requires AllWhitespace(w)
    ensures HandleLogin(st, identifier + w, password, fallbackId) == HandleLogin(st, identifier, password, fallbackId)
  {
    NormaliseDropsTrailing(identifier, w);
  }

  /** Trailing whitespace changes neither the blank check nor the
      normalised identifier. */
  lemma NormaliseDropsTrailing(identifier: string, w: string)
    requires AllWhitespace(w)
    ensures Trim(identifier + w) == Trim(identifier)
    ensures Normalise(identifier + w) == Normalise(identifier)
  {
    LowerAppend(identifier, w);
    LowerKeepsWhitespace(w);
    TrimAppendWhitespace(identifier, w);
    TrimAppendWhitespace(Lower(identifier), Lower(w));
  }

  /** When several records share a username (up to case) and no record is
      keyed by the identifier, the one inserted first is the one checked. */
  lemma UsernameFallbackTakesFirst(accounts: Accounts, needle: string, i: nat, j: nat)
    requires i < j < |accounts|
    requires needle !in Keys(accounts)
    requires UsernameMatches(accounts[i].1, needle) && UsernameMatches(accounts[j].1, needle)
    requires forall k :: 0 <= k < i ==> !UsernameMatches(accounts[k].1, needle)
    ensures FindAccount(accounts, needle) == Some(accounts[i].1)
  {
  }
}
