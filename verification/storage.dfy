/** The storage service over an abstract key-value store. Each logical slot
    lives under its own key. A slot holds the document that `JSON.stringify`
    would have written; reading it back (`JSON.parse`) gives the same
    document, so the serialisation is the identity here. */
module Storage {
  import opened Js
  import opened Types

  const UserKey := "@sportify_user"
  const FavouritesKey := "@sportify_favourites"
  const ThemeKey := "@sportify_theme"
  const RegisteredUsersKey := "@sportify_registered_users"

  /** A stored credential record `{ password, ...userData }`. The spread
      source is arbitrary, so every field may be missing. */
  datatype Account = Account(
    password: Option<string>,
    username: Option<string>,
    email: Option<string>,
    fullName: Option<string>,
    id: Option<string>)

  /** The registered-users object: its own keys in insertion order, which is
      the order `for…in` visits them and `JSON.stringify` writes them. */
  type Accounts = seq<(string, Account)>

  /** What a slot of the store holds. */
  datatype Stored =
    | Text(text: string)
    | UserDoc(user: User)
    | ItemsDoc(items: seq<Item>)
    | AccountsDoc(accounts: Accounts)

  type Store = map<string, Stored>

  /** The keys of an accounts object, in order. */
  function Keys(accounts: Accounts): (r: seq<string>)
    ensures |r| == |accounts|
    ensures forall k :: 0 <= k < |r| ==> r[k] == accounts[k].0
    decreases |accounts|
  {
    if |accounts| == 0 then [] else [accounts[0].0] + Keys(accounts[1..])
  }

  /** A JavaScript object never holds the same own key twice. */
  ghost predicate KeysUnique(accounts: Accounts) {
    forall i, j :: 0 <= i < j < |accounts| ==> accounts[i].0 != accounts[j].0
  }

  /** `users[key]`: the record stored under `key`, if any. */
  function Lookup(accounts: Accounts, key: string): (r: Option<Account>)
    ensures r.None? <==> key !in Keys(accounts)
    ensures r.Some? ==> exists k :: 0 <= k < |accounts| && accounts[k] == (key, r.value)
    decreases |accounts|
  {
    if |accounts| == 0 then None
    else if accounts[0].0 == key then Some(accounts[0].1)
    else
      var r := Lookup(accounts[1..], key);
      assert r.Some? ==> exists k :: 0 <= k < |accounts| && accounts[k] == (key, r.value) by {
        if r.Some? {
          var k :| 0 <= k < |accounts[1..]| && accounts[1..][k] == (key, r.value);
          assert accounts[k + 1] == (key, r.value);
        }
      }
      r
  }

  /** `users[key] = value`: an existing key keeps its position and gets the
      new value; a new key is appended. */
  function Put(accounts: Accounts, key: string, value: Account): (r: Accounts)
    ensures Lookup(r, key) == Some(value)
    ensures forall other :: other != key ==> Lookup(r, other) == Lookup(accounts, other)
    decreases |accounts|
  {
    if |accounts| == 0 then [(key, value)]
    else if accounts[0].0 == key then [(key, value)] + accounts[1..]
    else
      var rest := Put(accounts[1..], key, value);
      var r := [accounts[0]] + rest;
      assert r[1..] == rest;
      r
  }

  /** Assignment keeps the key order: a known key stays where it was, a new
      one goes last. */
  lemma {:induction false} PutKeys(accounts: Accounts, key: string, value: Account)
    ensures key in Keys(accounts) ==> Keys(Put(accounts, key, value)) == Keys(accounts)
    ensures key !in Keys(accounts) ==> Keys(Put(accounts, key, value)) == Keys(accounts) + [key]
    decreases |accounts|
  {
    if |accounts| > 0 && accounts[0].0 != key {
      PutKeys(accounts[1..], key, value);
      var r := Put(accounts, key, value);
      assert r[1..] == Put(accounts[1..], key, value);
    }
  }

  /** Assignment never gives an object a second copy of a key. */
  lemma PutKeepsKeysUnique(accounts: Accounts, key: string, value: Account)
    requires KeysUnique(accounts)
    ensures KeysUnique(Put(accounts, key, value))
  {
    PutKeys(accounts, key, value);
    var r := Put(accounts, key, value);
    forall i, j | 0 <= i < j < |r|
      ensures r[i].0 != r[j].0
    {
      assert Keys(r)[i] == r[i].0 && Keys(r)[j] == r[j].0;
      if key in Keys(accounts) {
        assert Keys(accounts)[i] == accounts[i].0 && Keys(accounts)[j] == accounts[j].0;
      } else if j < |accounts| {
        assert Keys(accounts)[i] == accounts[i].0 && Keys(accounts)[j] == accounts[j].0;
      } else {
        assert Keys(accounts)[i] == accounts[i].0;
      }
    }
  }

  /** `{ password, ...userData }`: a password inside `userData` overrides the
      one given; every other field comes from `userData`. */
  function Spread(password: string, userData: Account): (r: Account)
    ensures userData.password.Some? ==> r.password == userData.password
    ensures userData.password.None? ==> r.password == Some(password)
    ensures r.username == userData.username && r.email == userData.email
    ensures r.fullName == userData.fullName && r.id == userData.id
  {
    if userData.password.Some? then userData else userData.(password := Some(password))
  }

  /** `saveUser`: the session slot holds the user and no other slot changes. */
  function SaveUser(st: Store, user: User): (r: Store)
    ensures GetUser(r) == Some(user)
    ensures forall k :: k != UserKey ==> (k in r <==> k in st) && (k in st ==> r[k] == st[k])
  {
    st[UserKey := UserDoc(user)]
  }

  /** `getUser`: the persisted session user, `null` when there is none. */
  function GetUser(st: Store): (r: Option<User>)
    ensures UserKey !in st ==> r.None?
  {
    if UserKey in st && st[UserKey].UserDoc? then Some(st[UserKey].user) else None
  }

  /** `removeUser`: the session slot is gone and no other slot changes. */
  function RemoveUser(st: Store): (r: Store)
    ensures UserKey !in r && GetUser(r).None?
    ensures forall k :: k != UserKey ==> (k in r <==> k in st) && (k in st ==> r[k] == st[k])
  {
    st - {UserKey}
  }

  /** `saveFavourites`: the favourites slot reads back the list and no other
      slot changes. */
  function SaveFavourites(st: Store, items: seq<Item>): (r: Store)
    ensures GetFavourites(r) == items
    ensures forall k :: k != FavouritesKey ==> (k in r <==> k in st) && (k in st ==> r[k] == st[k])
  {
    st[FavouritesKey := ItemsDoc(items)]
  }

  /** `getFavourites`: the persisted list, `[]` when there is none. */
  function GetFavourites(st: Store): (r: seq<Item>)
    ensures FavouritesKey !in st ==> r == []
  {
    if FavouritesKey in st && st[FavouritesKey].ItemsDoc? then st[FavouritesKey].items else []
  }

  /** `saveTheme`: the flag is written as the string "1" or "0" under the
      theme key, and no other slot changes. */
  function SaveTheme(st: Store, isDarkMode: bool): (r: Store)
    ensures ThemeKey in r && r[ThemeKey] == Text(if isDarkMode then "1" else "0")
    ensures forall k :: k != ThemeKey ==> (k in r <==> k in st) && (k in st ==> r[k] == st[k])
  {
    st[ThemeKey := Text(if isDarkMode then "1" else "0")]
  }

  /** `getTheme`: true exactly when the stored value is the string "1";
      an absent or any other value reads as false. */
  function GetTheme(st: Store): (r: bool)
    ensures r <==> ThemeKey in st && st[ThemeKey] == Text("1")
    ensures ThemeKey !in st ==> !r
  {
    match if ThemeKey in st then Some(st[ThemeKey]) else None
    case None => false
    case Some(v) => v == Text("1")
  }

  /** Reading the theme back gives what was saved. */
  lemma ThemeRoundTrip(st: Store, isDarkMode: bool)
    ensures GetTheme(SaveTheme(st, isDarkMode)) == isDarkMode
  {
  }

  /** `getRegisteredUsers`: the registered-users object, `{}` when none. */
  function GetRegisteredUsers(st: Store): (r: Accounts)
    ensures RegisteredUsersKey !in st ==> r == []
  {
    if RegisteredUsersKey in st && st[RegisteredUsersKey].AccountsDoc? then st[RegisteredUsersKey].accounts
    else []
  }

  /** `saveRegisteredUser`: the record `{ password, ...userData }` goes under
      the lower-cased email, replacing any record already there; every other
      record and every other slot stays as it was. */
  function SaveRegisteredUser(st: Store, email: string, password: string, userData: Account): (r: Store)
    ensures Lookup(GetRegisteredUsers(r), Lower(email)) == Some(Spread(password, userData))
    ensures forall key :: key != Lower(email) ==>
      Lookup(GetRegisteredUsers(r), key) == Lookup(GetRegisteredUsers(st), key)
    ensures forall k :: k != RegisteredUsersKey ==> (k in r <==> k in st) && (k in st ==> r[k] == st[k])
  {
    var users := GetRegisteredUsers(st);
    st[RegisteredUsersKey := AccountsDoc(Put(users, Lower(email), Spread(password, userData)))]
  }

  /** `validateUser`: the record under the lower-cased email when its
      password equals the given one exactly, otherwise `null`. The email is
      not trimmed. */
  function ValidateUser(st: Store, email: string, password: string): (r: Option<Account>)
    ensures r.Some? <==>
      Lookup(GetRegisteredUsers(st), Lower(email)).Some?
      && Lookup(GetRegisteredUsers(st), Lower(email)).value.password == Some(password)
    ensures r.Some? ==> r == Lookup(GetRegisteredUsers(st), Lower(email))
  {
    match Lookup(GetRegisteredUsers(st), Lower(email))
    case Some(user) => if user.password == Some(password) then Some(user) else None
    case None => None
  }

  /** A record saved without a password of its own validates with the
      password it was saved with, under any casing of its email. */
  lemma ValidateAfterSave(st: Store, email: string, email': string, password: string, userData: Account)
    requires userData.password.None?
    requires Lower(email') == Lower(email)
    ensures ValidateUser(SaveRegisteredUser(st, email, password, userData), email', password)
            == Some(Spread(password, userData))
  {
  }

  /** The four slots sit under four distinct keys, so a write to one slot is
      never seen through another. Here: the other writes leave the theme as
      it read before. */
  lemma ThemeSlotIndependent(st: Store, user: User, items: seq<Item>,
                             email: string, password: string, userData: Account)
    ensures GetTheme(SaveUser(st, user)) == GetTheme(st)
    ensures GetTheme(RemoveUser(st)) == GetTheme(st)
    ensures GetTheme(SaveFavourites(st, items)) == GetTheme(st)
    ensures GetTheme(SaveRegisteredUser(st, email, password, userData)) == GetTheme(st)
  {
  }

  /** Writes to the theme, favourites and registered-users slots leave the
      session user as it read before. */
  lemma UserSlotIndependent(st: Store, items: seq<Item>, isDarkMode: bool,
                            email: string, password: string, userData: Account)
    ensures GetUser(SaveTheme(st, isDarkMode)) == GetUser(st)
    ensures GetUser(SaveFavourites(st, items)) == GetUser(st)
    ensures GetUser(SaveRegisteredUser(st, email, password, userData)) == GetUser(st)
  {
  }

  /** Writes to the theme, session-user and registered-users slots, and
      removing the session user, leave the favourites as they read before. */
  lemma FavouritesSlotIndependent(st: Store, user: User, isDarkMode: bool,
                                  email: string, password: string, userData: Account)
    ensures GetFavourites(SaveTheme(st, isDarkMode)) == GetFavourites(st)
    ensures GetFavourites(SaveUser(st, user)) == GetFavourites(st)
    ensures GetFavourites(RemoveUser(st)) == GetFavourites(st)
    ensures GetFavourites(SaveRegisteredUser(st, email, password, userData)) == GetFavourites(st)
  {
  }

  /** Writes to the theme, session-user and favourites slots, and removing
      the session user, leave the registered users as they read before. */
  lemma RegisteredUsersSlotIndependent(st: Store, user: User, items: seq<Item>, isDarkMode: bool)
    ensures GetRegisteredUsers(SaveTheme(st, isDarkMode)) == GetRegisteredUsers(st)
    ensures GetRegisteredUsers(SaveUser(st, user)) == GetRegisteredUsers(st)
    ensures GetRegisteredUsers(RemoveUser(st)) == GetRegisteredUsers(st)
    ensures GetRegisteredUsers(SaveFavourites(st, items)) == GetRegisteredUsers(st)
  {
  }

  /** Session-user and favourites slots read back what was written;
      `removeUser` empties the session slot. */
  lemma SlotRoundTrips(st: Store, user: User, items: seq<Item>)
    ensures GetUser(SaveUser(st, user)) == Some(user)
    ensures GetUser(RemoveUser(st)) == None
    ensures GetFavourites(SaveFavourites(st, items)) == items
  {
  }
}
