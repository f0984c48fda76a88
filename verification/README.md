# Sportify decision logic in Dafny

Sportify is a React Native client for a public sports catalog. It has
local-only accounts, a favourites list and a light/dark theme. This project
models the parts of it that make decisions, as pure functions over immutable
data, and proves what those decisions guarantee:

- **the favourites slice** (`Favourites`). This is an ordered list of sports,
  leagues and teams, kept in one list and deduplicated by one derived
  identifier, `idSport || idLeague || idTeam`.
- **the catalog slice** (`Sports`). This is a five-action state machine over
  the three catalog lists plus the `isLoading` and `error` flags.
- **the form validators** (`Validation`). The email check is a structural
  decision procedure, proved equal to the language of its regular expression.
- **the storage service** (`Storage`). It runs over an abstract key-value
  store with four slots. The registered-users object is an insertion-ordered
  list of `(key, record)` pairs, because `for…in` visits such keys in
  insertion order.
- **the login decision** (`Login`). It rejects blank fields, normalises the
  identifier, looks the account up by email key with a first-match username
  fallback, then compares the password exactly.
- **the helpers of three screens**:
  - home (`Home`): loading, status badge, description, image, favourite
    toggle and navigation kind;
  - details (`Details`): favourite toggle, tab loaders and the merged match
    list;
  - favourites (`FavouritesScreen`): restore, remove, navigation kind and
    card fields.

The JavaScript semantics these rely on are stated once, in `Js`:

- `undefined` is `None`;
- a string is truthy when present and non-empty;
- `a || b` returns `b` as it is when `a` is falsy;
- template interpolation prints an absent value as `undefined`;
- `trim` and `\s` use the ECMAScript WhiteSpace and LineTerminator set;
- `includes`, `slice(0, n)` and `x || []` on a fetched array are modelled directly.

The catalog's duck-typed union of sports, leagues and teams is one record,
`Types.Item`, with every field optional. This lets the model state what
happens when several id fields are present, or present but empty.

Some behaviour of the code, as modelled:

- The slice's derived identifier does not say which kind of entity it comes
  from. So on the home screen a team favourite whose `idTeam` equals a
  sport's `idSport` keeps that sport from being added
  (`Home.TeamIdBlocksAdd`). The details screen tests the same identifier,
  so there the sport's toggle removes the team instead, and a second
  toggle adds the sport (`Details.TeamIdCountsAsSport`).
- Toggling a favourite off and on again moves it to the end of the list
  (`Details.ToggleTwiceMovesToEnd`).
- The favourites screen draws a card by which id properties exist, but
  navigates by which are truthy. The two disagree exactly when `idSport` is
  present but empty, or when `idSport` is absent and `idLeague` is present
  but empty (`FavouritesScreen.ShapeDisagreesIff`).
- Login distinguishes "no account" from "wrong password".
- Nothing enforces that an item carries exactly one non-empty identifier.
- The registration screen never stores a record, so the login lemma
  `Login.LoginAfterSave` starts from a store written by `saveRegisteredUser`
  itself.

## Model

| member | source | states |
|---|---|---|
| `Favourites.ItemId` | src/redux/slices/favouritesSlice.ts:16 | the identifier is `idSport` when truthy, else `idLeague` when truthy, else `idTeam` as it stands, possibly absent or empty |
| `Favourites.Add` | src/redux/slices/favouritesSlice.ts:15-24 | the list is unchanged exactly when an item with the same identifier exists; otherwise the payload is appended and every earlier item keeps its place; afterwards the identifier is present, and a duplicate-free list stays duplicate-free |
| `Favourites.Remove` | src/redux/slices/favouritesSlice.ts:25-30 | no item with the identifier remains and the list never grows |
| `Favourites.RemoveMembers` | src/redux/slices/favouritesSlice.ts:25-30 | an item survives removal exactly when it was in the list with another identifier |
| `Favourites.RemoveAppend` | src/redux/slices/favouritesSlice.ts:25-30 | removal distributes over concatenation, so it is the order-preserving filter |
| `Favourites.RemoveAbsent` | src/redux/slices/favouritesSlice.ts:25-30 | removing an identifier no item has leaves the list unchanged |
| `Favourites.RemoveShrinks` | src/redux/slices/favouritesSlice.ts:25-30 | removing an identifier some item has makes the list strictly shorter |
| `Favourites.RemoveUniqueAt` | src/redux/slices/favouritesSlice.ts:25-30 | in a duplicate-free list, removing the identifier of the item at position i removes exactly that item and keeps the others in order |
| `Favourites.RemovePreservesUnique` | src/redux/slices/favouritesSlice.ts:25-30 | removal keeps a duplicate-free list duplicate-free |
| `Favourites.AddIdempotent` | src/redux/slices/favouritesSlice.ts:17-23 | adding the same item twice equals adding it once |
| `Favourites.AddAllUnique` | src/redux/slices/favouritesSlice.ts:15-24 | any run of adds, in any order and with repeats, from a duplicate-free list (the empty one included) leaves no identifier twice |
| `Favourites.RemoveThenAdd` | src/redux/slices/favouritesSlice.ts:15-30 | removing an identifier and then adding an item with it leaves exactly one entry with it: the item itself, last |
| `Favourites.Reduce` | src/redux/slices/favouritesSlice.ts:14-37 | set installs the payload as given; clear empties the list; remove is exactly the slice's filter on the identifier, so no matching item is left; add leaves the list unchanged when the identifier is already present and otherwise appends exactly the item; every action except set preserves uniqueness |
| `Favourites.SetFavouritesKeepsDuplicates` | src/redux/slices/favouritesSlice.ts:31-33 | set does not deduplicate: a payload holding one league twice is installed with the duplicate |
| `Favourites.AddLeagueTwice` | src/redux/slices/favouritesSlice.ts:15-24 | adding the league with `idLeague` "4328" twice to an empty list yields one entry |
| `Sports.Reduce` | src/redux/slices/sportsSlice.ts:19-38 | only start leaves the state loading; each success action replaces exactly its own list; start clears the error, failure sets it to the payload, and the successes leave it alone |
| `Sports.InitialStateIsIdle` | src/redux/slices/sportsSlice.ts:7-13 | the initial state has three empty lists, is not loading and has no error |
| `Sports.OnlyStartClearsError` | src/redux/slices/sportsSlice.ts:19-38 | once an error is set, no run of actions without a start clears it |
| `Js.TrimEmptyIff` | src/screens/LoginScreen.tsx:38-46 | a string trims to empty exactly when all of it is whitespace, which makes `!s.trim()` the blank-field test |
| `Validation.ValidateEmail` | src/utils/validation.ts:3-6 | an accepted email has at least five characters and exactly one `@`, which is not its first character |
| `Validation.ValidateEmailIsRegex` | src/utils/validation.ts:3-6 | the structural check accepts a string exactly when it matches `^[^\s@]+@[^\s@]+\.[^\s@]+$`, given as an explicit index predicate: no whitespace, one `@` with something before it, and a `.` strictly inside the part after it |
| `Validation.ValidateEmailSound` | src/utils/validation.ts:3-6 | every string the structural check accepts matches the expression |
| `Validation.ValidateEmailComplete` | src/utils/validation.ts:3-6 | every string the expression matches passes the structural check |
| `Validation.ValidatePassword` | src/utils/validation.ts:8-10 | a password passes exactly from six characters on, whitespace counting like any character (`Validation.LengthChecksCountWhitespace`) |
| `Validation.ValidateUsername` | src/utils/validation.ts:12-14 | a username passes exactly from three characters on, whitespace counting like any character |
| `Validation.ValidateFullName` | src/utils/validation.ts:16-18 | a full name passes when at least two characters remain after `trim` |
| `Validation.FullNameIffTwoVisible` | src/utils/validation.ts:16-18 | a full name passes exactly when it has non-whitespace characters at two different positions |
| `Validation.LengthChecksCountWhitespace` | src/utils/validation.ts:8-18 | a whitespace-only password of six characters and username of three pass, while a whitespace-only full name of any length fails |
| `Validation.EmailError` | src/utils/validation.ts:31-35 | "Email is required" exactly for the empty email, "Invalid email format" exactly for a non-empty one the expression rejects, no message otherwise |
| `Validation.PasswordError` | src/utils/validation.ts:37-41 | "Password is required" exactly for the empty password, the length message exactly for one of one to five characters, no message from six on |
| `Validation.FullNameError` | src/utils/validation.ts:55-59 | "required" exactly for the empty name, the length message exactly for a non-empty name whose trim is shorter than two, no message otherwise |
| `Validation.UsernameError` | src/utils/validation.ts:61-65 | "required" exactly for the empty username, the length message exactly for one or two characters, no message from three on |
| `Validation.ConfirmError` | src/utils/validation.ts:79-83 | "Please confirm your password" exactly for an empty confirmation, "Passwords do not match" exactly for a non-empty one that differs from the password, no message otherwise |
| `Validation.ValidateLoginForm` | src/utils/validation.ts:28-44 | for each field, which message it gets and when it gets none, each decided by that field alone; no error at all exactly when the email is non-empty and valid and the password has at least six characters |
| `Validation.ValidateRegisterForm` | src/utils/validation.ts:46-86 | each of the ten messages is set exactly under its field's condition; the error set is empty exactly when the trimmed full name has two characters, the username three, the email is valid, the password has six characters and the confirmation equals the password |
| `Validation.BlankFullNameIsTooShort` | src/utils/validation.ts:55-59 | a non-empty whitespace-only full name gets "Full name must be at least 2 characters", not "required" |
| `Validation.RegisterFieldsIndependent` | src/utils/validation.ts:46-86 | each register-form key depends only on its own field; the confirmation key depends only on the password and the confirmation, whatever the password's own validity |
| `Storage.Lookup` | src/utils/storage.ts:109 | `users[key]` is absent exactly when the key is not among the object's keys, and otherwise is a record stored under it |
| `Storage.Put` | src/utils/storage.ts:89 | after `users[key] = value` the key reads back the value and every other key reads as before |
| `Storage.PutKeys` | src/utils/storage.ts:89 | assignment keeps the key order: an existing key stays in place, a new one goes last |
| `Storage.PutKeepsKeysUnique` | src/utils/storage.ts:89 | assignment never gives the object a second copy of a key |
| `Storage.Spread` | src/utils/storage.ts:89 | in `{ password, ...userData }` a password inside `userData` overrides the given one; every other field comes from `userData` |
| `Storage.SaveUser` | src/utils/storage.ts:14-20 | the session user reads back as saved, and no other slot changes |
| `Storage.GetUser` | src/utils/storage.ts:23-31 | an absent session slot reads as null |
| `Storage.RemoveUser` | src/utils/storage.ts:34-40 | the session slot is gone, the session user reads as null, and no other slot changes |
| `Storage.SaveFavourites` | src/utils/storage.ts:43-49 | the favourites read back as saved, and no other slot changes |
| `Storage.GetFavourites` | src/utils/storage.ts:52-60 | an absent favourites slot reads as the empty list |
| `Storage.SaveTheme` | src/utils/storage.ts:63-70 | true is written as "1" and false as "0" under the theme key, and no other slot changes |
| `Storage.GetTheme` | src/utils/storage.ts:73-83 | the flag reads true exactly when the stored text is "1"; absent or any other value reads false |
| `Storage.ThemeRoundTrip` | src/utils/storage.ts:63-83 | reading the theme after saving it gives back the saved flag |
| `Storage.GetRegisteredUsers` | src/utils/storage.ts:96-104 | an absent registered-users slot reads as the empty object |
| `Storage.SaveRegisteredUser` | src/utils/storage.ts:86-94 | the lower-cased email now holds `{ password, ...userData }`, silently replacing any earlier record; every other record and every other slot is unchanged |
| `Storage.ValidateUser` | src/utils/storage.ts:106-115 | the record is returned exactly when one is stored under the lower-cased, untrimmed email and its password equals the input exactly; otherwise null |
| `Storage.ValidateAfterSave` | src/utils/storage.ts:86-115 | a record saved without its own password validates with the saved password under any casing of its email |
| `Storage.ThemeSlotIndependent` | src/utils/storage.ts:5-10 | the four keys are distinct, so saving or removing the session user, saving the favourites or saving a registered user leaves the theme as it read before |
| `Storage.UserSlotIndependent` | src/utils/storage.ts:5-10 | saving the theme, the favourites or a registered user leaves the session user as it read before |
| `Storage.FavouritesSlotIndependent` | src/utils/storage.ts:5-10 | saving the theme, the session user or a registered user, or removing the session user, leaves the favourites as they read before |
| `Storage.RegisteredUsersSlotIndependent` | src/utils/storage.ts:5-10 | saving the theme, the session user or the favourites, or removing the session user, leaves the registered users as they read before |
| `Storage.SlotRoundTrips` | src/utils/storage.ts:14-60 | the session user and the favourites read back as saved; after `removeUser` the session reads as null |
| `Login.Normalise` | src/screens/LoginScreen.tsx:56 | the normalised identifier is empty exactly for an all-whitespace identifier, is never longer, has no whitespace at either end and no upper-case ASCII letter |
| `Login.FirstUsernameMatch` | src/screens/LoginScreen.tsx:64-70 | the scan with `break` finds the first record, in insertion order, whose lower-cased username equals the identifier, or none if no record matches |
| `Login.FindAccount` | src/screens/LoginScreen.tsx:58-71 | a record under the identifier as a key is taken; only when there is none is the first username match taken |
| `Login.CheckCredentials` | src/screens/LoginScreen.tsx:58-93 | "no account" exactly when no record is found, "wrong password" exactly when the found record's password differs from the input, success otherwise; the session user carries the record's username, email and full name and its id when truthy, is persisted on success, and nothing is written otherwise; no slot other than the session user's ever changes |
| `Login.HandleLogin` | src/screens/LoginScreen.tsx:38-93 | a blank identifier is rejected first and a blank password second; then "no account" exactly when no record is found, "wrong password" exactly when the found record's password differs from the untrimmed input, success otherwise; the session user carries the record's username, email and full name, is persisted on success, and nothing is written otherwise; no slot other than the session user's ever changes |
| `Login.DirectHitWins` | src/screens/LoginScreen.tsx:59-62 | a record keyed by the identifier is found even when an earlier record's username also matches |
| `Login.BlankIffNormalisedEmpty` | src/screens/LoginScreen.tsx:38-56 | the identifier passes the blank check exactly when its normalised form is non-empty |
| `Login.EmailLoginIgnoresCaseAndSpaces` | src/screens/LoginScreen.tsx:56-85 | when the normalised identifier is an email key, the outcome is never "no account" and is success exactly when the password matches |
| `Login.LoginAfterSave` | src/screens/LoginScreen.tsx:38-93 | after `saveRegisteredUser` stores a record without its own password, login with any casing and surrounding whitespace of the email succeeds with the saved password, carrying the stored email, and gets "wrong password" with any other non-blank password |
| `Login.PasswordComparedUntrimmed` | src/screens/LoginScreen.tsx:43-85 | the correct password followed by whitespace passes the blank check and is then refused as wrong |
| `Login.NormaliseDropsTrailing` | src/screens/LoginScreen.tsx:38-56 | for any identifier, trailing whitespace changes neither the trimmed text the blank check looks at nor the normalised identifier |
| `Login.TrailingSpacesIgnored` | src/screens/LoginScreen.tsx:38-93 | for any identifier, typing whitespace after it gives exactly the same login result as the identifier alone |
| `Login.UsernameFallbackTakesFirst` | src/screens/LoginScreen.tsx:64-70 | when two records share a username and no key matches, the first inserted is the one checked |
| `Home.LoadData` | src/screens/HomeScreen.tsx:37-53 | afterwards the screen is not loading and the teams are untouched; on success there is no error, the fetched sports, and the first 200 fetched leagues, all of them when fewer arrived, a missing list as empty; on failure the message "Failed to load data" and the old lists |
| `Home.RefreshIsIdempotent` | src/screens/HomeScreen.tsx:37-59 | refreshing again with the same responses leaves the state as the first load left it |
| `Home.FailedRefreshKeepsCatalog` | src/screens/HomeScreen.tsx:37-59 | a failed refresh after a successful load keeps the loaded sports and leagues and only sets the error |
| `Home.FirstMatch` | src/screens/HomeScreen.tsx:127-137 | the if/else-if cascade picks the first rule whose keywords the name mentions, and no earlier rule's |
| `Home.GetStatus` | src/screens/HomeScreen.tsx:162-182 | no badge exactly for sports; a league is Popular exactly when its lower-cased name mentions a popular league, Upcoming exactly when it mentions no popular league but an upcoming keyword, and Active otherwise |
| `Home.TierText` | src/screens/HomeScreen.tsx:128-136 | every generated league text names the league's sport, as "undefined" when it has none; the fallback text also names the alternate name, or "Professional league" when that is not truthy |
| `Home.LeagueDescription` | src/screens/HomeScreen.tsx:120-137 | a truthy English description is shown as is; otherwise the first of premier, championship, world cup or champions, division or league that the lower-cased name mentions picks the text, and the generic text uses the alternate name or "Professional league" |
| `Home.SportDescription` | src/screens/HomeScreen.tsx:116 | the sport's description when truthy, otherwise its format as it stands |
| `Home.SportImage` | src/screens/HomeScreen.tsx:84-107 | a picture is found exactly for a sport name in the table, and it is that sport's own picture; an absent name finds none |
| `Home.ItemImage` | src/screens/HomeScreen.tsx:142-159 | a sport shows its thumbnail; a league is shown as a logo exactly when it has a truthy badge, logo or banner, and takes the first of them; otherwise it shows the picture for its sport |
| `Home.IsFavourite` | src/screens/HomeScreen.tsx:61-67 | every listed item counts as a favourite; while the item and every favourite is a sport or a league, it is a favourite here exactly when the slice holds its identifier |
| `Home.HandleFavourite` | src/screens/HomeScreen.tsx:69-76 | a favourite here is removed by the slice's order-preserving filter on its key, which drops everything sharing the key and keeps every other item, with its order and repeats; otherwise the item is appended, unless the slice already holds its identifier, in which case nothing changes |
| `Home.HomeKeyIsItemId` | src/screens/HomeScreen.tsx:61-76 | for an item with a truthy sport or league id, this screen's key, the first truthy of `idSport` and `idLeague`, is the slice's identifier |
| `Home.OneToggleFlips` | src/screens/HomeScreen.tsx:69-76 | while all favourites are sports or leagues, one toggle flips the item's membership on this screen and keeps all favourites sports or leagues |
| `Home.ToggleFlips` | src/screens/HomeScreen.tsx:61-76 | under the same condition, one toggle flips membership and two restore it |
| `Home.TeamIdBlocksAdd` | src/screens/HomeScreen.tsx:61-76 | a team favourite with `idTeam` "102" is not a favourite on this screen for the sport with `idSport` "102", yet the toggle cannot add that sport |
| `Home.ItemKind` | src/screens/HomeScreen.tsx:79 | an item navigates as a sport exactly when `idSport` is truthy, and otherwise as a league, never as a team |
| `Details.IsFavourite` | src/screens/DetailsScreen.tsx:38-43 | every listed item is a favourite, and an item is a favourite exactly when removing its identifier would change the list |
| `Details.Toggle` | src/screens/DetailsScreen.tsx:95-101 | the toggle flips whether the item's identifier is present; removing is the slice's order-preserving filter on the identifier, so the list gets shorter and keeps exactly the items with another identifier, in order and with their repeats; adding appends the item |
| `Details.ToggleTwiceMembership` | src/screens/DetailsScreen.tsx:95-101 | two toggles restore the item's membership |
| `Details.ToggleTwiceRestores` | src/screens/DetailsScreen.tsx:95-101 | from a list without the item, toggling on and off gives back exactly the original list |
| `Details.ToggleTwiceMovesToEnd` | src/screens/DetailsScreen.tsx:95-101 | from a duplicate-free list holding the item, toggling off and on moves the item to the end |
| `Details.TeamIdCountsAsSport` | src/screens/DetailsScreen.tsx:38-101 | a team favourite with `idTeam` "102" counts as the sport with `idSport` "102": that sport's toggle removes the team, and a second toggle adds the sport |
| `Details.TabLoader` | src/screens/DetailsScreen.tsx:45-53 | matches and teams load exactly for a league, players exactly for a team, and the info tab and sports load nothing |
| `Details.MatchesAfterLoad` | src/screens/DetailsScreen.tsx:55-69 | the matches are the first ten of the next events followed by the past events, a missing list counting as empty; a failed request keeps the old matches |
| `Details.NextEventsFirst` | src/screens/DetailsScreen.tsx:63-64 | ten or more next events show only the first ten of them; with fewer, all of them come first |
| `Details.ListAfterLoad` | src/screens/DetailsScreen.tsx:71-93 | teams and players are the fetched list, a missing one as empty; a failed request keeps the old list |
| `FavouritesScreen.LoadFavourites` | src/screens/FavouritesScreen.tsx:33-38 | a non-empty persisted list replaces the list in memory; an empty or absent one changes nothing |
| `FavouritesScreen.LoadAfterSave` | src/screens/FavouritesScreen.tsx:28-38 | loading after saving gives the saved list, except that a saved empty list leaves the list in memory |
| `FavouritesScreen.HandleRemove` | src/screens/FavouritesScreen.tsx:40-43 | the result is the slice's order-preserving filter on the item's identifier: nothing with it remains, the item itself is gone, a shown item makes the list shorter, and every other item stays in order with its repeats |
| `FavouritesScreen.NavKind` | src/screens/FavouritesScreen.tsx:46 | a sport exactly when `idSport` is truthy, a league exactly when only `idLeague` is, and a team otherwise |
| `FavouritesScreen.NavKindFollowsItemId` | src/screens/FavouritesScreen.tsx:41-46 | the navigation kind is the kind of the field the removal identifier comes from |
| `FavouritesScreen.NavKindAgreesWithHome` | src/screens/FavouritesScreen.tsx:46 | for sports and leagues this screen navigates exactly as the home screen does |
| `FavouritesScreen.CardShape` | src/screens/FavouritesScreen.tsx:51-53 | the sport shape exactly when `idSport` exists, the league shape exactly when only `idLeague` does, and the team shape when neither does, whatever their values |
| `FavouritesScreen.RenderCard` | src/screens/FavouritesScreen.tsx:50-61 | the sport branch is taken when `idSport` exists, then the league branch, then the team branch; a team shows its stadium when truthy and "Team" otherwise, and a badge only when `idTeam` exists |
| `FavouritesScreen.ShapeAgreesWithNavKind` | src/screens/FavouritesScreen.tsx:46-55 | when no sport or league id is present but empty, the card's branch and the navigation kind agree |
| `FavouritesScreen.ShapeDisagreesIff` | src/screens/FavouritesScreen.tsx:46-53 | the card's shape and the navigation kind differ exactly when `idSport` is present but empty, or `idSport` is absent and `idLeague` is present but empty |
| `FavouritesScreen.EmptySportIdSplitsShapeAndNavKind` | src/screens/FavouritesScreen.tsx:46-55 | an empty `idSport` beside `idLeague` "4328" is drawn as a sport but navigates as a league |

## Left out

- Rendering, styles, layout, navigation calls and component state setters are not modelled; only the values they are given are.
- AsyncStorage is a pure map. Its failures and the `try`/`catch` paths in the storage service that log and return defaults are not modelled.
- The login's "Failed to login" message is not modelled. The storage service catches its own failures, so the message arises only from ill-typed stored data that makes the lookup throw: a registered-users slot holding `null`, a `null` record, or a `username` that is not a string. The model's store cannot hold such data (see the next line).
- `JSON.stringify` and `JSON.parse` are the identity: a slot holds the document itself. A stored `"null"` or other ill-typed text is not modelled.
- `Validation.ValidatePassword`, `Validation.ValidateUsername` and `Validation.ValidateFullName` carry no contract of their own: each is a single length comparison, and what it means is stated by `Validation.PasswordError`, `Validation.UsernameError`, `Validation.FullNameIffTwoVisible` and `Validation.LengthChecksCountWhitespace`.
- `Js.Lower` lowers ASCII letters only. `toLowerCase` also maps non-ASCII upper-case letters, and some characters to longer strings.
- Strings are sequences of characters. JavaScript measures `length` in UTF-16 code units, which differ for characters outside the Basic Multilingual Plane.
- The registered-users object is modelled with string keys in insertion order. It does not model the integer-like keys that JavaScript visits first, nor properties inherited from `Object.prototype` (an identifier such as "constructor" would find one).
- `Storage.Spread` treats an explicit `password: undefined` in `userData` the same as no password.
- `Home.GetStatus`: requires `strLeague` to be present for a league. The source calls `toLowerCase` on it and would throw on an absent name.
- `Home.LeagueDescription`: requires `strLeague` to be present only when there is no truthy English description, because only then does the source call `toLowerCase` on it.
- `Home.ItemImage`: the table lookup is by the sport's name as a string. Prototype properties of the object literal are not modelled.
- The catalog HTTP client is not modelled; its results are parameters. Its rule of substituting a built-in list when the sports endpoint returns at most one item is not modelled either.
- The root navigator clears the whole store and forces the light theme on every start. This is lifecycle code, so nothing in the model depends on it.
- The registration screen beyond its validation gate is not modelled. It never stores a record, so no register-then-login flow exists in the code.
- The profile screen, and the auth and theme slices and the store wiring, are not part of this model.
- `Date.now()` in the login's fallback user id is the parameter `fallbackId`.
- Console logging is not modelled.
- Asynchronous ordering is not modelled, including the race between the favourites screen's save-on-change effect and its initial load.
- The login screen does not call `validateLoginForm`. The two are modelled separately, as in the code.
