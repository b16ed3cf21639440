# mii-auth, modelled in Dafny

mii-auth is the authentication component of the mii PHP framework. This project models its
core:

- the `Auth` service: the cached `_user`, the login and logout flows, remember-me tokens,
  automatic login from the token cookie, forced login and the password check;
- the `user_tokens` table (`Token`): creation with its occasional collection of expired rows,
  bulk deletion, lookup;
- the role bitmask of `User`: adding, testing, replacing and listing roles, and the rehash rule;
- `SocialStorage`, the dictionary kept in the session slot `SOCIALKEYS`.

Modules:

- `Php` covers the PHP value semantics the core relies on. It has `null` as `Option`, the
  falsy strings `""` and `"0"`, `mb_strtolower` on ASCII letters, and `strstr`.
- `Bits` holds the few facts about 64-bit `|` and `&` on role masks. Each fact is its own lemma.
- `Users` holds the `User` class with its `roles` and `password` fields, the `Identity` row
  value, and the user-table lookups.
- `Tokens` holds the `TokenTable` class over rows keyed by id, and the pure functions its
  methods are specified by.
- `Sessions` holds the collaborators: a `Session` store (slots, an id that `regenerate`
  changes, a session-cookie flag) and the `Request` cookie jar.
- `Social` holds the `SocialStorage` class and the pure dictionary functions.
- `Steps` describes every `Auth` operation as a pure function from one `World` to the next.
  A `World` holds the cached user, the session slots and id, the cookies and the token table.
  The lemmas there state the flows' properties.
- `AuthService` holds the `Auth` class. It changes the session, the cookie jar and the token
  table step by step. Each method is proved to leave `State()` where its `Steps` function says.

Outside influences are parameters. `Env` carries the clock (`time()`), the encoded
`random_bytes(24)` of a new token, the `mt_rand(1, 100)` roll (collection fires on 1) and the
salt `password_hash` draws. The lookup `->one()` may return any matching row. The methods
therefore return the chosen row id as a ghost out-parameter `pick`, and `Steps.Picks`
constrains it to a row carrying the cookie's token, or to none when no row does.

In three places the code does less than a reader of its names might expect. The model follows
the code:

- `autoLogin` accepts any row whose token string matches, expired or not. No expiry is
  checked on that path. Expiry is enforced only by collection, which removes expired rows.
- Token strings are not enforced to be unique. The lookup is therefore modelled as a choice.
  `Steps.AutoLoginConsumesToken` assumes the stored string is unique and shows single use,
  under that assumption, for requests handled one after another.
- A session slot that holds something other than a user makes the typed `?User $_user`
  assignment throw inside the `try`. As with an unreadable slot, the slot is deleted and
  `null` is returned.

## Model

| member | source | states |
|---|---|---|
| `Php.Lower` | src/Auth.php:115 | lower-casing keeps the length and maps each character to its lower-case form |
| `Php.LowerIdempotent` | src/Auth.php:115 | lower-casing an already lower-cased name changes nothing |
| `Php.Strstr` | src/SocialStorage.php:61 | a found result is a suffix of the haystack that starts with the needle |
| `Php.StrstrFirstOccurrence` | src/SocialStorage.php:61 | the suffix found begins at the first occurrence: the needle starts at no earlier position |
| `Php.StrstrFindsIffContains` | src/SocialStorage.php:61 | `strstr` finds something exactly when the needle occurs in the haystack |
| `Php.StrstrTruthyIffContains` | src/SocialStorage.php:61 | for a needle other than "" and "0", a truthy `strstr` result means exactly that the needle occurs |
| `Users.UnionOf` | src/User.php:47-54 | the OR of the empty list is 0; every role of the list keeps all its bits in the OR |
| `Users.UnionOfShares` | src/User.php:47-54 | the OR of a role list shares a bit with `x` iff some role of the list does |
| `Users.RolesIn` | src/User.php:57-67 | no more roles are listed than the table has, and every listed role shares a bit with the mask |
| `Users.NamesIn` | src/User.php:70-79 | one name is listed for each listed role |
| `Users.RolesInMembers` | src/User.php:57-67 | a role is listed iff it is a key of the role table and shares a bit with the mask |
| `Users.RolesAndNamesInTableOrder` | src/User.php:57-79 | the name list is as long as the role list; the i-th role and the i-th name come from the same table entry; listed entries keep table order |
| `Users.RolesInDistinct` | src/User.php:57-67 | with unique table keys no role is listed twice |
| `Users.FindUser` | src/User.php:18-20 | a user is found iff one has that username; the found user is in the table with that username |
| `Users.FindById` | src/Auth.php:306 | a user is found iff one has that id; the found user is in the table with that id |
| `Users.User.AddRole` | src/User.php:26-30 | the role must be a table key; afterwards `roles` is the old mask OR the role, has that role when it is nonzero, and keeps every old bit |
| `Users.User.HasRole` | src/User.php:33-45 | true iff some queried role shares a bit with `roles`; a scalar query means sharing a bit with that one role; an empty list gives false |
| `Users.User.UpdateRoles` | src/User.php:47-54 | `roles` becomes the OR of the list, whatever it was before |
| `Users.User.GetRoles` | src/User.php:57-67 | the registered roles whose bit is set, in table order; with the table's keys unique no role repeats |
| `Users.User.GetRolesDesc` | src/User.php:70-79 | the names of those roles, in the same order |
| `Users.User.OnChange` | src/User.php:12-16 | a changed password is replaced by the service's hash of it at the configured cost; an unchanged one stays |
| `Tokens.WithoutExpired` | src/Token.php:38-44 | exactly the rows with `expires < now` go; the rest stay unchanged, including a row expiring at `now` |
| `Tokens.WithoutUser` | src/Token.php:47-53 | exactly the rows of that user go; every other row stays unchanged |
| `Tokens.Collected` | src/Token.php:29-32 | only rows are removed, never changed; no row that has not expired is lost; when the roll is 1 every remaining row has not expired; otherwise nothing changes |
| `Tokens.Inserted` | src/Token.php:25-33 | the new row is present; every other row was there before, unchanged; no row that has not expired is lost |
| `Tokens.WithoutExpiredIdempotent` | src/Token.php:38-44 | collecting twice at the same time is collecting once |
| `Tokens.WithoutExpiredTwice` | src/Token.php:38-44 | collecting at `a` and then at `b` is collecting at the later time |
| `Tokens.WithoutUserCommutes` | src/Token.php:47-53 | revoking a user twice is revoking once, and revoking commutes with collection |
| `Tokens.InsertedAddsOne` | src/Token.php:25-33 | creation adds exactly one id; without collection nothing else changes |
| `Tokens.TokenTable.Create` | src/Token.php:25-33 | the new row has the next id, the user, the drawn token string and the expiry; the table becomes `Inserted` of the old one; the id discipline is kept |
| `Tokens.TokenTable.DeleteExpired` | src/Token.php:38-44 | the table becomes `WithoutExpired` of the old one |
| `Tokens.TokenTable.DeleteAllUserTokens` | src/Token.php:47-53 | the table becomes `WithoutUser` of the old one |
| `Tokens.TokenTable.Delete` | src/Auth.php:169 | only the row with that id goes |
| `Tokens.TokenTable.GetToken` | src/Token.php:63-66 | a row is returned iff some row's token equals the string exactly; the returned row is in the table and carries that string |
| `Social.BagOf` | src/SocialStorage.php:20 | without the slot the dictionary is empty; a stored dictionary is read as is |
| `Social.Lookup` | src/SocialStorage.php:22 | a value is read iff the key is set; an absent key reads as null; a present key reads as its entry |
| `Social.IsSet` | src/SocialStorage.php:46 | a key is set only when present, and a present key is set iff its entry is not null |
| `Social.MatchRemoved` | src/SocialStorage.php:57-66 | a key stays iff `strstr(key, needle)` is falsy; kept entries are unchanged |
| `Social.WithoutContaining` | src/SocialStorage.php:57-66 | a key stays iff it does not contain the needle; kept entries are unchanged |
| `Social.MatchRemovedIsWithoutContaining` | src/SocialStorage.php:57-66 | for every needle other than "" and "0", `deleteMatch` removes exactly the keys containing the needle |
| `Social.ZeroNeedleKeepsMatchingKey` | src/SocialStorage.php:61 | the key "ab0" contains "0" but survives `deleteMatch("0")` |
| `Social.MatchRemovedIdempotent` | src/SocialStorage.php:60-65 | a second `deleteMatch` with the same needle removes nothing more |
| `Social.WithoutContainingIdempotent` | src/SocialStorage.php:60-65 | the same holds for the corrected removal |
| `Social.SocialStorage.Get` | src/SocialStorage.php:18-23 | a value is returned iff the key is set to a non-null value, and it is that value; an absent key gives null |
| `Social.SocialStorage.Set` | src/SocialStorage.php:31-36 | afterwards the key reads as the value and every other key reads as before |
| `Social.SocialStorage.Delete` | src/SocialStorage.php:43-50 | afterwards the key reads as null and every other key reads as before; nothing is written when the key was not set |
| `Social.SocialStorage.DeleteMatch` | src/SocialStorage.php:57-66 | the slot becomes the old dictionary without the keys where `strstr` is truthy |
| `Social.SocialStorage.DeleteContaining` | src/SocialStorage.php:57-66 | the slot becomes the old dictionary without the keys containing the needle |
| `Social.SocialStorage.Clear` | src/SocialStorage.php:71-74 | the slot is removed, and every key reads as null afterwards |
| `Steps.WithUser` | src/Auth.php:94-98 | the user is cached and stored in the user slot; every other slot, the session id, the cookies and the tokens are unchanged |
| `Steps.Completed` | src/Auth.php:234-244 | the session id advances by one and, apart from the id, the world is `setUser`'s; the user is cached and stored |
| `Steps.Revoked` | src/Auth.php:159-171 | no truthy cookie is left; user, slots, id and next row id are unchanged; without a truthy cookie nothing changes; with a found row, `logoutAll` removes exactly its user's rows and otherwise only that row; rows are only removed |
| `Steps.Ended` | src/Auth.php:173-184 | no cached user and no user slot; destroying empties the slots without a new id, otherwise only the user slot goes and the id advances; cookies and tokens are unchanged |
| `Steps.RememberToken` | src/Auth.php:296-300 | the cookie is used iff it is present and not falsy |
| `Steps.Issued` | src/Auth.php:190-201 | exactly one new row, with the next id, for that user, with the drawn token, expiring a lifetime from now; the cookie is set to it; other rows are unchanged and none that has not expired is lost |
| `Steps.LoginAfter` | src/Auth.php:109-136 | a falsy password fails; a failure changes nothing; success iff the lower-cased name is found and the user has a truthy id, may log in and the password verifies; success stores that user in the slot and the cache after a new session id; the cached user is the one found under the lower-cased name; with `remember` exactly one new token for the user, the next row id advances, the cookie is set to it, every other row is unchanged and no row that has not expired is lost; without it no token and no cookie |
| `Steps.LoginIgnoresCase` | src/Auth.php:115-117 | logging in with the lower-cased name has the same effect as with the name as given |
| `Steps.AutoLoginAfter` | src/Auth.php:294-325 | without a truthy cookie nothing happens; success returns the owner of the row the lookup returned (which carries the cookie's token), removes that row, adds exactly one new row for the same user with the cookie set to it, and stores and caches the user after a new session id; besides that row only expired rows are lost, and only when collection fires; every other row is unchanged; failure means no row or no owner, and only the cookie is deleted |
| `Steps.DuplicateTokenFollowsPick` | src/Auth.php:303-318 | with a live and an expired row carrying the same string and no collection, the picked row's owner is logged in, the picked row goes and the other stays, for either pick |
| `Steps.AutoLoginConsumesToken` | src/Auth.php:303-318 | when the presented string was in one row only, replaying the old cookie after a successful automatic login finds no row and fails |
| `Steps.AliceRotates` | src/Auth.php:294-325 | user 7 with token "abc" is logged in; "abc" is gone; the only token of user 7 is the fresh one in the cookie |
| `Steps.Slot` | src/Auth.php:66-68 | the slot is read iff the session cookie is present and the slot exists, and what is read is the slot's payload |
| `Steps.GetUserAfter` | src/Auth.php:60-87 | a cached user is returned as is; a slot holding no user is deleted and gives null; a stored user is returned unless its id is falsy; with nothing stored, the automatic login runs only when asked for and a truthy cookie is present; otherwise nothing changes; a user found from the session or the cookie has a nonzero id; the result is the new cache |
| `Steps.LoggedInAfter` | src/Auth.php:208-214 | the state is exactly `getUser()`'s; true iff `getUser()` found someone and, when roles are asked for, the user holds one of them; for a single role that means sharing a bit with it |
| `Steps.CheckPasswordAfter` | src/Auth.php:254-263 | the state is `getUser()`'s; true iff a user was found and a fresh hash of the password equals that user's stored hash |
| `Steps.ForceLoginAfter` | src/Auth.php:273-286 | the user is stored and cached after a new session id, `auth_forced` is set when asked; one new token for the user is issued and set as the cookie, the next row id advances, every other row is unchanged and no row that has not expired is lost |
| `Steps.LogoutAfter` | src/Auth.php:154-184 | no cached user and no truthy cookie afterwards; rows are only removed; the session is emptied, or loses `auth_forced` and the user slot and gets a new id; with `logoutAll` exactly the rows of the found token's user go, otherwise only the found row; without a found row the table is unchanged |
| `Steps.LoggedOutStaysOut` | src/Auth.php:184-187 | after logout `getUser()` needs no lookup, finds nobody and changes nothing, so `loggedIn()` is false |
| `AuthService.Auth.SetUser` | src/Auth.php:94-98 | the user goes into the session slot and the cache |
| `AuthService.Auth.CompleteLogin` | src/Auth.php:234-244 | a new session id, then `setUser`; returns true |
| `AuthService.Auth.SetAutologin` | src/Auth.php:190-201 | the state becomes `Steps.Issued` of the old one |
| `AuthService.Auth.Login` | src/Auth.php:109-136 | the state and result are `Steps.LoginAfter` of the old state |
| `AuthService.Auth.AutoLogin` | src/Auth.php:294-325 | the lookup's row is a valid choice, and the state and result are `Steps.AutoLoginAfter` for it |
| `AuthService.Auth.GetUser` | src/Auth.php:60-87 | the state and result are `Steps.GetUserAfter` of the old state |
| `AuthService.Auth.LoggedIn` | src/Auth.php:208-214 | the state and result are `Steps.LoggedInAfter` of the old state |
| `AuthService.Auth.Revoke` | src/Auth.php:159-171 | the cookie and the found token are removed as `Steps.Revoked` says |
| `AuthService.Auth.EndSession` | src/Auth.php:173-184 | the session is destroyed, or the slot is deleted and the id regenerated; the cache is cleared |
| `AuthService.Auth.Logout` | src/Auth.php:154-188 | the state becomes `Steps.LogoutAfter` of the old one, and the reported result is always true |
| `AuthService.Auth.CheckPassword` | src/Auth.php:254-263 | the state and result are `Steps.CheckPasswordAfter` of the old state |
| `AuthService.Auth.ForceLogin` | src/Auth.php:273-286 | the state becomes `Steps.ForceLoginAfter` of the old one; returns true |

## Left out

- `hash`, `verifyPassword` and the rehash in `on_change` use bcrypt (`password_hash`,
  `password_verify`). That is foreign code, so the model takes it as function parameters.
  No hash/verify round trip is claimed.
- Steps.CheckPasswordAfter: the result is modelled as written, a fresh salted hash
  compared with `===`. It does not claim that the right password passes.
- AuthService.Auth.Hash and AuthService.Auth.VerifyPassword wrap those parameters and
  promise nothing, so they carry no contract.
- The user's `completeLogin()` hook and the session's `Mii::$app` wiring are left out. The hook
  is the application's code and is not part of the repository. `canLogin()` is a field of
  `Identity`.
- Logging (`Mii::error`, `Mii::log`) is left out because it has no effect on the state.
- The configuration overrides through `init()` are left out. The defaults are constants:
  lifetime 2592000, key `misk`, cookie `mitc`, cost 8.
- The session store, the cookie transport and the ORM are collaborators with no logic shown.
  Each is a map. The request's cookies and the response's cookie writes are one jar. The
  session id is a counter. `destroy` empties the slots.
- Users.User.OnChange: `changed('password')` is an ORM flag, modelled as a parameter.
- Users.User.Valid: the role table is a PHP array, so the language keeps each role key once.
  A sequence of pairs does not, so the model takes unique keys as the constructor's
  precondition.
- Every operation is one atomic step. Concurrent requests are not modelled: two requests with
  the same cookie can both pass the lookup (src/Auth.php:303) before either deletes the row
  (src/Auth.php:315), and both log in. Partial failure is not modelled either: a failure after
  the new token is issued (src/Auth.php:310) and before the old row goes would leave both
  tokens valid.
- Rows with the same token string are not ruled out, because the code does not rule them out.
  A lookup may return any of them.
- `mb_strtolower` is modelled on ASCII letters only. Unicode case mapping is not modelled.
- The PHP casts `(int)$this->roles` are left out. Role masks are 64-bit vectors throughout,
  so the casts do nothing.
- The session keeps a value snapshot of the user (`Identity`), not the object itself. Aliasing
  between `_user` and the stored object, and later changes to that object, are not modelled.
- Social.SocialStorage.DeleteMatch: PHP arrays turn decimal-integer string keys such as "5"
  into int keys, and under strict types `strstr` on such a key throws a `TypeError` before
  anything is written back. Keys are strings throughout the model, so that throw is not modelled.
- One `Env.now` stands for every `time()` call of an operation. In `setAutologin` the expiry
  (src/Auth.php:195) and the collection's cutoff (src/Token.php:42) read the clock separately
  and could differ by a second; the model gives both the same instant.
- Users.FindUser and Users.FindById return the first matching user in table order. That order
  stands for whichever row `->one()` returns; the database's actual choice is not modelled.
- Exceptions other than the ones `getUser` catches are left out: persistence failures and an
  unknown role are cases the code does not handle. `add_role`'s `assert` becomes a
  precondition.
- `SocialAuth.php`, `SocialProfile.php`, `UserSocial.php` and `CheckAccess.php` are not part of
  this model. They are OAuth adapters, plain data holders and access-control glue over code
  that is not shown.

## Findings

| source | as written | input that shows it | evidently intended | confidence | as-written member | corrected member |
|---|---|---|---|---|---|---|
| src/SocialStorage.php:61 | `if (strstr($k, $key))` tests the returned suffix for truthiness | key `"ab0"`, needle `"0"`: `strstr` returns `"0"`, which is falsy, so the key is kept | remove every key that contains the needle (`strstr(...) !== false`) | not executed | `Social.ZeroNeedleKeepsMatchingKey` | `Social.SocialStorage.DeleteContaining` |
