/** The authentication service's effect on the state it touches, as pure functions: the
    cached user, the session slots and id, the cookie jar and the token table. The
    `AuthService.Auth` methods are proved to take the state from `w` to these results,
    and the lemmas here state what the source promises about them. */
module Steps {
  import opened Php
  import opened Bits
  import opened Users
  import opened Tokens
  import opened Sessions

  /** The service's defaults. */
  const Lifetime: int := 2592000
  const SessionKey: string := "misk"
  const TokenCookie: string := "mitc"
  const AuthForced: string := "auth_forced"

  /** What a call draws from outside: `time()`, the encoded `random_bytes(24)` of a new
      token, the `mt_rand(1, 100)` roll, and the salt `password_hash` picks. */
  datatype Env = Env(now: int, secret: string, roll: int, salt: string)

  /** The state the service reads and changes. `user` is the cached `_user`. */
  datatype World = World(
    user: Option<Identity>,
    data: map<string, Payload>,
    sid: nat,
    cookies: map<string, string>,
    rows: Rows,
    nextId: nat)

  /** The token table's auto-increment discipline. */
  predicate WellFormed(w: World) {
    forall id :: id in w.rows ==> w.rows[id].id == id && id < w.nextId
  }

  /** The remember-me cookie, when it is present and truthy. */
  function RememberToken(w: World): (r: Option<string>)
    ensures r.Some? <==> TokenCookie in w.cookies && !Falsy(w.cookies[TokenCookie])
    ensures r.Some? ==> r.value == w.cookies[TokenCookie]
  {
    if TokenCookie in w.cookies && !Falsy(w.cookies[TokenCookie]) then Some(w.cookies[TokenCookie]) else None
  }

  /** `pick` is a row the lookup by the cookie's token string may return (`->one()` picks
      any of several), `None` only when no row carries it, and no row when there is no
      truthy cookie to look up. */
  predicate Picks(w: World, pick: Option<nat>) {
    match RememberToken(w)
    case None => pick.None?
    case Some(c) =>
      (pick.Some? ==> pick.value in w.rows && w.rows[pick.value].token == c) &&
      (pick.None? ==> forall id :: id in w.rows ==> w.rows[id].token != c)
  }

  /** `setAutologin(userId)`: one row is created for the user, expiring a lifetime from
      now (after the hook's occasional collection), and the cookie is set to its token. */
  function Issued(w: World, userId: int, env: Env): (r: World)
    requires WellFormed(w)
    ensures WellFormed(r)
    ensures r.rows.Keys - w.rows.Keys == {w.nextId}
    ensures r.rows[w.nextId] == Token(w.nextId, userId, env.secret, env.now + Lifetime)
    ensures forall id :: id in r.rows && id != w.nextId ==> id in w.rows && r.rows[id] == w.rows[id]
    ensures forall id :: id in w.rows && w.rows[id].expires >= env.now ==> id in r.rows && r.rows[id] == w.rows[id]
    ensures r.cookies == w.cookies[TokenCookie := env.secret] && r.nextId == w.nextId + 1
  {
    var t := Token(w.nextId, userId, env.secret, env.now + Lifetime);
    InsertedAddsOne(w.rows, t, env.now, env.roll);
    w.(rows := Inserted(w.rows, t, env.now, env.roll), nextId := w.nextId + 1,
       cookies := w.cookies[TokenCookie := env.secret])
  }

  /** `setUser`: the user goes into the session slot and the cache. */
  function WithUser(w: World, u: Identity): (r: World)
    ensures r.user == Some(u) && SessionKey in r.data && r.data[SessionKey] == UserPayload(u)
    ensures forall k :: k != SessionKey ==> (k in r.data <==> k in w.data)
    ensures forall k :: k != SessionKey && k in w.data ==> r.data[k] == w.data[k]
    ensures r.sid == w.sid && r.cookies == w.cookies && r.rows == w.rows && r.nextId == w.nextId
  {
    w.(user := Some(u), data := w.data[SessionKey := UserPayload(u)])
  }

  /** `completeLogin`: a new session id, then `setUser`. */
  function Completed(w: World, u: Identity): (r: World)
    ensures r.(sid := w.sid) == WithUser(w, u)
    ensures r.sid == w.sid + 1 && r.user == Some(u) && r.data == w.data[SessionKey := UserPayload(u)]
  {
    WithUser(w.(sid := w.sid + 1), u)
  }

  /** The Auth-side gate of `login` for a found user: a truthy id, `canLogin()`, and
      the password verifying against the stored hash. */
  predicate Admits(u: Identity, verify: (string, string) -> bool, password: string) {
    u.id != 0 && u.canLogin && verify(password, u.password)
  }

  /** `login(username, password, remember)`. */
  function LoginAfter(w: World, users: seq<Identity>, verify: (string, string) -> bool,
                      username: string, password: string, remember: bool, env: Env): (r: (World, bool))
    requires WellFormed(w)
    ensures WellFormed(r.0)
    ensures Falsy(password) ==> !r.1
    ensures !r.1 ==> r.0 == w
    ensures r.1 <==> !Falsy(password) && FindUser(users, Lower(username)).Some? &&
                     Admits(FindUser(users, Lower(username)).value, verify, password)
    ensures r.1 ==>
      r.0.user == FindUser(users, Lower(username)) &&
      r.0.user.Some? && r.0.user.value in users && r.0.user.value.username == Lower(username) &&
      r.0.data == w.data[SessionKey := UserPayload(r.0.user.value)] && r.0.sid == w.sid + 1
    ensures r.1 && remember ==>
      r.0.rows.Keys - w.rows.Keys == {w.nextId} &&
      r.0.rows[w.nextId] == Token(w.nextId, r.0.user.value.id, env.secret, env.now + Lifetime) &&
      r.0.cookies == w.cookies[TokenCookie := env.secret] && r.0.nextId == w.nextId + 1
    ensures r.1 && remember ==>
      (forall id :: id in r.0.rows && id != w.nextId ==> id in w.rows && r.0.rows[id] == w.rows[id]) &&
      (forall id :: id in w.rows && w.rows[id].expires >= env.now ==> id in r.0.rows && r.0.rows[id] == w.rows[id])
    ensures r.1 && !remember ==> r.0.rows == w.rows && r.0.nextId == w.nextId && r.0.cookies == w.cookies
  {
    if Falsy(password) then (w, false)
    else
      match FindUser(users, Lower(username))
      case None => (w, false)
      case Some(u) =>
        if Admits(u, verify, password) then
          (Completed(if remember then Issued(w, u.id, env) else w, u), true)
        else (w, false)
  }

  /** The user name is lower-cased before the lookup, so its case does not matter. */
  lemma {:induction false} LoginIgnoresCase(w: World, users: seq<Identity>, verify: (string, string) -> bool,
                                            username: string, password: string, remember: bool, env: Env)
    requires WellFormed(w)
    ensures LoginAfter(w, users, verify, Lower(username), password, remember, env) ==
            LoginAfter(w, users, verify, username, password, remember, env)
  {
    LowerIdempotent(username);
  }

  /** `autoLogin` when the lookup returned row `pick`. */
  function AutoLoginAfter(w: World, users: seq<Identity>, env: Env, pick: Option<nat>): (r: (World, Option<Identity>))
    requires WellFormed(w) && Picks(w, pick)
    ensures WellFormed(r.0)
    ensures RememberToken(w).None? ==> r == (w, None)
    ensures r.1.Some? ==>
      r.0.user == r.1 && r.0.data == w.data[SessionKey := UserPayload(r.1.value)] && r.0.sid == w.sid + 1 &&
      r.0.cookies == w.cookies[TokenCookie := env.secret] && r.0.nextId == w.nextId + 1 &&
      r.0.rows.Keys - w.rows.Keys == {w.nextId}
    ensures r.1.Some? ==>
      pick.Some? && pick.value !in r.0.rows && FindById(users, w.rows[pick.value].userId) == r.1 &&
      r.0.rows[w.nextId] == Token(w.nextId, w.rows[pick.value].userId, env.secret, env.now + Lifetime)
    ensures r.1.Some? ==>
      forall id :: id in w.rows && id !in r.0.rows ==>
        id == pick.value || (env.roll == 1 && w.rows[id].expires < env.now)
    ensures r.1.Some? ==>
      forall id :: id in r.0.rows && id != w.nextId ==> id in w.rows && r.0.rows[id] == w.rows[id]
    ensures r.1.None? && RememberToken(w).Some? ==> r.0 == w.(cookies := w.cookies - {TokenCookie})
    ensures r.1.None? && RememberToken(w).Some? ==>
      pick.None? || FindById(users, w.rows[pick.value].userId).None?
  {
    if RememberToken(w).None? then (w, None)
    else if pick.Some? && FindById(users, w.rows[pick.value].userId).Some? then
      var id := pick.value;
      var u := FindById(users, w.rows[id].userId).value;
      var w1 := Completed(Issued(w, w.rows[id].userId, env), u);
      (w1.(rows := w1.rows - {id}), Some(u))
    else (w.(cookies := w.cookies - {TokenCookie}), None)
  }

  /** After a successful automatic login the consumed token string is gone: when it was
      carried by one row only and the new token differs from it, presenting the old
      cookie again finds no row, so a second `autoLogin` with it fails. */
  lemma {:induction false} AutoLoginConsumesToken(w: World, users: seq<Identity>, env: Env, pick: Option<nat>,
                                                  pick': Option<nat>)
    requires WellFormed(w) && Picks(w, pick)
    requires RememberToken(w).Some? && env.secret != RememberToken(w).value
    requires pick.Some? ==> forall id :: id in w.rows && id != pick.value ==> w.rows[id].token != RememberToken(w).value
    requires AutoLoginAfter(w, users, env, pick).1.Some?
    requires Picks(AutoLoginAfter(w, users, env, pick).0.(cookies := w.cookies), pick')
    ensures pick' == None
    ensures AutoLoginAfter(AutoLoginAfter(w, users, env, pick).0.(cookies := w.cookies), users, env, pick').1 == None
  {
    var c := RememberToken(w).value;
    var w1 := AutoLoginAfter(w, users, env, pick).0;
    var replay := w1.(cookies := w.cookies);
    assert RememberToken(replay) == Some(c);
    forall id | id in replay.rows
      ensures replay.rows[id].token != c
    {
      if id in w.rows {
        assert id != pick.value;
        if id != w.nextId {
          assert replay.rows[id] == w.rows[id];
        }
      }
    }
  }

  /** The rotation scenario: user 7 ("alice") presents the cookie "abc" of her only
      token, which has not expired. She is logged in, "abc" is no longer stored, and exactly
      one token of user 7 is, the fresh one set as the cookie. */
  lemma AliceRotates(now: int, hashValue: string, env: Env)
    requires env.now == now && env.secret != "abc"
    ensures
      var alice := Identity(7, "alice", hashValue, 0, true);
      var w := World(None, map[], 0, map[TokenCookie := "abc"], map[1 := Token(1, 7, "abc", now + Lifetime)], 2);
      var r := AutoLoginAfter(w, [alice], env, Some(1));
      r.1 == Some(alice) &&
      (forall id :: id in r.0.rows ==> r.0.rows[id].token != "abc") &&
      (forall id :: id in r.0.rows && r.0.rows[id].userId == 7 ==> id == 2) &&
      r.0.rows[2] == Token(2, 7, env.secret, now + Lifetime) &&
      r.0.cookies[TokenCookie] == env.secret
  {
    var alice := Identity(7, "alice", hashValue, 0, true);
    var w := World(None, map[], 0, map[TokenCookie := "abc"], map[1 := Token(1, 7, "abc", now + Lifetime)], 2);
    assert "abc"[0] != "0"[0];
    assert RememberToken(w) == Some("abc");
    assert FindById([alice], 7) == Some(alice);
  }

  /** Two rows carry "abc": row 1 of user 1, live, and row 2 of user 2, expired. Whichever
      row the lookup returns decides who is logged in, and without collection the other row
      stays. */
  lemma DuplicateTokenFollowsPick(env: Env)
    requires env.roll != 1 && env.secret != "abc"
    ensures
      var u1, u2 := Identity(1, "u1", "", 0, true), Identity(2, "u2", "", 0, true);
      var w := World(None, map[], 0, map[TokenCookie := "abc"],
                     map[1 := Token(1, 1, "abc", env.now + Lifetime), 2 := Token(2, 2, "abc", env.now - 1)], 3);
      var r1, r2 := AutoLoginAfter(w, [u1, u2], env, Some(1)), AutoLoginAfter(w, [u1, u2], env, Some(2));
      r1.1 == Some(u1) && 1 !in r1.0.rows && 2 in r1.0.rows &&
      r2.1 == Some(u2) && 2 !in r2.0.rows && 1 in r2.0.rows
  {
    var u1, u2 := Identity(1, "u1", "", 0, true), Identity(2, "u2", "", 0, true);
    assert "abc"[0] != "0"[0];
    assert FindById([u1, u2], 1) == Some(u1);
    assert FindById([u1, u2], 2) == Some(u2);
  }

  /** The session slot `getUser` reads; without a session cookie nothing is read. */
  function Slot(w: World, hasCookie: bool): (r: Option<Payload>)
    ensures r.Some? <==> hasCookie && SessionKey in w.data
    ensures r.Some? ==> r.value == w.data[SessionKey]
  {
    if hasCookie && SessionKey in w.data then Some(w.data[SessionKey]) else None
  }

  /** `getUser` reaches the remember-me lookup: nothing cached, nothing in the session,
      automatic login asked for and a truthy cookie. */
  predicate ReadsToken(w: World, hasCookie: bool, autoLogin: bool) {
    w.user.None? && Slot(w, hasCookie).None? && autoLogin && RememberToken(w).Some?
  }

  /** `getUser(autoLogin)`, with `pick` the row the remember-me lookup returned if it ran. */
  function GetUserAfter(w: World, hasCookie: bool, users: seq<Identity>, autoLogin: bool, env: Env,
                        pick: Option<nat>): (r: (World, Option<Identity>))
    requires WellFormed(w)
    requires ReadsToken(w, hasCookie, autoLogin) ==> Picks(w, pick)
    ensures WellFormed(r.0)
    ensures r.1 == r.0.user
    ensures w.user.Some? ==> r == (w, w.user)
    ensures w.user.None? && Slot(w, hasCookie).Some? && !Slot(w, hasCookie).value.UserPayload? ==>
      r == (w.(data := w.data - {SessionKey}), None)
    ensures w.user.None? && Slot(w, hasCookie).Some? && Slot(w, hasCookie).value.UserPayload? ==>
      var u := Slot(w, hasCookie).value.user;
      r.0 == w.(user := if u.id != 0 then Some(u) else None)
    ensures w.user.None? && Slot(w, hasCookie).None? && !ReadsToken(w, hasCookie, autoLogin) ==> r == (w, None)
    ensures ReadsToken(w, hasCookie, autoLogin) ==>
      var a := AutoLoginAfter(w, users, env, pick);
      r.0 == a.0.(user := r.1) && r.1 == (if a.1.Some? && a.1.value.id != 0 then a.1 else None)
    ensures w.user.None? && r.1.Some? ==> r.1.value.id != 0
  {
    if w.user.Some? then (w, w.user)
    else
      var slot := Slot(w, hasCookie);
      if slot.Some? && !slot.value.UserPayload? then (w.(data := w.data - {SessionKey}), None)
      else
        var w1 := w.(user := if slot.Some? then Some(slot.value.user) else None);
        var w2 := if autoLogin && w1.user.None? && RememberToken(w1).Some?
          then AutoLoginAfter(w1, users, env, pick).0 else w1;
        var w3 := if w2.user.Some? && w2.user.value.id == 0 then w2.(user := None) else w2;
        (w3, w3.user)
  }

  /** `loggedIn(role)`: `getUser()` found someone, holding one of the roles if any were asked for. */
  function LoggedInAfter(w: World, hasCookie: bool, users: seq<Identity>, role: Option<RoleQuery>, env: Env,
                         pick: Option<nat>): (r: (World, bool))
    requires WellFormed(w)
    requires ReadsToken(w, hasCookie, true) ==> Picks(w, pick)
    ensures WellFormed(r.0)
    ensures r.0 == GetUserAfter(w, hasCookie, users, true, env, pick).0
    ensures r.1 <==> r.0.user.Some? && (role.None? || HoldsAny(r.0.user.value.roles, AsList(role.value)))
    ensures r.0.user.Some? && role.Some? && role.value.One? ==>
      (r.1 <==> Shares(r.0.user.value.roles, role.value.role))
  {
    var g := GetUserAfter(w, hasCookie, users, true, env, pick);
    assert g.1.Some? && role.Some? && role.value.One? ==> AsList(role.value)[0] == role.value.role;
    (g.0, g.1.Some? && (role.None? || HoldsAny(g.1.value.roles, AsList(role.value))))
  }

  /** `checkPassword(password)`: false without a user, otherwise a fresh hash of the
      password compared with the stored one. */
  function CheckPasswordAfter(w: World, hasCookie: bool, users: seq<Identity>, hash: (string, int, string) -> string,
                              password: string, env: Env, pick: Option<nat>): (r: (World, bool))
    requires WellFormed(w)
    requires ReadsToken(w, hasCookie, true) ==> Picks(w, pick)
    ensures WellFormed(r.0)
    ensures r.0 == GetUserAfter(w, hasCookie, users, true, env, pick).0
    ensures r.0.user.None? ==> !r.1
    ensures r.1 <==> r.0.user.Some? && r.0.user.value.password == hash(password, HashCost, env.salt)
  {
    var g := GetUserAfter(w, hasCookie, users, true, env, pick);
    (g.0, g.1.Some? && hash(password, HashCost, env.salt) == g.1.value.password)
  }

  /** `forceLogin(u, mark)`: no password, always a new token, optionally the
      `auth_forced` flag. */
  function ForceLoginAfter(w: World, u: Identity, mark: bool, env: Env): (r: World)
    requires WellFormed(w)
    ensures WellFormed(r)
    ensures r.user == Some(u) && r.sid == w.sid + 1
    ensures r.data == (if mark then w.data[AuthForced := Flag(true)] else w.data)[SessionKey := UserPayload(u)]
    ensures r.rows.Keys - w.rows.Keys == {w.nextId}
    ensures r.rows[w.nextId] == Token(w.nextId, u.id, env.secret, env.now + Lifetime)
    ensures forall id :: id in r.rows && id != w.nextId ==> id in w.rows && r.rows[id] == w.rows[id]
    ensures forall id :: id in w.rows && w.rows[id].expires >= env.now ==> id in r.rows && r.rows[id] == w.rows[id]
    ensures r.cookies == w.cookies[TokenCookie := env.secret] && r.nextId == w.nextId + 1
  {
    var w1 := if mark then w.(data := w.data[AuthForced := Flag(true)]) else w;
    Completed(Issued(w1, u.id, env), u)
  }

  /** The remember-me part of `logout`: a truthy cookie is deleted, and the row `getToken`
      returned for it goes, or with `logoutAll` every row of that row's user. */
  function Revoked(w: World, logoutAll: bool, pick: Option<nat>): (r: World)
    requires Picks(w, pick)
    ensures RememberToken(r).None?
    ensures r.user == w.user && r.data == w.data && r.sid == w.sid && r.nextId == w.nextId
    ensures RememberToken(w).None? ==> r == w
    ensures RememberToken(w).Some? ==> r.cookies == w.cookies - {TokenCookie}
    ensures pick.None? ==> r.rows == w.rows
    ensures pick.Some? && logoutAll ==>
      forall id :: id in w.rows ==> (id in r.rows <==> w.rows[id].userId != w.rows[pick.value].userId)
    ensures pick.Some? && !logoutAll ==> r.rows == w.rows - {pick.value}
    ensures forall id :: id in r.rows ==> id in w.rows && r.rows[id] == w.rows[id]
  {
    if RememberToken(w).None? then w
    else
      var rows :=
        if pick.None? then w.rows
        else if logoutAll then WithoutUser(w.rows, w.rows[pick.value].userId)
        else w.rows - {pick.value};
      w.(cookies := w.cookies - {TokenCookie}, rows := rows)
  }

  /** The session part of `logout`: the session is destroyed, or the user's slot goes and
      the id is regenerated; the cached user is dropped either way. */
  function Ended(w: World, destroy: bool): (r: World)
    ensures r.user.None? && SessionKey !in r.data
    ensures destroy ==> r.data == map[] && r.sid == w.sid
    ensures !destroy ==> r.data == w.data - {SessionKey} && r.sid == w.sid + 1
    ensures r.cookies == w.cookies && r.rows == w.rows && r.nextId == w.nextId
  {
    if destroy then w.(data := map[], user := None)
    else w.(data := w.data - {SessionKey}, sid := w.sid + 1, user := None)
  }

  /** `logout(destroy, logoutAll)`, with `pick` the row `getToken` returned for a truthy cookie. */
  function LogoutAfter(w: World, destroy: bool, logoutAll: bool, pick: Option<nat>): (r: World)
    requires WellFormed(w) && Picks(w, pick)
    ensures WellFormed(r)
    ensures r.user.None? && RememberToken(r).None? && r.nextId == w.nextId
    ensures destroy ==> r.data == map[] && r.sid == w.sid
    ensures !destroy ==> r.data == w.data - {AuthForced, SessionKey} && r.sid == w.sid + 1
    ensures RememberToken(w).None? ==> r.cookies == w.cookies && r.rows == w.rows
    ensures RememberToken(w).Some? ==> r.cookies == w.cookies - {TokenCookie}
    ensures pick.None? ==> r.rows == w.rows
    ensures pick.Some? && logoutAll ==>
      forall id :: id in w.rows ==> (id in r.rows <==> w.rows[id].userId != w.rows[pick.value].userId)
    ensures pick.Some? && !logoutAll ==> r.rows == w.rows - {pick.value}
    ensures forall id :: id in r.rows ==> id in w.rows && r.rows[id] == w.rows[id]
  {
    Ended(Revoked(w.(data := w.data - {AuthForced}), logoutAll, pick), destroy)
  }

  /** The double check at the end of `logout`: afterwards `getUser` finds nobody, needs
      no lookup, and changes nothing, so `loggedIn()` is false. */
  lemma {:induction false} LoggedOutStaysOut(w: World, destroy: bool, logoutAll: bool, pick: Option<nat>,
                                             hasCookie: bool, users: seq<Identity>, role: Option<RoleQuery>, env: Env,
                                             pick': Option<nat>)
    requires WellFormed(w) && Picks(w, pick)
    ensures !ReadsToken(LogoutAfter(w, destroy, logoutAll, pick), hasCookie, true)
    ensures GetUserAfter(LogoutAfter(w, destroy, logoutAll, pick), hasCookie, users, true, env, pick') ==
            (LogoutAfter(w, destroy, logoutAll, pick), None)
    ensures LoggedInAfter(LogoutAfter(w, destroy, logoutAll, pick), hasCookie, users, role, env, pick') ==
            (LogoutAfter(w, destroy, logoutAll, pick), false)
  {
    var r := LogoutAfter(w, destroy, logoutAll, pick);
    assert SessionKey !in r.data;
    assert Slot(r, hasCookie).None?;
  }
}
