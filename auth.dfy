/** The authentication service: the cached user, the session, the cookie jar and the
    token table, changed step by step as the source does. Each method is proved to take
    `State()` where the matching function of module `Steps` says. */
module AuthService {
  import opened Php
  import opened Users
  import opened Tokens
  import opened Sessions
  import opened Steps

  class Auth {
    const session: Session
    const request: Request
    const tokens: TokenTable
    /** The user table `findUser` and `User::one` read. */
    const users: seq<Identity>
    /** `password_verify` and `password_hash(password, cost, salt)`: bcrypt is foreign. */
    const verify: (string, string) -> bool
    const hash: (string, int, string) -> string
    /** `_user` */
    var user: Option<Identity>

    ghost function State(): World
      reads this, session, request, tokens
    {
      World(user, session.data, session.sid, request.cookies, tokens.rows, tokens.nextId)
    }

    ghost predicate Valid()
      reads this, tokens
    {
      tokens.Valid()
    }

    constructor (session: Session, request: Request, tokens: TokenTable, users: seq<Identity>,
                 verify: (string, string) -> bool, hash: (string, int, string) -> string)
      requires tokens.Valid()
      ensures Valid()
      ensures this.session == session && this.request == request && this.tokens == tokens
      ensures this.users == users && this.verify == verify && this.hash == hash && user.None?
    {
      this.session := session;
      this.request := request;
      this.tokens := tokens;
      this.users := users;
      this.verify := verify;
      this.hash := hash;
      user := None;
    }

    /** `hash`: bcrypt at the configured cost, with a salt drawn by `password_hash`. */
    function Hash(password: string, salt: string): string
      reads this
    {
      hash(password, HashCost, salt)
    }

    /** `verifyPassword` */
    function VerifyPassword(password: string, stored: string): bool
      reads this
    {
      verify(password, stored)
    }

    /** `setUser` */
    method SetUser(u: Identity)
      modifies this`user, session`data
      ensures State() == WithUser(old(State()), u)
    {
      session.Set(SessionKey, UserPayload(u));
      user := Some(u);
    }

    /** `completeLogin`: regenerate, then `setUser`. The user's own `completeLogin` hook
        is the application's and is not modelled. */
    method CompleteLogin(u: Identity) returns (ok: bool)
      modifies this`user, session`data, session`sid
      ensures ok && State() == Completed(old(State()), u)
    {
      session.Regenerate();
      SetUser(u);
      ok := true;
    }

    /** `setAutologin` */
    method SetAutologin(userId: int, env: Env)
      requires Valid()
      modifies tokens, request
      ensures Valid()
      ensures State() == Issued(old(State()), userId, env)
    {
      var t := tokens.Create(userId, env.now + Lifetime, env.secret, env.roll, env.now);
      request.SetCookie(TokenCookie, t.token, Lifetime);
    }

    /** `login` */
    method Login(username: string, password: string, remember: bool, env: Env) returns (ok: bool)
      requires Valid()
      modifies this`user, session`data, session`sid, tokens, request
      ensures Valid()
      ensures (State(), ok) == LoginAfter(old(State()), users, verify, username, password, remember, env)
    {
      if Falsy(password) {
        return false;
      }
      var name := Lower(username);
      var found := FindUser(users, name);
      if found.None? {
        return false;
      }
      var u := found.value;
      if u.id != 0 && u.canLogin && VerifyPassword(password, u.password) {
        if remember {
          SetAutologin(u.id, env);
        }
        ok := CompleteLogin(u);
        return true;
      }
      return false;
    }

    /** `autoLogin`; `pick` is the row the token lookup returned. */
    method AutoLogin(env: Env) returns (r: Option<Identity>, ghost pick: Option<nat>)
      requires Valid()
      modifies this`user, session`data, session`sid, tokens, request
      ensures Valid()
      ensures Picks(old(State()), pick)
      ensures (State(), r) == AutoLoginAfter(old(State()), users, env, pick)
    {
      var c := request.GetCookie(TokenCookie);
      if c.None? || Falsy(c.value) {
        return None, None;
      }
      var t := tokens.GetToken(c.value);
      if t.Some? {
        assert tokens.rows[t.value.id] == t.value;
        pick := Some(t.value.id);
        var found := FindById(users, t.value.userId);
        if found.Some? {
          SetAutologin(t.value.userId, env);
          var _ := CompleteLogin(found.value);
          tokens.Delete(t.value.id);
          return found, pick;
        }
      } else {
        pick := None;
      }
      request.DeleteCookie(TokenCookie);
      r := None;
    }

    /** `getUser(autoLogin)` */
    method GetUser(autoLogin: bool, env: Env) returns (r: Option<Identity>, ghost pick: Option<nat>)
      requires Valid()
      modifies this`user, session`data, session`sid, tokens, request
      ensures Valid()
      ensures ReadsToken(old(State()), session.hasCookie, autoLogin) ==> Picks(old(State()), pick)
      ensures (State(), r) == GetUserAfter(old(State()), session.hasCookie, users, autoLogin, env, pick)
    {
      pick := None;
      if user.Some? {
        return user, pick;
      }
      if session.hasCookie {
        var slot := session.Get(SessionKey);
        if slot.Some? && !slot.value.UserPayload? {
          user := None;
          session.Delete(SessionKey);
          return None, pick;
        }
        user := if slot.Some? then Some(slot.value.user) else None;
      }
      var c := request.GetCookie(TokenCookie);
      if autoLogin && user.None? && c.Some? && !Falsy(c.value) {
        var _, p := AutoLogin(env);
        pick := p;
      }
      if user.Some? && user.value.id == 0 {
        user := None;
      }
      r := user;
    }

    /** `loggedIn(role)` */
    method LoggedIn(role: Option<RoleQuery>, env: Env) returns (b: bool, ghost pick: Option<nat>)
      requires Valid()
      modifies this`user, session`data, session`sid, tokens, request
      ensures Valid()
      ensures ReadsToken(old(State()), session.hasCookie, true) ==> Picks(old(State()), pick)
      ensures (State(), b) == LoggedInAfter(old(State()), session.hasCookie, users, role, env, pick)
    {
      var u;
      u, pick := GetUser(true, env);
      b := u.Some? && (role.None? || HoldsAny(u.value.roles, AsList(role.value)));
    }

    /** The remember-me part of `logout`; `pick` is the row `getToken` returned. */
    method Revoke(logoutAll: bool) returns (ghost pick: Option<nat>)
      requires Valid()
      modifies tokens, request
      ensures Valid()
      ensures Picks(old(State()), pick)
      ensures State() == Revoked(old(State()), logoutAll, pick)
    {
      pick := None;
      var c := request.GetCookie(TokenCookie);
      if c.Some? && !Falsy(c.value) {
        request.DeleteCookie(TokenCookie);
        var t := tokens.GetToken(c.value);
        if t.Some? {
          assert tokens.rows[t.value.id] == t.value;
          pick := Some(t.value.id);
        }
        if logoutAll && t.Some? {
          tokens.DeleteAllUserTokens(t.value.userId);
        } else if t.Some? {
          tokens.Delete(t.value.id);
        }
      }
    }

    /** The session part of `logout`. */
    method EndSession(destroy: bool)
      modifies this`user, session`data, session`sid
      ensures State() == Ended(old(State()), destroy)
    {
      if destroy {
        session.Destroy();
      } else {
        session.Delete(SessionKey);
        session.Regenerate();
      }
      user := None;
    }

    /** `logout(destroy, logoutAll)`; it reports success exactly when `loggedIn()` is false
        afterwards, which it always is. */
    method Logout(destroy: bool, logoutAll: bool) returns (ok: bool, ghost pick: Option<nat>)
      requires Valid()
      modifies this`user, session`data, session`sid, tokens, request
      ensures Valid()
      ensures Picks(old(State()), pick)
      ensures ok && State() == LogoutAfter(old(State()), destroy, logoutAll, pick)
    {
      ghost var w := State();
      session.Delete(AuthForced);
      ghost var w0 := State();
      assert w0 == w.(data := w.data - {AuthForced});
      pick := Revoke(logoutAll);
      ghost var w1 := State();
      assert w1 == Revoked(w0, logoutAll, pick);
      EndSession(destroy);
      assert State() == Ended(w1, destroy);
      assert State() == LogoutAfter(w, destroy, logoutAll, pick);
      var loggedIn;
      ghost var pick';
      loggedIn, pick' := LoggedIn(None, env0);
      LoggedOutStaysOut(w, destroy, logoutAll, pick, session.hasCookie, users, None, env0, pick');
      ok := !loggedIn;
    }

    /** `checkPassword(password)`; `env.salt` is the salt the fresh hash draws. */
    method CheckPassword(password: string, env: Env) returns (b: bool, ghost pick: Option<nat>)
      requires Valid()
      modifies this`user, session`data, session`sid, tokens, request
      ensures Valid()
      ensures ReadsToken(old(State()), session.hasCookie, true) ==> Picks(old(State()), pick)
      ensures (State(), b) == CheckPasswordAfter(old(State()), session.hasCookie, users, hash, password, env, pick)
    {
      var u;
      u, pick := GetUser(true, env);
      if u.None? {
        return false, pick;
      }
      b := Hash(password, env.salt) == u.value.password;
    }

    /** `forceLogin(u, mark)` */
    method ForceLogin(u: Identity, mark: bool, env: Env) returns (ok: bool)
      requires Valid()
      modifies this`user, session`data, session`sid, tokens, request
      ensures Valid()
      ensures ok && State() == ForceLoginAfter(old(State()), u, mark, env)
    {
      if mark {
        session.Set(AuthForced, Flag(true));
      }
      SetAutologin(u.id, env);
      ok := CompleteLogin(u);
    }
  }

  /** Any draw will do for the `loggedIn()` at the end of `logout`: it creates no token. */
  const env0: Env := Env(0, "", 0, "")
}
