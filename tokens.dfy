/** The remember-me token table `user_tokens` and its operations. */
module Tokens {
  import opened Php

  /** A row of `user_tokens`. */
  datatype Token = Token(id: nat, userId: int, token: string, expires: int)

  /** The table, keyed by primary key. */
  type Rows = map<nat, Token>

  /** `b` holds every row of `a`, unchanged. */
  predicate Submap(a: Rows, b: Rows) {
    forall id :: id in a ==> id in b && b[id] == a[id]
  }

  /** `DELETE ... WHERE expires < now`: exactly the rows with `expires < now` go, the rest
      stay unchanged (a row expiring at `now` itself stays). */
  function WithoutExpired(rows: Rows, now: int): (r: Rows)
    ensures Submap(r, rows)
    ensures forall id :: id in rows ==> (id in r <==> rows[id].expires >= now)
  {
    map id | id in rows && !(rows[id].expires < now) :: rows[id]
  }

  /** `DELETE ... WHERE user_id = u`: exactly the rows of user `u` go. */
  function WithoutUser(rows: Rows, u: int): (r: Rows)
    ensures Submap(r, rows)
    ensures forall id :: id in rows ==> (id in r <==> rows[id].userId != u)
  {
    map id | id in rows && rows[id].userId != u :: rows[id]
  }

  /** The garbage collection `onCreate` runs when `mt_rand(1, 100)` drew `roll == 1`. */
  function Collected(rows: Rows, now: int, roll: int): (r: Rows)
    ensures Submap(r, rows)
    ensures forall id :: id in rows && rows[id].expires >= now ==> id in r
    ensures roll == 1 ==> forall id :: id in r ==> r[id].expires >= now
    ensures roll != 1 ==> r == rows
  {
    if roll == 1 then WithoutExpired(rows, now) else rows
  }

  /** The table after creating row `t`: the hook's collection, then the insert. */
  function Inserted(rows: Rows, t: Token, now: int, roll: int): (r: Rows)
    requires t.id !in rows
    ensures t.id in r && r[t.id] == t
    ensures forall id :: id in r && id != t.id ==> id in rows && r[id] == rows[id]
    ensures forall id :: id in rows && rows[id].expires >= now ==> id in r && r[id] == rows[id]
  {
    Collected(rows, now, roll)[t.id := t]
  }

  /** Running `deleteExpired` twice at the same time is running it once. */
  lemma WithoutExpiredIdempotent(rows: Rows, now: int)
    ensures WithoutExpired(WithoutExpired(rows, now), now) == WithoutExpired(rows, now)
  {
  }

  /** Collecting at `a` and then at `b` is collecting once at the later of the two. */
  lemma WithoutExpiredTwice(rows: Rows, a: int, b: int)
    ensures WithoutExpired(WithoutExpired(rows, a), b) == WithoutExpired(rows, if a < b then b else a)
  {
    var lhs := WithoutExpired(WithoutExpired(rows, a), b);
    var rhs := WithoutExpired(rows, if a < b then b else a);
    assert lhs.Keys == rhs.Keys;
  }

  /** Revoking one user's tokens twice is revoking them once, and it commutes with
      collection. */
  lemma WithoutUserCommutes(rows: Rows, u: int, now: int)
    ensures WithoutUser(WithoutUser(rows, u), u) == WithoutUser(rows, u)
    ensures WithoutUser(WithoutExpired(rows, now), u) == WithoutExpired(WithoutUser(rows, u), now)
  {
    assert WithoutUser(WithoutUser(rows, u), u).Keys == WithoutUser(rows, u).Keys;
    assert WithoutUser(WithoutExpired(rows, now), u).Keys == WithoutExpired(WithoutUser(rows, u), now).Keys;
  }

  /** A creation adds exactly one row, and without collection nothing else changes. */
  lemma InsertedAddsOne(rows: Rows, t: Token, now: int, roll: int)
    requires t.id !in rows
    ensures Inserted(rows, t, now, roll).Keys - rows.Keys == {t.id}
    ensures roll != 1 ==> Inserted(rows, t, now, roll) == rows[t.id := t]
  {
    var r := Inserted(rows, t, now, roll);
    assert t.id in r.Keys - rows.Keys;
  }

  /** The token table, as the ORM sees it: rows keyed by an auto-increment id. */
  class TokenTable {
    var rows: Rows
    var nextId: nat

    /** Every row sits under its own id, and ids below `nextId` are the only ones used. */
    ghost predicate Valid()
      reads this
    {
      forall id :: id in rows ==> rows[id].id == id && id < nextId
    }

    constructor (rows: Rows, nextId: nat)
      requires forall id :: id in rows ==> rows[id].id == id && id < nextId
      ensures Valid() && this.rows == rows && this.nextId == nextId
    {
      this.rows := rows;
      this.nextId := nextId;
    }

    /** `(new Token)->set([...])->create()` with the `onCreate` hook: the token string is
        the encoded `random_bytes(24)` draw `secret`, and when `mt_rand(1, 100)` drew
        `roll == 1` the expired rows are collected first. */
    method Create(userId: int, expires: int, secret: string, roll: int, now: int) returns (t: Token)
      requires Valid()
      modifies this
      ensures Valid()
      ensures t == Token(old(nextId), userId, secret, expires)
      ensures t.id !in old(rows) && rows == Inserted(old(rows), t, now, roll)
      ensures nextId == old(nextId) + 1
    {
      if roll == 1 {
        DeleteExpired(now);
      }
      t := Token(nextId, userId, secret, expires);
      rows := rows[t.id := t];
      nextId := nextId + 1;
    }

    /** `deleteExpired` at time `now`. */
    method DeleteExpired(now: int)
      requires Valid()
      modifies this`rows
      ensures Valid()
      ensures rows == WithoutExpired(old(rows), now)
    {
      rows := WithoutExpired(rows, now);
    }

    /** `deleteAllUserTokens`. */
    method DeleteAllUserTokens(u: int)
      requires Valid()
      modifies this`rows
      ensures Valid()
      ensures rows == WithoutUser(old(rows), u)
    {
      rows := WithoutUser(rows, u);
    }

    /** `$token->delete()`: the row with that primary key goes. */
    method Delete(id: nat)
      requires Valid()
      modifies this`rows
      ensures Valid()
      ensures rows == old(rows) - {id}
    {
      rows := rows - {id};
    }

    /** `getToken`: a row whose token string equals `s`, or `null` when there is none
        (`->one()` picks one when several match). */
    method GetToken(s: string) returns (r: Option<Token>)
      ensures r.Some? <==> exists id :: id in rows && rows[id].token == s
      ensures r.Some? ==> r.value in rows.Values && r.value.token == s
    {
      if id :| id in rows && rows[id].token == s {
        r := Some(rows[id]);
      } else {
        r := None;
      }
    }
  }
}
