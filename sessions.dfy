/** The collaborators the core talks to: the session store and the request's cookies.
    They are not part of the repository; each is a map held in an object, with the
    primitives the core calls. */
module Sessions {
  import opened Php
  import opened Users

  /** What a session slot can hold, as far as the core is concerned: a user object, a
      flag (`auth_forced`), the social-login dictionary, or a payload that cannot be
      read back (its unserialization throws). */
  datatype Payload =
    | UserPayload(user: Identity)
    | Flag(flag: bool)
    | Dictionary(entries: map<string, Option<string>>)
    | Unreadable

  /** The session store. `sid` stands for the session id: `regenerate` changes it. */
  class Session {
    const hasCookie: bool
    var data: map<string, Payload>
    var sid: nat

    constructor (hasCookie: bool, data: map<string, Payload>, sid: nat)
      ensures this.hasCookie == hasCookie && this.data == data && this.sid == sid
    {
      this.hasCookie := hasCookie;
      this.data := data;
      this.sid := sid;
    }

    /** `get($key)`: the slot, or `null` when it is absent. */
    function Get(key: string): (r: Option<Payload>)
      reads this
      ensures r.Some? <==> key in data
      ensures r.Some? ==> r.value == data[key]
    {
      if key in data then Some(data[key]) else None
    }

    method Set(key: string, value: Payload)
      modifies this`data
      ensures data == old(data)[key := value]
    {
      data := data[key := value];
    }

    method Delete(key: string)
      modifies this`data
      ensures data == old(data) - {key}
    {
      data := data - {key};
    }

    /** `regenerate`: a new session id, the same data. */
    method Regenerate()
      modifies this`sid
      ensures sid == old(sid) + 1
    {
      sid := sid + 1;
    }

    /** `destroy`: every slot goes. */
    method Destroy()
      modifies this`data
      ensures data == map[]
    {
      data := map[];
    }
  }

  /** The request's cookie jar, as the client will hold it once the response is sent. */
  class Request {
    var cookies: map<string, string>

    constructor (cookies: map<string, string>)
      ensures this.cookies == cookies
    {
      this.cookies := cookies;
    }

    function GetCookie(name: string): (r: Option<string>)
      reads this
      ensures r.Some? <==> name in cookies
      ensures r.Some? ==> r.value == cookies[name]
    {
      if name in cookies then Some(cookies[name]) else None
    }

    /** `setCookie($name, $value, $lifetime)`; the lifetime is the transport's business. */
    method SetCookie(name: string, value: string, lifetime: int)
      modifies this
      ensures cookies == old(cookies)[name := value]
    {
      cookies := cookies[name := value];
    }

    method DeleteCookie(name: string)
      modifies this
      ensures cookies == old(cookies) - {name}
    {
      cookies := cookies - {name};
    }
  }
}
