/** The social-login key-value storage: one session slot, `SOCIALKEYS`, holds a
    dictionary that every operation reads, changes and writes back. */
module Social {
  import opened Php
  import opened Sessions

  const SocialKeys: string := "SOCIALKEYS"

  type Bag = map<string, Option<string>>

  /** `session->get(SOCIAL_KEYS, [])`: the dictionary in the slot, or the empty one. */
  function BagOf(data: map<string, Payload>): (r: Bag)
    ensures SocialKeys !in data ==> r == map[]
    ensures SocialKeys in data && data[SocialKeys].Dictionary? ==> r == data[SocialKeys].entries
  {
    if SocialKeys in data && data[SocialKeys].Dictionary? then data[SocialKeys].entries else map[]
  }

  /** `$keys[$key] ?? null`: absent and `null` entries both read as `null`. */
  function Lookup(bag: Bag, key: string): (r: Option<string>)
    ensures r.Some? <==> IsSet(bag, key)
    ensures key !in bag ==> r.None?
    ensures key in bag ==> r == bag[key]
  {
    if key in bag then bag[key] else None
  }

  /** `isset($keys[$key])` */
  predicate IsSet(bag: Bag, key: string): (b: bool)
    ensures b ==> key in bag
    ensures key in bag ==> (b <==> bag[key] != None)
  {
    key in bag && bag[key].Some?
  }

  /** What `deleteMatch` keeps, as written: the entries whose key makes `strstr($k, $needle)`
      falsy. */
  function MatchRemoved(bag: Bag, needle: string): (r: Bag)
    ensures forall k :: k in r <==> k in bag && !Truthy(Strstr(k, needle))
    ensures forall k :: k in r ==> r[k] == bag[k]
  {
    map k | k in bag && !Truthy(Strstr(k, needle)) :: bag[k]
  }

  /** What `deleteMatch` is for, testing `strstr(...) !== false`: exactly the entries whose
      key does not contain the needle stay. */
  function WithoutContaining(bag: Bag, needle: string): (r: Bag)
    ensures forall k :: k in r <==> k in bag && !Contains(k, needle)
    ensures forall k :: k in r ==> r[k] == bag[k]
  {
    forall k | k in bag ensures Strstr(k, needle).Some? <==> Contains(k, needle) {
      StrstrFindsIffContains(k, needle);
    }
    map k | k in bag && Strstr(k, needle).None? :: bag[k]
  }

  /** For every needle other than "" and "0" the loop as written does what was meant. */
  lemma MatchRemovedIsWithoutContaining(bag: Bag, needle: string)
    requires !Falsy(needle)
    ensures MatchRemoved(bag, needle) == WithoutContaining(bag, needle)
  {
    forall k | k in bag
      ensures Truthy(Strstr(k, needle)) <==> Contains(k, needle)
    {
      StrstrTruthyIffContains(k, needle);
    }
  }

  /** With the needle "0", a key whose only "0" is its last character survives
      `deleteMatch` (`strstr` returns the falsy string "0"), though it contains the needle. */
  lemma ZeroNeedleKeepsMatchingKey(v: Option<string>)
    ensures Contains("ab0", "0")
    ensures MatchRemoved(map["ab0" := v], "0") == map["ab0" := v]
    ensures WithoutContaining(map["ab0" := v], "0") == map[]
  {
    assert "ab0"[2..] == "0";
    assert Strstr("ab0", "0") == Some("0") by {
      assert "ab0"[0] != "0"[0] && "ab0"[1..] == "b0";
      assert "b0"[0] != "0"[0] && "b0"[1..] == "0";
    }
  }

  /** Removing the matching keys a second time removes nothing more. */
  lemma MatchRemovedIdempotent(bag: Bag, needle: string)
    ensures MatchRemoved(MatchRemoved(bag, needle), needle) == MatchRemoved(bag, needle)
  {
    assert MatchRemoved(MatchRemoved(bag, needle), needle).Keys == MatchRemoved(bag, needle).Keys;
  }

  lemma WithoutContainingIdempotent(bag: Bag, needle: string)
    ensures WithoutContaining(WithoutContaining(bag, needle), needle) == WithoutContaining(bag, needle)
  {
    assert WithoutContaining(WithoutContaining(bag, needle), needle).Keys == WithoutContaining(bag, needle).Keys;
  }

  /** The storage object; it holds no state of its own beyond the session it writes to. */
  class SocialStorage {
    const session: Session

    constructor (session: Session)
      ensures this.session == session
    {
      this.session := session;
    }

    /** `get`: the stored value, `null` for an absent key or a stored `null`. */
    method Get(key: string) returns (v: Option<string>)
      ensures v.Some? <==> IsSet(BagOf(session.data), key)
      ensures v.Some? ==> v == BagOf(session.data)[key]
    {
      var keys := if session.Get(SocialKeys).Some? && session.Get(SocialKeys).value.Dictionary?
        then session.Get(SocialKeys).value.entries else map[];
      v := if key in keys then keys[key] else None;
    }

    /** `set`: the entry is added or replaced and the dictionary written back. */
    method Set(key: string, value: Option<string>)
      modifies session
      ensures session.data == old(session.data)[SocialKeys := Dictionary(BagOf(old(session.data))[key := value])]
      ensures Lookup(BagOf(session.data), key) == value
      ensures forall k :: k != key ==> Lookup(BagOf(session.data), k) == Lookup(BagOf(old(session.data)), k)
      ensures unchanged(session`sid)
    {
      var keys := BagOf(session.data);
      keys := keys[key := value];
      session.Set(SocialKeys, Dictionary(keys));
    }

    /** `delete`: an entry that is set is removed and the dictionary written back;
        otherwise nothing is written. */
    method Delete(key: string)
      modifies session
      ensures IsSet(BagOf(old(session.data)), key) ==>
        session.data == old(session.data)[SocialKeys := Dictionary(BagOf(old(session.data)) - {key})]
      ensures !IsSet(BagOf(old(session.data)), key) ==> session.data == old(session.data)
      ensures Lookup(BagOf(session.data), key).None?
      ensures forall k :: k != key ==> Lookup(BagOf(session.data), k) == Lookup(BagOf(old(session.data)), k)
      ensures unchanged(session`sid)
    {
      var keys := BagOf(session.data);
      if key in keys && keys[key].Some? {
        keys := keys - {key};
        session.Set(SocialKeys, Dictionary(keys));
      }
    }

    /** `deleteMatch`: every entry whose key makes `strstr($k, $needle)` truthy is
        unset while iterating, then the dictionary is written back. */
    method DeleteMatch(needle: string)
      modifies session
      ensures session.data == old(session.data)[SocialKeys := Dictionary(MatchRemoved(BagOf(old(session.data)), needle))]
      ensures unchanged(session`sid)
    {
      var keys := BagOf(session.data);
      ghost var original := keys;
      var pending := keys.Keys;
      while pending != {}
        invariant pending <= original.Keys
        invariant forall k :: k in keys <==> k in original && (k in pending || !Truthy(Strstr(k, needle)))
        invariant forall k :: k in keys ==> keys[k] == original[k]
        decreases pending
      {
        var k :| k in pending;
        if Truthy(Strstr(k, needle)) {
          keys := keys - {k};
        }
        pending := pending - {k};
      }
      assert keys.Keys == MatchRemoved(original, needle).Keys;
      assert keys == MatchRemoved(original, needle);
      assert original == BagOf(old(session.data));
      session.Set(SocialKeys, Dictionary(keys));
    }

    /** `deleteMatch` as intended: the test is `strstr($k, $needle) !== false`, so every
        entry whose key contains the needle goes, whatever the suffix. */
    method DeleteContaining(needle: string)
      modifies session
      ensures session.data == old(session.data)[SocialKeys := Dictionary(WithoutContaining(BagOf(old(session.data)), needle))]
      ensures unchanged(session`sid)
    {
      var keys := BagOf(session.data);
      ghost var original := keys;
      var pending := keys.Keys;
      while pending != {}
        invariant pending <= original.Keys
        invariant forall k :: k in keys <==> k in original && (k in pending || Strstr(k, needle).None?)
        invariant forall k :: k in keys ==> keys[k] == original[k]
        decreases pending
      {
        var k :| k in pending;
        if Strstr(k, needle).Some? {
          keys := keys - {k};
        }
        pending := pending - {k};
      }
      assert keys.Keys == WithoutContaining(original, needle).Keys;
      assert keys == WithoutContaining(original, needle);
      assert original == BagOf(old(session.data));
      session.Set(SocialKeys, Dictionary(keys));
    }

    /** `clear`: the whole slot goes; every key then reads as `null`. */
    method Clear()
      modifies session
      ensures session.data == old(session.data) - {SocialKeys}
      ensures forall k :: Lookup(BagOf(session.data), k).None?
      ensures unchanged(session`sid)
    {
      session.Delete(SocialKeys);
    }
  }
}
