/** The short-term store of `app/memory/short_term.py`: per session, a mapping
    from key to the latest entry written under it, read back lazily through a
    time-to-live. Expired entries are hidden from reads, never deleted by them. */
module ShortTerm {
  import opened Schema

  /** One session's mapping, as its entries in the order their keys were first
      written (a Python dict keeps that order, and overwriting a key keeps its
      place). */
  type Session = seq<ShortTermMemoryEntry>

  /** One `key: value` pair of the mapping that `get_all` returns. */
  datatype Item = Item(key: string, value: string)

  function KeysOf(sess: Session): seq<string> {
    if sess == [] then [] else [sess[0].key] + KeysOf(sess[1..])
  }

  /** No key occurs twice, as in a dict. */
  predicate KeysDistinct(sess: Session) {
    sess == [] || ((forall x | x in sess[1..] :: x.key != sess[0].key) && KeysDistinct(sess[1..]))
  }

  predicate ItemKeysDistinct(items: seq<Item>) {
    items == [] || ((forall x | x in items[1..] :: x.key != items[0].key) && ItemKeysDistinct(items[1..]))
  }

  /** The entry stored under `key`, if any (`session_data.get(key)`). */
  function Find(sess: Session, key: string): (r: Option<ShortTermMemoryEntry>)
    ensures r.Some? ==> r.value in sess && r.value.key == key
    ensures r.None? <==> forall e | e in sess :: e.key != key
  {
    if sess == [] then None
    else if sess[0].key == key then Some(sess[0])
    else Find(sess[1..], key)
  }

  /** `session_data[e.key] = e`: the entry under `e.key` is replaced where it
      stands, or `e` is added at the end when the key is new. */
  function Upsert(sess: Session, e: ShortTermMemoryEntry): (r: Session)
    ensures Find(r, e.key) == Some(e)
    ensures forall k | k != e.key :: Find(r, k) == Find(sess, k)
    ensures forall x | x in r :: x in sess || x == e
  {
    if sess == [] then [e]
    else if sess[0].key == e.key then [e] + sess[1..]
    else [sess[0]] + Upsert(sess[1..], e)
  }

  /** Overwriting keeps every key in place; a new key goes to the end. */
  lemma {:induction false} UpsertKeys(sess: Session, e: ShortTermMemoryEntry)
    ensures KeysOf(Upsert(sess, e)) == if e.key in KeysOf(sess) then KeysOf(sess) else KeysOf(sess) + [e.key]
  {
    if sess != [] {
      var r := Upsert(sess, e);
      if sess[0].key == e.key {
        assert r[1..] == sess[1..];
      } else {
        UpsertKeys(sess[1..], e);
        assert r[1..] == Upsert(sess[1..], e);
      }
    }
  }

  /** Writing a key never makes a key occur twice. */
  lemma {:induction false} UpsertKeysDistinct(sess: Session, e: ShortTermMemoryEntry)
    requires KeysDistinct(sess)
    ensures KeysDistinct(Upsert(sess, e))
  {
    if sess != [] {
      var r := Upsert(sess, e);
      if sess[0].key == e.key {
        assert r[1..] == sess[1..];
      } else {
        UpsertKeysDistinct(sess[1..], e);
        assert r[1..] == Upsert(sess[1..], e);
      }
    }
  }

  /** `_is_expired`: an entry is expired once it is strictly older than the
      time-to-live, so an entry aged exactly `ttl` is still readable. */
  predicate IsExpired(timestamp: Time, now: Time, ttl: int)
    ensures ttl >= 0 && now <= timestamp ==> !IsExpired(timestamp, now, ttl)
  {
    now - timestamp > ttl
  }

  /** Expiry is permanent: an entry expired now is expired at every later
      time. */
  lemma ExpiryIsPermanent(timestamp: Time, now: Time, later: Time, ttl: int)
    requires IsExpired(timestamp, now, ttl) && now <= later
    ensures IsExpired(timestamp, later, ttl)
  {
  }

  /** `get`: the stored value when the entry exists and has not expired,
      otherwise the empty string. */
  function ValueOf(sess: Session, key: string, now: Time, ttl: int): (r: string)
    ensures Find(sess, key).None? ==> r == ""
    ensures r != "" ==> exists e | e in sess :: e.key == key && e.value == r && !IsExpired(e.timestamp, now, ttl)
  {
    match Find(sess, key)
    case None => ""
    case Some(e) => if IsExpired(e.timestamp, now, ttl) then "" else e.value
  }

  /** `get_all`: the non-expired entries, in the session's key order. */
  function LiveItems(sess: Session, now: Time, ttl: int): (r: seq<Item>)
    ensures |r| <= |sess|
  {
    if sess == [] then []
    else
      var e := sess[0];
      (if IsExpired(e.timestamp, now, ttl) then [] else [Item(e.key, e.value)])
        + LiveItems(sess[1..], now, ttl)
  }

  /** Python's `items.get(key)` on the mapping `get_all` returns. */
  function Lookup(items: seq<Item>, key: string): (r: Option<string>)
    ensures r.Some? ==> Item(key, r.value) in items
    ensures r.None? <==> forall it | it in items :: it.key != key
  {
    if items == [] then None
    else if items[0].key == key then Some(items[0].value)
    else Lookup(items[1..], key)
  }

  /** Reading a key right after writing it gives the written value unless the
      entry is already expired; this holds at the boundary `now - t == ttl`. */
  lemma GetAfterSet(sess: Session, e: ShortTermMemoryEntry, now: Time, ttl: int)
    ensures ValueOf(Upsert(sess, e), e.key, now, ttl) == if now - e.timestamp > ttl then "" else e.value
  {
  }

  /** Writing one key leaves every other key's reading as it was. */
  lemma SetLeavesOtherKeys(sess: Session, e: ShortTermMemoryEntry, key: string, now: Time, ttl: int)
    requires key != e.key
    ensures ValueOf(Upsert(sess, e), key, now, ttl) == ValueOf(sess, key, now, ttl)
  {
  }

  /** `get_all` holds exactly the pairs of the entries that have not expired. */
  lemma {:induction false} LiveItemsExact(sess: Session, now: Time, ttl: int, it: Item)
    ensures it in LiveItems(sess, now, ttl) <==>
            exists e | e in sess :: e.key == it.key && e.value == it.value && !IsExpired(e.timestamp, now, ttl)
  {
    if sess != [] {
      LiveItemsExact(sess[1..], now, ttl, it);
      assert sess == [sess[0]] + sess[1..];
    }
  }

  /** `get_all` keeps the session's order: it distributes over concatenation. */
  lemma {:induction false} LiveItemsAppend(a: Session, b: Session, now: Time, ttl: int)
    ensures LiveItems(a + b, now, ttl) == LiveItems(a, now, ttl) + LiveItems(b, now, ttl)
  {
    if a == [] {
      assert a + b == b;
    } else {
      assert (a + b)[0] == a[0] && (a + b)[1..] == a[1..] + b;
      LiveItemsAppend(a[1..], b, now, ttl);
    }
  }

  /** The pairs `get_all` returns have distinct keys, as a dict's do. */
  lemma {:induction false} LiveItemsKeysDistinct(sess: Session, now: Time, ttl: int)
    requires KeysDistinct(sess)
    ensures ItemKeysDistinct(LiveItems(sess, now, ttl))
  {
    if sess != [] {
      var tail := sess[1..];
      LiveItemsKeysDistinct(tail, now, ttl);
      var rest := LiveItems(tail, now, ttl);
      forall it | it in rest
        ensures it.key != sess[0].key
      {
        LiveItemsExact(tail, now, ttl, it);
      }
      var e := sess[0];
      var live := LiveItems(sess, now, ttl);
      if IsExpired(e.timestamp, now, ttl) {
        assert live == rest;
      } else {
        assert live == [Item(e.key, e.value)] + rest;
        assert live[1..] == rest && live[0].key == e.key;
      }
    }
  }

  /** `get` and `get_all` agree: `get(s, k) == get_all(s).get(k, "")`. */
  lemma {:induction false} GetAgreesWithGetAll(sess: Session, key: string, now: Time, ttl: int)
    requires KeysDistinct(sess)
    ensures ValueOf(sess, key, now, ttl) ==
            match Lookup(LiveItems(sess, now, ttl), key)
            case Some(v) => v
            case None => ""
  {
    if sess != [] {
      var tail := sess[1..];
      var rest := LiveItems(tail, now, ttl);
      var head := sess[0];
      var live := LiveItems(sess, now, ttl);
      if head.key != key {
        GetAgreesWithGetAll(tail, key, now, ttl);
        if IsExpired(head.timestamp, now, ttl) {
          assert live == rest;
        } else {
          assert live[0] == Item(head.key, head.value) && live[1..] == rest;
        }
      } else if IsExpired(head.timestamp, now, ttl) {
        forall it | it in rest
          ensures it.key != key
        {
          LiveItemsExact(tail, now, ttl, it);
        }
        assert live == rest;
      } else {
        assert live[0] == Item(key, head.value);
      }
    }
  }

  /** The store of `ShortTermMemory`: session id to that session's mapping. */
  class ShortTermMemory {
    var store: map<string, Session>
    const ttl: int

    /** Each session's keys are distinct, and every entry is filed under its
        own session. */
    ghost predicate Valid()
      reads this
    {
      forall s | s in store :: KeysDistinct(store[s]) && forall e | e in store[s] :: e.sessionId == s
    }

    constructor (ttlMinutes: int)
      ensures Valid()
      ensures store == map[] && ttl == ttlMinutes * MicrosPerMinute
    {
      store := map[];
      ttl := ttlMinutes * MicrosPerMinute;
    }

    /** `self._store.get(session_id, {})` */
    function SessionData(sessionId: string): Session
      reads this
    {
      if sessionId in store then store[sessionId] else []
    }

    /** `get`: an unknown session reads as empty. */
    function Get(sessionId: string, key: string, now: Time): (r: string)
      reads this
      ensures sessionId !in store ==> r == ""
      ensures r != "" ==> exists e | e in store[sessionId] :: e.key == key && e.value == r && !IsExpired(e.timestamp, now, ttl)
    {
      ValueOf(SessionData(sessionId), key, now, ttl)
    }

    /** `get_all`: an unknown session reads as empty. */
    function GetAll(sessionId: string, now: Time): (r: seq<Item>)
      reads this
      ensures sessionId !in store ==> r == []
      ensures |r| <= |SessionData(sessionId)|
    {
      LiveItems(SessionData(sessionId), now, ttl)
    }

    /** In a valid store, `get(s, k)` is `get_all(s).get(k, "")`, and the
        pairs `get_all` returns have distinct keys. */
    lemma GetMatchesGetAll(sessionId: string, key: string, now: Time)
      requires Valid()
      ensures Get(sessionId, key, now) ==
              match Lookup(GetAll(sessionId, now), key)
              case Some(v) => v
              case None => ""
      ensures ItemKeysDistinct(GetAll(sessionId, now))
    {
      GetAgreesWithGetAll(SessionData(sessionId), key, now, ttl);
      LiveItemsKeysDistinct(SessionData(sessionId), now, ttl);
    }

    /** Writes `value` under `(sessionId, key)`, stamped `now`; only that one
        entry changes. */
    method Set(sessionId: string, key: string, value: string, now: Time)
      requires Valid()
      modifies this
      ensures Valid()
      ensures store == old(store)[sessionId := Upsert(old(SessionData(sessionId)), ShortTermMemoryEntry(sessionId, key, value, now))]
      ensures ttl >= 0 ==> Get(sessionId, key, now) == value
      ensures forall s | s != sessionId :: SessionData(s) == old(SessionData(s))
    {
      var entry := ShortTermMemoryEntry(sessionId, key, value, now);
      UpsertKeysDistinct(SessionData(sessionId), entry);
      store := store[sessionId := Upsert(SessionData(sessionId), entry)];
    }

    /** Drops the whole session; clearing an unknown session changes nothing. */
    method Clear(sessionId: string)
      requires Valid()
      modifies this
      ensures Valid()
      ensures store == old(store) - {sessionId}
      ensures sessionId !in old(store) ==> store == old(store)
      ensures forall now :: GetAll(sessionId, now) == []
      ensures forall k, now :: Get(sessionId, k, now) == ""
    {
      if sessionId in store {
        store := store - {sessionId};
      }
    }
  }
}
