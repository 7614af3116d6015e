/** The in-memory session store of session/session.go: session IDs to the
    signed-in user's data, with the handlers that create a session, read it
    back from the request's cookie and clear it. The cookie itself is reduced
    to its value, `None` when the request carries no `session_id` cookie. */
module Session {
  import opened Wrappers

  /** `SessionData`. */
  datatype SessionData = SessionData(accessToken: string, userName: string, avatarUrl: string)

  /** `n` consecutive characters starting at `first`. */
  function Run(first: char, n: nat): (r: string)
    requires first as int + n <= 0xD800
    ensures |r| == n && forall i :: 0 <= i < n ==> r[i] as int == first as int + i
  {
    seq(n, i requires 0 <= i < n => (first as int + i) as char)
  }

  /** The alphabet of session IDs, "abc...xyzABC...XYZ012...789": the 26
      lower-case letters, the 26 upper-case letters and the 10 digits. */
  const Charset: string := Run('a', 26) + Run('A', 26) + Run('0', 10)

  const SessionIdLength: nat := 32

  /** A result of `rand.Intn(len(charset))`. */
  type CharIndex = i: nat | i < 62

  predicate IsAlphanumeric(c: char)
  {
    'a' <= c <= 'z' || 'A' <= c <= 'Z' || '0' <= c <= '9'
  }

  /** The character code at position `i` of the alphabet. */
  function CodeAt(i: nat): int
  {
    if i < 26 then 'a' as int + i
    else if i < 52 then 'A' as int + (i - 26)
    else '0' as int + (i - 52)
  }

  /** The alphabet is the three runs, one after the other. */
  lemma CharsetLayout()
    ensures |Charset| == 62
    ensures forall i :: 0 <= i < 62 ==> Charset[i] as int == CodeAt(i)
  {
    var lower, upper, digits := Run('a', 26), Run('A', 26), Run('0', 10);
    forall i | 0 <= i < 62 ensures Charset[i] as int == CodeAt(i) {
      if i < 26 {
        assert Charset[i] == lower[i];
      } else if i < 52 {
        assert Charset[i] == upper[i - 26];
      } else {
        assert Charset[i] == digits[i - 52];
      }
    }
  }

  /** The alphabet holds 62 ASCII letters and digits, each once, and every
      ASCII letter and digit is among them. */
  lemma CharsetIsAlphanumeric()
    ensures |Charset| == 62
    ensures forall i :: 0 <= i < |Charset| ==> IsAlphanumeric(Charset[i])
    ensures forall i, j :: 0 <= i < j < |Charset| ==> Charset[i] != Charset[j]
    ensures forall c :: IsAlphanumeric(c) ==> c in Charset
  {
    CharsetLayout();
    forall i, j | 0 <= i < j < 62 ensures Charset[i] != Charset[j] {
      assert CodeAt(i) != CodeAt(j);
    }
    forall c | IsAlphanumeric(c) ensures c in Charset {
      var k := if 'a' <= c <= 'z' then c as int - 'a' as int
               else if 'A' <= c <= 'Z' then 26 + c as int - 'A' as int
               else 52 + c as int - '0' as int;
      assert Charset[k] as int == CodeAt(k) == c as int;
    }
  }

  /** The session ID the index source `pick` produces: one alphabet character
      per position. */
  function SessionIdFor(pick: nat -> CharIndex): string
  {
    seq(SessionIdLength, i requires 0 <= i < SessionIdLength => Charset[pick(i)])
  }

  /** `generateSessionID`: fills a 32-character buffer, position by position,
      with alphabet characters chosen by `pick` (`rand.Intn`, called once per
      position, in order). */
  method GenerateSessionID(pick: nat -> CharIndex) returns (id: string)
    ensures id == SessionIdFor(pick)
    ensures |id| == SessionIdLength && forall i :: 0 <= i < |id| ==> id[i] in Charset && IsAlphanumeric(id[i])
  {
    CharsetIsAlphanumeric();
    var b := new char[SessionIdLength];
    for i := 0 to SessionIdLength
      invariant forall k :: 0 <= k < i ==> b[k] == Charset[pick(k)]
    {
      b[i] := Charset[pick(i)];
    }
    id := b[..];
  }

  /** Every string of 32 alphabet characters is a session ID some index
      source produces, so the IDs are exactly those strings. */
  lemma EverySessionIdPossible(s: string)
    requires |s| == SessionIdLength && forall i :: 0 <= i < |s| ==> s[i] in Charset
    ensures exists pick: nat -> CharIndex :: SessionIdFor(pick) == s
  {
    var idx := seq(SessionIdLength, i requires 0 <= i < SessionIdLength => PositionIn(s[i]));
    var pick: nat -> CharIndex := (i: nat) => if i < SessionIdLength then idx[i] else 0;
    assert SessionIdFor(pick) == s;
  }

  /** The position of an alphabet character in the alphabet. */
  function PositionIn(c: char): (k: CharIndex)
    ensures c in Charset ==> Charset[k] == c
  {
    if c in Charset then Find(c, 0) else 0
  }

  function Find(c: char, from: nat): (k: CharIndex)
    requires from <= 62 && exists j :: from <= j < |Charset| && Charset[j] == c
    ensures from <= k && Charset[k] == c
    decreases 62 - from
  {
    if Charset[from] == c then from else Find(c, from + 1)
  }

  /** The package-level `store`, under its mutex. */
  class SessionStore {
    var store: map<string, SessionData>

    constructor ()
      ensures store == map[]
    {
      store := map[];
    }

    /** `Set`: `id` now maps to `data`; every other ID is unchanged. */
    method Set(id: string, data: SessionData)
      modifies this
      ensures store == old(store)[id := data]
    {
      store := store[id := data];
    }

    /** `Get`: the data of `id`, and whether there is any. */
    method Get(id: string) returns (data: Option<SessionData>, ok: bool)
      ensures ok <==> id in store
      ensures ok ==> data == Some(store[id])
      ensures !ok ==> data == None
    {
      if id in store {
        return Some(store[id]), true;
      }
      return None, false;
    }

    /** `Delete`: `id` no longer maps to anything; every other ID is
        unchanged, and deleting an absent ID changes nothing. */
    method Delete(id: string)
      modifies this
      ensures store == old(store) - {id}
      ensures id !in old(store) ==> store == old(store)
    {
      store := store - {id};
    }

    /** `SetSession`: stores `data` under a fresh session ID and answers with
        that ID, the value of the cookie it sets. */
    method SetSession(data: SessionData, pick: nat -> CharIndex) returns (sessionId: string)
      modifies this
      ensures sessionId == SessionIdFor(pick) && |sessionId| == SessionIdLength
      ensures store == old(store)[sessionId := data]
    {
      sessionId := GenerateSessionID(pick);
      store := store[sessionId := data];
    }

    /** `GetSession`: an error without a cookie; no session, and no error,
        for an ID that is not in the store; otherwise that ID's data. */
    method GetSession(cookie: Option<string>) returns (r: Result<Option<SessionData>>)
      ensures cookie.None? ==> r == Err(NoCookie)
      ensures cookie.Some? ==> r.Ok?
      ensures cookie.Some? && cookie.value !in store ==> r == Ok(None)
      ensures cookie.Some? && cookie.value in store ==> r == Ok(Some(store[cookie.value]))
    {
      if cookie.None? {
        return Err(NoCookie);
      }
      var sessionId := cookie.value;
      var data, ok := Get(sessionId);
      if !ok {
        return Ok(None);
      }
      return Ok(data);
    }

    /** `ClearSession`: removes the cookie's session, and only that one;
        without a cookie nothing changes. */
    method ClearSession(cookie: Option<string>)
      modifies this
      ensures cookie.None? ==> store == old(store)
      ensures cookie.Some? ==> store == old(store) - {cookie.value}
    {
      if cookie.None? {
        return;
      }
      Delete(cookie.value);
    }
  }

  /** `Get` after `Set` finds the data just stored; `Get` after `Delete`
      finds nothing; every other ID keeps its entry throughout. */
  method SetGetDelete(s: SessionStore, id: string, data: SessionData)
    returns (afterSet: (Option<SessionData>, bool), afterDelete: (Option<SessionData>, bool))
    modifies s
    ensures afterSet == (Some(data), true)
    ensures afterDelete == (None, false)
    ensures s.store == old(s.store) - {id}
  {
    s.Set(id, data);
    var d1, ok1 := s.Get(id);
    afterSet := (d1, ok1);
    s.Delete(id);
    var d2, ok2 := s.Get(id);
    afterDelete := (d2, ok2);
  }

  /** A session stored and read back with its own cookie is found; cleared,
      it is gone. */
  method SessionRoundTrip(s: SessionStore, data: SessionData, pick: nat -> CharIndex)
    returns (found: Result<Option<SessionData>>, afterClear: Result<Option<SessionData>>)
    modifies s
    ensures found == Ok(Some(data))
    ensures afterClear == Ok(None)
    ensures s.store == old(s.store) - {SessionIdFor(pick)}
  {
    var id := s.SetSession(data, pick);
    found := s.GetSession(Some(id));
    s.ClearSession(Some(id));
    afterClear := s.GetSession(Some(id));
  }
}
