/**
 * The in-memory session store (server/session.py): a dict from session id
 * to the session's user id and expiry time, both kept as decimal strings.
 * A session is valid up to and including its expiry second; an expired
 * session is removed when it is read. The id generator and the clock are
 * parameters: `token` is the id `secrets.token_hex(16)` produced and `now`
 * is `int(time.time())` at the call.
 */
module Sessions {
  import opened Wrappers
  import opened Strings

  /** The stored record: `{"user_id": str(user_id), "expires": str(expiry)}`. */
  datatype SessionData = SessionData(userId: string, expires: string)

  /** The record `create` stores. */
  function NewSession(userId: int, now: int, ttl: int): (d: SessionData)
    ensures ParseInt(d.userId) == Some(userId)
    ensures ParseInt(d.expires) == Some(now + ttl)
  {
    ParseIntToString(userId);
    ParseIntToString(now + ttl);
    SessionData(IntToString(userId), IntToString(now + ttl))
  }

  /** Both fields of every stored record read back as integers. */
  predicate Readable(sessions: map<string, SessionData>) {
    forall t :: t in sessions ==> ParseInt(sessions[t].userId).Some? && ParseInt(sessions[t].expires).Some?
  }

  /**
   * What `get_user_id` answers for `token` at time `now`, and the sessions
   * it leaves behind.
   */
  function Lookup(sessions: map<string, SessionData>, token: string, now: int): (r: (Option<int>, map<string, SessionData>))
    requires Readable(sessions)
    ensures token !in sessions ==> r == (None, sessions)
    ensures token in sessions && ParseInt(sessions[token].expires).value < now ==> r == (None, sessions - {token})
    ensures token in sessions && ParseInt(sessions[token].expires).value >= now ==> r == (ParseInt(sessions[token].userId), sessions)
  {
    if token !in sessions then (None, sessions)
    else
      var data := sessions[token];
      if ParseInt(data.expires).value < now then (None, sessions - {token})
      else (Some(ParseInt(data.userId).value), sessions)
  }

  class SessionStore {
    /** `config.SESSION_EXPIRE_SECONDS`. */
    const ttl: int
    var sessions: map<string, SessionData>

    ghost predicate Valid()
      reads this
    {
      Readable(sessions)
    }

    constructor (ttl: int)
      ensures Valid()
      ensures this.ttl == ttl && sessions == map[]
    {
      this.ttl := ttl;
      sessions := map[];
    }

    /** `create`: stores a session for `userId` under `token`, expiring `ttl` seconds from `now`. */
    method Create(userId: int, token: string, now: int) returns (sessionId: string)
      requires Valid()
      modifies this
      ensures Valid()
      ensures sessionId == token
      ensures sessions == old(sessions)[token := NewSession(userId, now, ttl)]
    {
      sessions := sessions[token := NewSession(userId, now, ttl)];
      sessionId := token;
    }

    /**
     * `get_user_id`: the user of an unexpired session; nothing for an unknown
     * token, and nothing for an expired one, which is removed.
     */
    method GetUserId(token: string, now: int) returns (userId: Option<int>)
      requires Valid()
      modifies this
      ensures Valid()
      ensures (userId, sessions) == Lookup(old(sessions), token, now)
    {
      if token !in sessions {
        return None;
      }
      var data := sessions[token];
      if ParseInt(data.expires).value < now {
        Delete(token);
        return None;
      }
      return ParseInt(data.userId);
    }

    /** `delete`: removes the session if there is one. */
    method Delete(token: string)
      requires Valid()
      modifies this
      ensures Valid()
      ensures sessions == old(sessions) - {token}
    {
      sessions := sessions - {token};
    }
  }

  /** A session reads back its user at any time up to and including its expiry, and stays. */
  lemma CreateThenLookup(sessions: map<string, SessionData>, userId: int, token: string, created: int, ttl: int, now: int)
    requires Readable(sessions)
    requires now <= created + ttl
    ensures var stored := sessions[token := NewSession(userId, created, ttl)];
      Readable(stored) && Lookup(stored, token, now) == (Some(userId), stored)
  {
  }

  /** Reading a session back at its creation time gives its user when the lifetime is not negative. */
  lemma CreateThenLookupAtOnce(sessions: map<string, SessionData>, userId: int, token: string, now: int, ttl: int)
    requires Readable(sessions) && ttl >= 0
    ensures var stored := sessions[token := NewSession(userId, now, ttl)];
      Readable(stored) && Lookup(stored, token, now).0 == Some(userId)
  {
    CreateThenLookup(sessions, userId, token, now, ttl, now);
  }

  /** After its expiry second a session answers nothing, is gone, and every other session is kept. */
  lemma LookupAfterExpiry(sessions: map<string, SessionData>, userId: int, token: string, created: int, ttl: int, now: int)
    requires Readable(sessions)
    requires now > created + ttl
    ensures var stored := sessions[token := NewSession(userId, created, ttl)];
      Readable(stored)
      && Lookup(stored, token, now) == (None, stored - {token})
      && (stored - {token}).Keys == sessions.Keys - {token}
  {
  }

  /** Deleting twice is deleting once, and deleting an unknown token changes nothing. */
  lemma DeleteIdempotent(sessions: map<string, SessionData>, token: string)
    ensures (sessions - {token}) - {token} == sessions - {token}
    ensures token !in sessions ==> sessions - {token} == sessions
  {
  }
}
