/**
 * The session table: session data and last-access times kept in two maps under the same
 * session ids, with sessions expiring after 30 minutes without access. The clock reading
 * is the `now` parameter.
 */
module Sessions {
  import opened Wrappers
  import opened Numerics
  import opened Text
  import opened Clock
  import DecimalText

  const SESSION_TIMEOUT_MINUTES: int := 30

  /** 30 minutes in ticks: an idle time above this expires the session. */
  const SESSION_TIMEOUT_TICKS: int := SESSION_TIMEOUT_MINUTES * TICKS_PER_MINUTE

  datatype SessionData = SessionData(userId: Int64, userName: string, createdAt: DateTime, lastAccessedAt: DateTime)

  /** `elapsed.TotalMinutes > 30`, where `elapsed = now - lastAccess`. */
  predicate IsExpired(lastAccess: DateTime, now: DateTime)
  {
    now - lastAccess > SESSION_TIMEOUT_TICKS
  }

  /** Exactly 30 minutes of idling is not yet expiry; one tick more is. */
  lemma ExpiryBoundary(lastAccess: DateTime)
    requires lastAccess + SESSION_TIMEOUT_TICKS + 1 <= MAX_TICKS
    ensures !IsExpired(lastAccess, lastAccess + SESSION_TIMEOUT_TICKS)
    ensures IsExpired(lastAccess, lastAccess + SESSION_TIMEOUT_TICKS + 1)
  {
  }

  /** `$"sess_{userId}_{timestamp}"`. */
  function SessionId(userId: Int64, timestamp: DateTime): (id: string)
    ensures |id| > 6 && id[..5] == "sess_"
  {
    "sess_" + DecimalText.Int64ToString(userId) + "_" + DecimalText.Int64ToString(timestamp)
  }

  lemma NoUnderscoreInNumber(v: Int64)
    ensures '_' !in DecimalText.Int64ToString(v)
  {
    var s := DecimalText.Int64ToString(v);
    forall i | 0 <= i < |s| ensures s[i] != '_' {
      if v < 0 && i > 0 {
        assert s[i] == s[1..][i - 1];
      }
    }
  }

  /** Distinct users or distinct creation instants give distinct session ids. */
  lemma SessionIdInjective(u1: Int64, t1: DateTime, u2: Int64, t2: DateTime)
    requires SessionId(u1, t1) == SessionId(u2, t2)
    ensures u1 == u2 && t1 == t2
  {
    var a := DecimalText.Int64ToString(u1);
    var b := DecimalText.Int64ToString(u2);
    var x := DecimalText.Int64ToString(t1);
    var y := DecimalText.Int64ToString(t2);
    IdSuffix(u1, t1);
    IdSuffix(u2, t2);
    NoUnderscoreInNumber(u1);
    NoUnderscoreInNumber(u2);
    SplitAtSeparator(a, '_', x, b, y);
    ToStringInjective(u1, u2);
    ToStringInjective(t1, t2);
  }

  /** After the "sess_" prefix comes the user id, '_' and the ticks. */
  lemma IdSuffix(u: Int64, t: DateTime)
    ensures SessionId(u, t)[5..] == DecimalText.Int64ToString(u) + ['_'] + DecimalText.Int64ToString(t)
  {
    var rest := DecimalText.Int64ToString(u) + ['_'] + DecimalText.Int64ToString(t);
    assert SessionId(u, t) == "sess_" + rest;
  }

  /** `long.ToString()` never writes two values the same way. */
  lemma ToStringInjective(u: Int64, v: Int64)
    requires DecimalText.Int64ToString(u) == DecimalText.Int64ToString(v)
    ensures u == v
  {
    DecimalText.ParseToString(u);
    DecimalText.ParseToString(v);
  }

  class SessionManager {
    /** The static `_sessions`. */
    var sessions: map<string, SessionData>
    /** The static `_sessionLastAccess`. */
    var lastAccess: map<string, DateTime>

    /** Both tables hold the same session ids. */
    predicate SameIds()
      reads this
    {
      sessions.Keys == lastAccess.Keys
    }

    constructor ()
      ensures sessions == map[] && lastAccess == map[] && SameIds()
    {
      sessions := map[];
      lastAccess := map[];
    }

    /**
     * `CreateSessionAsync`: the id is built from the user id and the clock's ticks, and the
     * session is recorded in both tables (replacing one created by the same user in the same tick).
     */
    method CreateSession(userId: Int64, userName: string, now: DateTime) returns (id: string)
      modifies this
      ensures id == SessionId(userId, now)
      ensures sessions == old(sessions)[id := SessionData(userId, userName, now, now)]
      ensures lastAccess == old(lastAccess)[id := now]
      ensures old(SameIds()) ==> SameIds()
    {
      id := "sess_" + DecimalText.Int64ToString(userId) + "_" + DecimalText.Int64ToString(now);
      sessions := sessions[id := SessionData(userId, userName, now, now)];
      lastAccess := lastAccess[id := now];
    }

    /** What `ValidateSessionAsync` answers at time `now`. */
    predicate IsLive(sessionId: string, now: DateTime)
      reads this
    {
      sessionId != "" && sessionId in sessions
      && !(sessionId in lastAccess && IsExpired(lastAccess[sessionId], now))
    }

    /**
     * `ValidateSessionAsync`: false for an empty or unknown id; a session idle for more than 30
     * minutes is removed from both tables and reported invalid; any other session is valid and
     * nothing changes.
     */
    method ValidateSession(sessionId: string, now: DateTime) returns (valid: bool)
      modifies this
      ensures valid <==> old(IsLive(sessionId, now))
      ensures (sessionId != "" && sessionId in old(sessions) && !valid) ==>
        sessions == old(sessions) - {sessionId} && lastAccess == old(lastAccess) - {sessionId}
      ensures (sessionId == "" || sessionId !in old(sessions) || valid) ==>
        sessions == old(sessions) && lastAccess == old(lastAccess)
      ensures old(SameIds()) ==> SameIds()
    {
      if sessionId == "" {
        return false;
      }
      if sessionId !in sessions {
        return false;
      }
      if sessionId in lastAccess {
        if IsExpired(lastAccess[sessionId], now) {
          sessions := sessions - {sessionId};
          lastAccess := lastAccess - {sessionId};
          return false;
        }
      }
      return true;
    }

    /**
     * `GetSessionAsync`: null for a session that does not validate (which may remove it);
     * otherwise its last access becomes `now` in both tables and the updated data is returned.
     */
    method GetSession(sessionId: string, now: DateTime) returns (r: Option<SessionData>)
      modifies this
      ensures r.Some? <==> old(IsLive(sessionId, now))
      ensures r.Some? ==> r.value == old(sessions)[sessionId].(lastAccessedAt := now)
                          && sessions == old(sessions)[sessionId := r.value]
                          && lastAccess == old(lastAccess)[sessionId := now]
      ensures old(SameIds()) ==> SameIds()
    {
      var valid := ValidateSession(sessionId, now);
      if !valid {
        return None;
      }
      var session := sessions[sessionId].(lastAccessedAt := now);
      lastAccess := lastAccess[sessionId := now];
      sessions := sessions[sessionId := session];
      return Some(session);
    }

    /** `LogoutAsync`: removes this one id from both tables; other sessions of the user stay. */
    method Logout(sessionId: string)
      modifies this
      ensures sessionId == "" ==> sessions == old(sessions) && lastAccess == old(lastAccess)
      ensures sessionId != "" ==> sessions == old(sessions) - {sessionId} && lastAccess == old(lastAccess) - {sessionId}
      ensures old(SameIds()) ==> SameIds()
    {
      if sessionId == "" {
        return;
      }
      sessions := sessions - {sessionId};
      lastAccess := lastAccess - {sessionId};
    }

    /** `ExtendSessionAsync`: a known id's last access becomes `now`, expired or not. */
    method ExtendSession(sessionId: string, now: DateTime)
      modifies this
      ensures sessionId in old(sessions) ==>
        sessions == old(sessions)[sessionId := old(sessions)[sessionId].(lastAccessedAt := now)]
        && lastAccess == old(lastAccess)[sessionId := now]
      ensures sessionId !in old(sessions) ==> sessions == old(sessions) && lastAccess == old(lastAccess)
      ensures old(SameIds()) ==> SameIds()
    {
      if sessionId in sessions {
        sessions := sessions[sessionId := sessions[sessionId].(lastAccessedAt := now)];
        lastAccess := lastAccess[sessionId := now];
      }
    }
  }

  /** A fresh session is live for 30 minutes, gone after, and extending it revives the clock. */
  method SessionLifecycle(userId: Int64, start: DateTime) returns (liveAt30: bool, liveAfter: bool)
    requires start + SESSION_TIMEOUT_TICKS + 1 <= MAX_TICKS
    ensures liveAt30 && !liveAfter
  {
    var manager := new SessionManager();
    var id := manager.CreateSession(userId, "user", start);
    liveAt30 := manager.ValidateSession(id, start + SESSION_TIMEOUT_TICKS);
    liveAfter := manager.ValidateSession(id, start + SESSION_TIMEOUT_TICKS + 1);
    var again := manager.ValidateSession(id, start);
    assert !again;
  }
}
