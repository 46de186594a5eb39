/** The session lifecycle (src/lib/server/sessions/index.ts) over the store
    and the response's cookie jar. The current time and the 32 random bytes of
    a new session id are parameters. */
module Sessions {

  import opened Common
  import opened Dates
  import opened Schema
  import opened Db

  const CookieName: string := "session"
  const SessionLengthHours: int := 7 * 24

  /** A cookie's value and expiry; the transport flags carry no logic here. */
  datatype Cookie = Cookie(value: string, expires: Instant)

  type CookieJar = map<string, Cookie>

  /** What `getSession` hands to the handlers (`App.Locals.session`). */
  datatype SessionView = SessionView(sessionId: string, registrationId: Option<nat>, userId: Option<nat>)

  /** The state a request leaves behind: the store and the cookie jar. */
  datatype Effect = Effect(store: Store, jar: CookieJar)

  function SetCookie(jar: CookieJar, sessionId: string, expires: Instant): (r: CookieJar)
    ensures CookieName in r && r[CookieName] == Cookie(sessionId, expires)
    ensures forall name :: name != CookieName ==> (name in r <==> name in jar)
    ensures forall name :: name in jar && name != CookieName ==> r[name] == jar[name]
  {
    jar[CookieName := Cookie(sessionId, expires)]
  }

  /** The row a new session is stored as. */
  function NewSessionRow(sessionId: string, registrationId: Option<nat>, now: Instant, challenge: string, challengeExpiresUtc: Instant): Session {
    Session(sessionId, registrationId, None, None, now, AddHours(now, SessionLengthHours), Some(challenge), Some(challengeExpiresUtc))
  }

  /** The store and cookie after a session was started: the row is stored
      under its id, no other row changed, and the cookie names it and
      expires when it does. */
  predicate SessionStarted(s: Store, jar: CookieJar, e: Effect, row: Session) {
    && e.store == s.(sessions := s.sessions[row.sessionId := row])
    && e.jar == jar[CookieName := Cookie(row.sessionId, row.expiresUtc)]
  }

  function StartSession(s: Store, jar: CookieJar, row: Session): (r: Option<Effect>)
    ensures r.Some? <==> row.sessionId !in s.sessions && SessionReferencesExist(s, row)
    ensures r.Some? ==> SessionStarted(s, jar, r.value, row)
  {
    match InsertSession(s, row)
    case None => None
    case Some(s') => Some(Effect(s', SetCookie(jar, row.sessionId, row.expiresUtc)))
  }

  /** `startRegistrationSession`. None when the new id is already taken or the
      registration does not exist (the insert raises). */
  function StartRegistrationSession(s: Store, jar: CookieJar, now: Instant, newSessionId: string,
                                    registrationId: nat, challenge: string, challengeExpiresUtc: Instant): (r: Option<Effect>)
    ensures r.Some? <==> newSessionId !in s.sessions && registrationId in s.registrations
    ensures r.Some? ==> newSessionId in r.value.store.sessions
    ensures r.Some? ==>
      var row := r.value.store.sessions[newSessionId];
      && SessionStarted(s, jar, r.value, row)
      && row.registrationId == Some(registrationId) && row.userId.None? && row.credentialId.None?
      && row.createdUtc == now && row.expiresUtc == now + SessionLengthHours * MillisPerHour
      && row.challenge == Some(challenge) && row.challengeExpiresUtc == Some(challengeExpiresUtc)
      && r.value.jar[CookieName] == Cookie(newSessionId, row.expiresUtc)
    ensures r.Some? && Valid(s) ==> Valid(r.value.store)
  {
    StartSession(s, jar, NewSessionRow(newSessionId, Some(registrationId), now, challenge, challengeExpiresUtc))
  }

  /** `startAuthenticationSession`: like a registration session, bound to nothing yet. */
  function StartAuthenticationSession(s: Store, jar: CookieJar, now: Instant, newSessionId: string,
                                      challenge: string, challengeExpiresUtc: Instant): (r: Option<Effect>)
    ensures r.Some? <==> newSessionId !in s.sessions
    ensures r.Some? ==> newSessionId in r.value.store.sessions
    ensures r.Some? ==>
      var row := r.value.store.sessions[newSessionId];
      && SessionStarted(s, jar, r.value, row)
      && row.registrationId.None? && row.userId.None? && row.credentialId.None?
      && row.createdUtc == now && row.expiresUtc == now + SessionLengthHours * MillisPerHour
      && row.challenge == Some(challenge) && row.challengeExpiresUtc == Some(challengeExpiresUtc)
      && r.value.jar[CookieName] == Cookie(newSessionId, row.expiresUtc)
    ensures r.Some? && Valid(s) ==> Valid(r.value.store)
  {
    StartSession(s, jar, NewSessionRow(newSessionId, None, now, challenge, challengeExpiresUtc))
  }

  /** `setSessionChallenge`: any pending challenge and its expiry are replaced;
      the rest of the session is kept. */
  function SetSessionChallenge(s: Store, sessionId: string, challenge: string, expiresUtc: Instant): (r: Store)
    ensures sessionId in s.sessions ==>
      && sessionId in r.sessions
      && r.sessions[sessionId].challenge == Some(challenge)
      && r.sessions[sessionId].challengeExpiresUtc == Some(expiresUtc)
      && r.sessions[sessionId] == s.sessions[sessionId].(challenge := Some(challenge), challengeExpiresUtc := Some(expiresUtc))
    ensures forall k :: k != sessionId ==> (k in r.sessions <==> k in s.sessions)
    ensures forall k :: k != sessionId && k in r.sessions ==> r.sessions[k] == s.sessions[k]
    ensures r == s.(sessions := r.sessions)
    ensures Valid(s) ==> Valid(r)
  {
    UpdateChallenge(s, sessionId, challenge, expiresUtc)
  }

  /** The challenge that was set last is the one consumed, with its own expiry. */
  lemma SetThenConsumeChallenge(s: Store, sessionId: string, first: string, firstExpiry: Instant, second: string, secondExpiry: Instant)
    requires sessionId in s.sessions
    ensures
      var s' := SetSessionChallenge(SetSessionChallenge(s, sessionId, first, firstExpiry), sessionId, second, secondExpiry);
      GetAndClearChallenge(s', sessionId).0 == Some(Challenge(second, secondExpiry))
  {
  }

  /** `endSession`: the cookie and the row are both deleted. */
  function EndSession(s: Store, jar: CookieJar, sessionId: string): (r: Effect)
    ensures CookieName !in r.jar && sessionId !in r.store.sessions
    ensures forall name :: name != CookieName ==> (name in r.jar <==> name in jar)
    ensures forall name :: name in r.jar ==> r.jar[name] == jar[name]
    ensures forall k :: k != sessionId ==> (k in r.store.sessions <==> k in s.sessions)
    ensures forall k :: k in r.store.sessions ==> r.store.sessions[k] == s.sessions[k]
    ensures r.store == s.(sessions := r.store.sessions)
    ensures Valid(s) ==> Valid(r.store)
  {
    Effect(DeleteSession(s, sessionId), jar - {CookieName})
  }

  /** Ending a session twice is ending it once. */
  lemma EndSessionIdempotent(s: Store, jar: CookieJar, sessionId: string)
    ensures
      var once := EndSession(s, jar, sessionId);
      EndSession(once.store, once.jar, sessionId) == once
  {
  }

  /** `getSession`: the session the cookie names, if it is stored and not yet
      expired. A cookie naming no row is deleted; an expired session is ended. */
  function GetSession(s: Store, jar: CookieJar, now: Instant): (r: (Option<SessionView>, Effect))
    ensures (CookieName !in jar || jar[CookieName].value == "") ==> r == (None, Effect(s, jar))
    ensures r.0.Some? ==>
      var id := r.0.value.sessionId;
      && CookieName in jar && jar[CookieName].value == id
      && id in s.sessions && now < s.sessions[id].expiresUtc
      && r.0.value.registrationId == s.sessions[id].registrationId
      && r.0.value.userId == s.sessions[id].userId
      && r.1 == Effect(s, jar)
    // A stored, unexpired session is always found.
    ensures CookieName in jar && jar[CookieName].value != "" && jar[CookieName].value in s.sessions
            && now < s.sessions[jar[CookieName].value].expiresUtc ==>
      r.0.Some? && r.0.value.sessionId == jar[CookieName].value
    // Otherwise the cookie goes, and so does the expired row; nothing else changes.
    ensures CookieName in jar && jar[CookieName].value != "" && r.0.None? ==>
      var id := jar[CookieName].value;
      && r.1.jar == jar - {CookieName}
      && id !in r.1.store.sessions
      && r.1.store == s.(sessions := s.sessions - {id})
    ensures Valid(s) ==> Valid(r.1.store)
  {
    if CookieName !in jar || jar[CookieName].value == "" then
      (None, Effect(s, jar))
    else
      var sessionId := jar[CookieName].value;
      match Db.GetSession(s, sessionId)
      case None => (None, Effect(s, jar - {CookieName}))
      case Some(row) =>
        if row.expiresUtc <= now then
          (None, EndSession(s, jar, sessionId))
        else
          (Some(SessionView(sessionId, row.registrationId, row.userId)), Effect(s, jar))
  }

  /** Looking the session up again at the same time finds the same answer
      and changes nothing more. */
  lemma GetSessionSettles(s: Store, jar: CookieJar, now: Instant)
    ensures
      var first := GetSession(s, jar, now);
      var second := GetSession(first.1.store, first.1.jar, now);
      second.0 == first.0 && second.1 == first.1
  {
  }
}
