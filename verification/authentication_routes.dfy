/** The sign-in ceremony: src/routes/api/auth/begin-authentication and
    complete-authentication. */
module AuthenticationRoutes {

  import opened Common
  import opened Dates
  import opened Schema
  import opened Db
  import opened Sessions
  import opened WebAuthn
  import opened Routes

  /** `POST /api/auth/begin-authentication`. The random challenge and
      session id are parameters. */
  function BeginAuthentication(s: Store, jar: CookieJar, session: Option<SessionView>, rp: RelyingParty, now: Instant,
                               challenge: string, newSessionId: string): (r: Outcome<AuthenticationOptions>)
    ensures SignedInUser(session).Some? ==> r == Outcome(Error(BadRequest, AlreadySignedIn), s, jar)
    // An anonymous caller gets a new session bound to nothing, holding the challenge.
    ensures session.None? ==>
      && (r.reply.Json? <==> newSessionId !in s.sessions)
      && (r.reply.Error? ==> r == Outcome(Error(InternalError, ""), s, jar))
      && (r.reply.Json? ==>
            && newSessionId in r.store.sessions
            && r.store.sessions[newSessionId].registrationId.None?
            && r.store.sessions[newSessionId].userId.None?
            && PendingChallenge(r.store, newSessionId, challenge, now + TimeoutMilliseconds)
            && r.store == s.(sessions := s.sessions[newSessionId := r.store.sessions[newSessionId]])
            && r.jar == jar[CookieName := Cookie(newSessionId, r.store.sessions[newSessionId].expiresUtc)])
    // An existing session, a registration session included, only has its challenge replaced.
    ensures session.Some? && SignedInUser(session).None? ==>
      && r.reply.Json?
      && r.jar == jar
      && r.store == SetSessionChallenge(s, session.value.sessionId, challenge, now + TimeoutMilliseconds)
    ensures r.reply.Json? ==> r.reply.body.challenge == challenge && r.reply.body.request.allowCredentials.None?
    ensures Valid(s) ==> Valid(r.store)
  {
    if SignedInUser(session).Some? then
      Outcome(Error(BadRequest, AlreadySignedIn), s, jar)
    else
      var options := GetAuthenticationOptions(rp, challenge);
      var challengeExpiresUtc := AddMilliseconds(now, options.timeout);
      if session.None? then
        match StartAuthenticationSession(s, jar, now, newSessionId, options.challenge, challengeExpiresUtc)
        case None => Outcome(Error(InternalError, ""), s, jar)
        case Some(e) => Outcome(Json(options), e.store, e.jar)
      else
        Outcome(Json(options), SetSessionChallenge(s, session.value.sessionId, options.challenge, challengeExpiresUtc), jar)
  }

  /** What a successful sign-in writes back to the credential the response
      named: the new counter, and backup flags from the device type and
      backup state. */
  function CredentialUpdateFrom(info: AuthenticationInfo, credentialId: string): (u: CredentialUpdate)
    ensures u.credentialId == credentialId && u.counter == info.newCounter
    ensures u.isBackedUp == info.credentialBackedUp
    ensures u.canBeBackedUp <==> info.credentialDeviceType == MultiDevice
  {
    CredentialUpdate(credentialId, info.newCounter, info.credentialDeviceType == MultiDevice, info.credentialBackedUp)
  }

  /** Session `sessionId` held a challenge that had not expired at `now`. */
  predicate LiveChallenge(s: Store, sessionId: string, now: Instant) {
    var ch := GetAndClearChallenge(s, sessionId).0;
    ch.Some? && now < ch.value.expires
  }

  /** The verdict on the response, checked against the consumed challenge. */
  function Verification(s: Store, sessionId: string, rp: RelyingParty, now: Instant,
                        response: AuthenticationResponse, verify: AuthenticationVerifier): Option<VerifiedAuthentication>
    requires LiveChallenge(s, sessionId, now)
  {
    VerifyAuthentication(s, verify, rp, response, GetAndClearChallenge(s, sessionId).0.value.content)
  }

  /** `POST /api/auth/complete-authentication`. A body the JSON parser accepts
      is never `undefined`, so the source's check for that never fails. */
  function CompleteAuthentication(s: Store, jar: CookieJar, session: Option<SessionView>, rp: RelyingParty, now: Instant,
                                  body: Parsed<AuthenticationResponse>, verify: AuthenticationVerifier): (r: Outcome<Done>)
    ensures r.jar == jar
    ensures session.None? ==> r == Outcome(Error(BadRequest, ""), s, jar)
    ensures session.Some? ==>
      var sid := session.value.sessionId;
      var spent := GetAndClearChallenge(s, sid).1;
      // The challenge is spent first, and nothing else survives a failure.
      && (r.reply.Error? ==> r.store == spent)
      // A missing or expired challenge fails; a body that is not JSON answers 500.
      && (!LiveChallenge(s, sid, now) ==> r.reply == Error(BadRequest, ""))
      && (LiveChallenge(s, sid, now) && body.Unparsable? ==> r.reply == Error(InternalError, ""))
      // An unknown passkey and a failed signature read alike.
      && (LiveChallenge(s, sid, now) && body.Parsed? &&
          (Verification(s, sid, rp, now, body.value, verify).None? ||
           !Verification(s, sid, rp, now, body.value, verify).value.result.verified) ==>
            r.reply == Error(BadRequest, NotRecognised))
      // Success exactly when the signature checks and the sign-in is saved.
      && (r.reply.Json? <==>
            && LiveChallenge(s, sid, now) && body.Parsed?
            && var v := Verification(s, sid, rp, now, body.value, verify);
               && v.Some? && v.value.result.verified
               && SaveUserAuthentication(spent, sid, v.value.userId,
                    CredentialUpdateFrom(v.value.result.authenticationInfo, body.value.id), now).Some?)
      && (r.reply.Json? ==>
            && body.value.id in s.credentials
            && var v := Verification(s, sid, rp, now, body.value, verify).value;
               && v.userId == s.credentials[body.value.id].userId
               && SavedAuthentication(spent, r.store, sid, v.userId,
                    CredentialUpdateFrom(v.result.authenticationInfo, body.value.id), now))
    ensures Valid(s) ==> Valid(r.store)
  {
    if session.None? then
      Outcome(Error(BadRequest, ""), s, jar)
    else
      var sid := session.value.sessionId;
      var (challenge, s1) := GetAndClearChallenge(s, sid);
      if challenge.None? || challenge.value.expires <= now then
        Outcome(Error(BadRequest, ""), s1, jar)
      else if body.Unparsable? then
        Outcome(Error(InternalError, ""), s1, jar)
      else
        match VerifyAuthentication(s, verify, rp, body.value, challenge.value.content)
        case None => Outcome(Error(BadRequest, NotRecognised), s1, jar)
        case Some(verification) =>
          if !verification.result.verified then
            Outcome(Error(BadRequest, NotRecognised), s1, jar)
          else
            // The library reports back the id of the stored credential it was
            // handed, which is the one the response named.
            var update := CredentialUpdateFrom(verification.result.authenticationInfo, body.value.id);
            match SaveUserAuthentication(s1, sid, verification.userId, update, now)
            case None => Outcome(Error(InternalError, ""), s1, jar)
            case Some(s2) => Outcome(Json(Done), s2, jar)
  }

  /** On success the session is bound to the owner of the stored credential
      the response named and records that credential, whatever else the
      request carried, and the session no longer stands for a registration. */
  lemma SignInBindsStoredOwner(s: Store, jar: CookieJar, session: Option<SessionView>, rp: RelyingParty, now: Instant,
                               body: Parsed<AuthenticationResponse>, verify: AuthenticationVerifier)
    requires CompleteAuthentication(s, jar, session, rp, now, body, verify).reply.Json?
    ensures session.Some? && body.Parsed? && body.value.id in s.credentials
    ensures var r := CompleteAuthentication(s, jar, session, rp, now, body, verify);
      && session.value.sessionId in r.store.sessions
      && r.store.sessions[session.value.sessionId].userId == Some(s.credentials[body.value.id].userId)
      && r.store.sessions[session.value.sessionId].credentialId == Some(body.value.id)
      && r.store.sessions[session.value.sessionId].registrationId.None?
      && r.store.sessions[session.value.sessionId].challenge.None?
  {
  }
}
