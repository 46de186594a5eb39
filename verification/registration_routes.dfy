/** The account-creation ceremony: src/routes/api/auth/begin-registration
    and complete-registration. */
module RegistrationRoutes {

  import opened Common
  import opened Dates
  import opened Schema
  import opened Db
  import opened Sessions
  import opened JsValues
  import opened WebAuthn
  import opened Routes

  /** `POST /api/auth/begin-registration`. The random user handle, challenge
      and session id are parameters. The registration is looked up or
      created before the body is read. */
  function BeginRegistration(s: Store, jar: CookieJar, session: Option<SessionView>, rp: RelyingParty, now: Instant,
                             body: Parsed<JsonBody>, newUserHandle: string, challenge: string, newSessionId: string)
    : (r: Outcome<RegistrationOptions>)
    // A signed-in caller is turned away and nothing changes.
    ensures SignedInUser(session).Some? ==> r == Outcome(Error(BadRequest, LogOutFirst), s, jar)
    // The session's own registration is reused: only its challenge is replaced.
    ensures KeysMatch(s) && SignedInUser(session).None? && session.Some? && session.value.registrationId.Some? ==>
      var id := session.value.registrationId.value;
      && (id !in s.registrations || body.Unparsable? ==> r == Outcome(Error(InternalError, ""), s, jar))
      && (id in s.registrations && body.Parsed? ==>
            && r.reply.Json?
            && r.reply.body.request.userId == s.registrations[id].userHandle
            && r.jar == jar
            && r.store == SetSessionChallenge(s, session.value.sessionId, challenge, now + TimeoutMilliseconds))
    // Without a registration, one is created; it stays even when the request
    // then fails. On success a new registration session holds the challenge,
    // and no user, credential, sticker or other session changes.
    ensures SignedInUser(session).None? && (session.None? || session.value.registrationId.None?) ==>
      var id := s.nextRegistrationId;
      && r.store.registrations == s.registrations[id := Registration(id, newUserHandle)]
      && r.store.nextRegistrationId > id
      && (r.reply.Json? <==> body.Parsed? && newSessionId !in s.sessions)
      && (r.reply.Error? ==>
            && r.reply == Error(InternalError, "")
            && r.jar == jar
            && r.store == s.(registrations := r.store.registrations, nextRegistrationId := r.store.nextRegistrationId))
      && (r.reply.Json? ==>
            && r.reply.body.request.userId == newUserHandle
            && newSessionId in r.store.sessions
            && r.store.sessions[newSessionId].registrationId == Some(id)
            && r.store.sessions[newSessionId].userId.None?
            && PendingChallenge(r.store, newSessionId, challenge, now + TimeoutMilliseconds)
            && r.store.sessions == s.sessions[newSessionId := r.store.sessions[newSessionId]]
            && r.store == s.(registrations := r.store.registrations, sessions := r.store.sessions,
                             nextRegistrationId := r.store.nextRegistrationId)
            && r.jar == jar[CookieName := Cookie(newSessionId, r.store.sessions[newSessionId].expiresUtc)])
    // The options carry the fresh challenge, the caller's user name ("" when
    // missing) and no exclusions.
    ensures r.reply.Json? ==>
      && body.Parsed?
      && r.reply.body.challenge == challenge
      && r.reply.body.request.userName == UserName(body.value)
      && r.reply.body.request.excludeCredentials.None?
      && r.reply.body.request.residentKey == Required
    ensures Valid(s) ==> Valid(r.store)
  {
    if SignedInUser(session).Some? then
      Outcome(Error(BadRequest, LogOutFirst), s, jar)
    else
      var (registration, s1) := GetOrCreateAccountRegistration(
        s, if session.Some? then session.value.registrationId else None, newUserHandle);
      if body.Unparsable? then
        Outcome(Error(InternalError, ""), s1, jar)
      else
        match registration
        case None =>
          // Reading `userHandle` of `undefined` throws.
          Outcome(Error(InternalError, ""), s1, jar)
        case Some(reg) =>
          var options := GetCredentialRegistrationOptions(rp, challenge, reg.userHandle, UserName(body.value), None);
          var challengeExpiresUtc := AddMilliseconds(now, options.timeout);
          if session.None? || session.value.registrationId != Some(reg.registrationId) then
            match StartRegistrationSession(s1, jar, now, newSessionId, reg.registrationId, options.challenge, challengeExpiresUtc)
            case None => Outcome(Error(InternalError, ""), s1, jar)
            case Some(e) => Outcome(Json(options), e.store, e.jar)
          else
            Outcome(Json(options), SetSessionChallenge(s1, session.value.sessionId, options.challenge, challengeExpiresUtc), jar)
  }

  /** The stored form of a registered credential: a multi-device credential
      can be backed up; the backup state and counter are copied. */
  function CredentialFromRegistration(info: RegistrationInfo): (c: NewCredential)
    ensures c.credentialId == info.credentialId && c.publicKey == info.credentialPublicKey
    ensures c.counter == info.counter && c.isBackedUp == info.credentialBackedUp
    ensures c.canBeBackedUp <==> info.credentialDeviceType == MultiDevice
  {
    NewCredential(info.credentialId, info.credentialPublicKey, info.counter,
                  info.credentialDeviceType == MultiDevice, info.credentialBackedUp)
  }

  /** The registration response passes: a challenge was pending and had not
      expired, the body parsed, and the library verified it against that
      challenge and returned the credential's details. */
  predicate RegistrationVerified(s: Store, sessionId: string, rp: RelyingParty, now: Instant,
                                 body: Parsed<RegistrationResponse>, verify: RegistrationVerifier) {
    var ch := GetAndClearChallenge(s, sessionId).0;
    && ch.Some? && now < ch.value.expires && body.Parsed?
    && var v := verify(RegistrationChecks(rp, body.value, ch.value.content));
       v.Returned? && v.result.verified && v.result.registrationInfo.Some?
  }

  /** The details verification returned; meaningful once it passed. */
  function VerifiedRegistrationInfo(s: Store, sessionId: string, rp: RelyingParty, now: Instant,
                                    body: Parsed<RegistrationResponse>, verify: RegistrationVerifier): RegistrationInfo
    requires RegistrationVerified(s, sessionId, rp, now, body, verify)
  {
    var ch := GetAndClearChallenge(s, sessionId).0;
    verify(RegistrationChecks(rp, body.value, ch.value.content)).result.registrationInfo.value
  }

  /** `POST /api/auth/complete-registration`. A body the JSON parser accepts
      is never `undefined`, so the source's check for that never fails; any
      parsed value, `null` included, goes to the verifier, which may throw. */
  function CompleteRegistration(s: Store, jar: CookieJar, session: Option<SessionView>, rp: RelyingParty, now: Instant,
                                body: Parsed<RegistrationResponse>, verify: RegistrationVerifier): (r: Outcome<Done>)
    ensures r.jar == jar
    // Without a registration in progress nothing is read or spent.
    ensures session.None? || session.value.registrationId.None? ==> r == Outcome(Error(BadRequest, ""), s, jar)
    ensures session.Some? && session.value.registrationId.Some? && session.value.registrationId.value !in s.registrations ==>
      r == Outcome(Error(BadRequest, ""), s, jar)
    // Otherwise the pending challenge is spent, whatever follows; a failure
    // changes nothing else. A body that is not JSON answers 500.
    ensures KeysMatch(s) && session.Some? && session.value.registrationId.Some? && session.value.registrationId.value in s.registrations ==>
      var sid := session.value.sessionId;
      var rid := session.value.registrationId.value;
      var spent := GetAndClearChallenge(s, sid).1;
      && (r.reply.Error? ==> r.store == spent)
      && var ch := GetAndClearChallenge(s, sid).0;
      && (r.reply.Error? ==>
            r.reply == Error(if ch.Some? && now < ch.value.expires && body.Unparsable? then InternalError else BadRequest, ""))
      && (r.reply.Json? <==>
            && RegistrationVerified(s, sid, rp, now, body, verify)
            && CreateUser(spent, sid, rid, NewUser(s.registrations[rid].userHandle,
                 CredentialFromRegistration(VerifiedRegistrationInfo(s, sid, rp, now, body, verify))), now).0.Some?)
      && (r.reply.Json? ==>
            CreatedUser(spent, r.store, sid, rid,
              NewUser(s.registrations[rid].userHandle, CredentialFromRegistration(VerifiedRegistrationInfo(s, sid, rp, now, body, verify))),
              now, spent.nextUserId))
    ensures Valid(s) ==> Valid(r.store)
  {
    if session.None? || session.value.registrationId.None? then
      Outcome(Error(BadRequest, ""), s, jar)
    else
      var sid := session.value.sessionId;
      match GetRegistration(s, session.value.registrationId.value)
      case None => Outcome(Error(BadRequest, ""), s, jar)
      case Some(registration) =>
        var (challenge, s1) := GetAndClearChallenge(s, sid);
        if challenge.None? || challenge.value.expires <= now then
          Outcome(Error(BadRequest, ""), s1, jar)
        else if body.Unparsable? then
          Outcome(Error(InternalError, ""), s1, jar)
        else
          match VerifyCredentialRegistration(verify, rp, body.value, challenge.value.content)
          case None => Outcome(Error(BadRequest, ""), s1, jar)
          case Some(verification) =>
            if !verification.verified || verification.registrationInfo.None? then
              Outcome(Error(BadRequest, ""), s1, jar)
            else
              var userToCreate := NewUser(registration.userHandle,
                                          CredentialFromRegistration(verification.registrationInfo.value));
              var (user, s2) := CreateUser(s1, sid, registration.registrationId, userToCreate, now);
              if user.None? then
                Outcome(Error(BadRequest, ""), s2, jar)
              else
                Outcome(Json(Done), s2, jar)
  }
}
