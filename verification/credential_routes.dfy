/** Managing the passkeys of a signed-in user:
    src/routes/api/auth/begin-credential-creation,
    complete-credential-creation and delete-credential. */
module CredentialRoutes {

  import opened Common
  import opened Dates
  import opened Schema
  import opened Db
  import opened Sessions
  import opened JsValues
  import opened WebAuthn
  import opened Routes
  import RegistrationRoutes

  /** `POST /api/auth/begin-credential-creation`. The body is read once the
      user is known. */
  function BeginCredentialCreation(s: Store, jar: CookieJar, session: Option<SessionView>, rp: RelyingParty, now: Instant,
                                   body: Parsed<JsonBody>, challenge: string): (r: Outcome<RegistrationOptions>)
    ensures r.jar == jar
    ensures SignedInUser(session).None? ==> r == Outcome(Error(Unauthorized, Unauthenticated), s, jar)
    ensures SignedInUser(session).Some? ==>
      var userId := SignedInUser(session).value;
      && (userId !in s.users || s.users[userId].userHandle == "" ==> r == Outcome(Error(BadRequest, UserNotFound), s, jar))
      && (userId in s.users && s.users[userId].userHandle != "" && body.Unparsable? ==>
            r == Outcome(Error(InternalError, ""), s, jar))
      && (userId in s.users && s.users[userId].userHandle != "" && body.Parsed? ==>
            && r.reply.Json?
            && r.reply.body.request.userId == s.users[userId].userHandle
            // Every passkey the user already has is excluded.
            && r.reply.body.request.excludeCredentials.Some?
            && (set d | d in r.reply.body.request.excludeCredentials.value :: d.id)
               == (set k | k in s.credentials && s.credentials[k].userId == userId)
            // Only the existing session's challenge changes: no session is created.
            && r.store == SetSessionChallenge(s, session.value.sessionId, challenge, now + TimeoutMilliseconds))
    ensures r.reply.Json? ==>
      && body.Parsed?
      && r.reply.body.challenge == challenge
      && r.reply.body.request.userName == UserName(body.value)
    ensures Valid(s) ==> Valid(r.store)
  {
    if SignedInUser(session).None? then
      Outcome(Error(Unauthorized, Unauthenticated), s, jar)
    else
      var userId := SignedInUser(session).value;
      var userHandle := GetUserHandle(s, userId);
      if userHandle.None? || userHandle.value == "" then
        Outcome(Error(BadRequest, UserNotFound), s, jar)
      else
        var existingCredentialIds := GetCredentialIds(s, userId);
        if body.Unparsable? then
          Outcome(Error(InternalError, ""), s, jar)
        else
          var options := GetCredentialRegistrationOptions(rp, challenge, userHandle.value, UserName(body.value),
                                                          Some(existingCredentialIds));
          var challengeExpiresUtc := AddMilliseconds(now, options.timeout);
          Outcome(Json(options), SetSessionChallenge(s, session.value.sessionId, options.challenge, challengeExpiresUtc), jar)
  }

  /** `POST /api/auth/complete-credential-creation`. As in account
      registration, the check for an `undefined` body never fails. */
  function CompleteCredentialCreation(s: Store, jar: CookieJar, session: Option<SessionView>, rp: RelyingParty, now: Instant,
                                      body: Parsed<RegistrationResponse>, verify: RegistrationVerifier): (r: Outcome<Done>)
    ensures r.jar == jar
    // Without a signed-in user nothing is read or spent.
    ensures SignedInUser(session).None? ==> r == Outcome(Error(Unauthorized, ""), s, jar)
    ensures SignedInUser(session).Some? ==>
      var sid := session.value.sessionId;
      var userId := SignedInUser(session).value;
      var ch := GetAndClearChallenge(s, sid).0;
      var spent := GetAndClearChallenge(s, sid).1;
      // The challenge is spent first, and nothing else survives a failure.
      && (r.reply.Error? ==> r.store == spent)
      // A body that is not JSON answers 500; any other failed check, 400.
      && (ch.Some? && now < ch.value.expires && body.Unparsable? ==> r.reply == Error(InternalError, ""))
      && (!RegistrationRoutes.RegistrationVerified(s, sid, rp, now, body, verify) && !(ch.Some? && now < ch.value.expires && body.Unparsable?) ==>
            r.reply == Error(BadRequest, ""))
      // Success exactly when verification passed and the passkey is new.
      && (r.reply.Json? <==>
            && RegistrationRoutes.RegistrationVerified(s, sid, rp, now, body, verify)
            && CreateCredential(spent, userId, RegistrationRoutes.CredentialFromRegistration(
                 RegistrationRoutes.VerifiedRegistrationInfo(s, sid, rp, now, body, verify)), now).Some?)
      && (r.reply.Json? ==>
            && RegistrationRoutes.RegistrationVerified(s, sid, rp, now, body, verify)
            && var c := RegistrationRoutes.CredentialFromRegistration(
                 RegistrationRoutes.VerifiedRegistrationInfo(s, sid, rp, now, body, verify));
               // The new passkey belongs to the session's user.
               && c.credentialId !in s.credentials
               && r.store.credentials == spent.credentials[c.credentialId :=
                    Credential(c.credentialId, userId, c.publicKey, c.counter, now, now, c.canBeBackedUp, c.isBackedUp)]
               && r.store == spent.(credentials := r.store.credentials))
    ensures Valid(s) ==> Valid(r.store)
  {
    if SignedInUser(session).None? then
      Outcome(Error(Unauthorized, ""), s, jar)
    else
      var sid := session.value.sessionId;
      var (challenge, s1) := GetAndClearChallenge(s, sid);
      if challenge.None? || challenge.value.expires <= now then
        Outcome(Error(BadRequest, ""), s1, jar)
      else if body.Unparsable? then
        Outcome(Error(InternalError, ""), s1, jar)
      else
        match VerifyCredentialRegistration(verify, rp, body.value, challenge.value.content)
        case None => Outcome(Error(BadRequest, ""), s1, jar)
        case Some(verification) =>
          if !verification.verified || verification.registrationInfo.None? then
            Outcome(Error(BadRequest, ""), s1, jar)
          else
            var credential := RegistrationRoutes.CredentialFromRegistration(verification.registrationInfo.value);
            match CreateCredential(s1, SignedInUser(session).value, credential, now)
            case None => Outcome(Error(InternalError, ""), s1, jar)
            case Some(s2) => Outcome(Json(Done), s2, jar)
  }

  /** `POST /api/auth/delete-credential`: the body's `credentialId` field
      names the passkey; a `null` body names none. */
  function DeleteCredential(s: Store, jar: CookieJar, session: Option<SessionView>, body: Parsed<JsonBody>): (r: Outcome<Done>)
    ensures r.jar == jar
    ensures r.reply.Error? ==> r.store == s
    ensures SignedInUser(session).None? ==> r.reply == Error(Unauthorized, Unauthenticated)
    ensures SignedInUser(session).Some? && body.Unparsable? ==> r.reply == Error(InternalError, "")
    ensures SignedInUser(session).Some? && body.Parsed? ==>
      var id := OptionalToString(OptionalProperty(body.value, "credentialId"));
      var userId := SignedInUser(session).value;
      && (id.None? || id.value == "" ==> r.reply == Error(BadRequest, CredentialIdMissing))
      // Only the caller's own passkeys can be named.
      && (id.Some? && id.value != "" && GetUserFromCredential(s, id.value) != Some(userId) ==>
            r.reply == Error(BadRequest, InvalidCredentialId))
      // The passkey the session signed in with is kept.
      && (id.Some? && id.value != "" && GetUserFromCredential(s, id.value) == Some(userId)
          && GetSessionCredential(s, session.value.sessionId) == Some(id.value) ==>
            r.reply == Error(BadRequest, CurrentPasskey))
      // Otherwise exactly that credential goes, unless another session still refers to it.
      && (r.reply.Json? <==>
            && id.Some? && id.value != "" && GetUserFromCredential(s, id.value) == Some(userId)
            && GetSessionCredential(s, session.value.sessionId) != Some(id.value)
            && Db.DeleteCredential(s, id.value).Some?)
      && (r.reply.Json? ==>
            && id.Some? && id.value in s.credentials && s.credentials[id.value].userId == userId
            && r.store == s.(credentials := s.credentials - {id.value}))
    ensures var current := GetSessionCredential(s, if session.Some? then session.value.sessionId else "");
      session.Some? && current.Some? && current.value in s.credentials ==> current.value in r.store.credentials
    ensures Valid(s) ==> Valid(r.store)
  {
    if SignedInUser(session).None? then
      Outcome(Error(Unauthorized, Unauthenticated), s, jar)
    else if body.Unparsable? then
      Outcome(Error(InternalError, ""), s, jar)
    else
      var id := OptionalToString(OptionalProperty(body.value, "credentialId"));
      if id.None? || id.value == "" then
        Outcome(Error(BadRequest, CredentialIdMissing), s, jar)
      else if GetUserFromCredential(s, id.value) != SignedInUser(session) then
        Outcome(Error(BadRequest, InvalidCredentialId), s, jar)
      else if id == GetSessionCredential(s, session.value.sessionId) then
        Outcome(Error(BadRequest, CurrentPasskey), s, jar)
      else
        match Db.DeleteCredential(s, id.value)
        case None => Outcome(Error(InternalError, ""), s, jar)
        case Some(s') => Outcome(Json(Done), s', jar)
  }
}
