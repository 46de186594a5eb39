/** Properties that span more than one request of the passkey ceremonies:
    a completed ceremony cannot be replayed, because every completion
    spends the session's challenge as soon as the session checks pass, before
    it reads the body or asks the verifier. */
module Ceremonies {

  import opened Common
  import opened Dates
  import opened Schema
  import opened Db
  import opened Sessions
  import opened WebAuthn
  import opened JsValues
  import opened Routes
  import RegistrationRoutes
  import AuthenticationRoutes
  import CredentialRoutes

  /** Session `sessionId`, if it exists, holds no challenge. */
  predicate NoPendingChallenge(s: Store, sessionId: string) {
    sessionId in s.sessions ==> s.sessions[sessionId].challenge.None?
  }

  /** Without a pending challenge every completion on that session fails,
      whatever the response and whatever the verifier says. */
  lemma NoChallengeNoCompletion(s: Store, jar: CookieJar, session: SessionView, rp: RelyingParty, now: Instant,
                                registration: Parsed<RegistrationResponse>, verifyRegistration: RegistrationVerifier,
                                authentication: Parsed<AuthenticationResponse>, verifyAuthentication: AuthenticationVerifier)
    requires KeysMatch(s)
    requires NoPendingChallenge(s, session.sessionId)
    ensures RegistrationRoutes.CompleteRegistration(s, jar, Some(session), rp, now, registration, verifyRegistration).reply.Error?
    ensures AuthenticationRoutes.CompleteAuthentication(s, jar, Some(session), rp, now, authentication, verifyAuthentication).reply.Error?
    ensures CredentialRoutes.CompleteCredentialCreation(s, jar, Some(session), rp, now, registration, verifyRegistration).reply.Error?
  {
  }

  /** A successful account registration leaves no challenge behind, so the
      same response cannot complete a second time. */
  lemma RegistrationSpendsChallenge(s: Store, jar: CookieJar, session: SessionView, rp: RelyingParty, now: Instant,
                                    body: Parsed<RegistrationResponse>, verify: RegistrationVerifier)
    requires Valid(s)
    requires RegistrationRoutes.CompleteRegistration(s, jar, Some(session), rp, now, body, verify).reply.Json?
    ensures NoPendingChallenge(RegistrationRoutes.CompleteRegistration(s, jar, Some(session), rp, now, body, verify).store, session.sessionId)
    ensures Valid(RegistrationRoutes.CompleteRegistration(s, jar, Some(session), rp, now, body, verify).store)
  {
  }

  /** A successful extra-passkey creation leaves no challenge behind. */
  lemma CredentialCreationSpendsChallenge(s: Store, jar: CookieJar, session: SessionView, rp: RelyingParty, now: Instant,
                                          body: Parsed<RegistrationResponse>, verify: RegistrationVerifier)
    requires CredentialRoutes.CompleteCredentialCreation(s, jar, Some(session), rp, now, body, verify).reply.Json?
    ensures NoPendingChallenge(CredentialRoutes.CompleteCredentialCreation(s, jar, Some(session), rp, now, body, verify).store, session.sessionId)
  {
  }

  /** Replaying a completed sign-in on the same session fails, even with a
      verifier that accepts everything. */
  lemma SignInCannotReplay(s: Store, jar: CookieJar, session: SessionView, rp: RelyingParty, now: Instant, later: Instant,
                           body: Parsed<AuthenticationResponse>, verify: AuthenticationVerifier, again: SessionView)
    requires AuthenticationRoutes.CompleteAuthentication(s, jar, Some(session), rp, now, body, verify).reply.Json?
    requires again.sessionId == session.sessionId
    ensures var first := AuthenticationRoutes.CompleteAuthentication(s, jar, Some(session), rp, now, body, verify);
      AuthenticationRoutes.CompleteAuthentication(first.store, first.jar, Some(again), rp, later, body, verify).reply.Error?
  {
  }

  /** The passkey a session signed in with is the one the delete handler
      protects: right after signing in, asking to delete it is refused, as
      "current passkey" unless its id is empty, which reads as missing. */
  lemma SignedInPasskeyKept(s: Store, jar: CookieJar, session: SessionView, rp: RelyingParty, now: Instant,
                            body: Parsed<AuthenticationResponse>, verify: AuthenticationVerifier)
    requires AuthenticationRoutes.CompleteAuthentication(s, jar, Some(session), rp, now, body, verify).reply.Json?
    ensures body.Parsed? && body.value.id in s.credentials
    ensures var first := AuthenticationRoutes.CompleteAuthentication(s, jar, Some(session), rp, now, body, verify);
      var signedIn := SessionView(session.sessionId, None, Some(s.credentials[body.value.id].userId));
      var request := Parsed(Fields(map["credentialId" := Str(body.value.id)]));
      var second := CredentialRoutes.DeleteCredential(first.store, first.jar, Some(signedIn), request);
      && second.reply.Error? && second.store == first.store
      && (body.value.id != "" ==> second.reply == Error(BadRequest, CurrentPasskey))
  {
  }
}
