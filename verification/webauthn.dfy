/** The passkey wrappers of src/lib/server/auth: the relying-party
    configuration, the option records handed to the WebAuthn library, and
    the verify-or-null wrappers. The library is an oracle: option generation
    contributes only a random challenge, and verification is a function the
    caller supplies, which returns a result or throws. */
module WebAuthn {

  import opened Common
  import opened Schema
  import opened Db

  /** Five minutes. */
  const TimeoutMilliseconds: int := 5 * 60 * 1000

  /** ES256 and RS256, in that order. */
  const SupportedAlgorithmIds: seq<int> := [-7, -257]

  const PublicKeyType: string := "public-key"

  /** The relying party, fixed by the environment when the app is built. */
  datatype RelyingParty = RelyingParty(id: string, origin: string, name: string)

  datatype Requirement = Required | Preferred | Discouraged

  datatype CredentialDescriptor = CredentialDescriptor(id: string, kind: string)

  /** What `getCredentialRegistrationOptions` asks the library for. */
  datatype RegistrationRequest = RegistrationRequest(
    rpId: string,
    rpName: string,
    userId: string,
    userName: string,
    residentKey: Requirement,
    userVerification: Requirement,
    supportedAlgorithmIds: seq<int>,
    timeout: int,
    excludeCredentials: Option<set<CredentialDescriptor>>)

  /** The generated options: the request, the fresh challenge and the timeout
      the library reports back. */
  datatype RegistrationOptions = RegistrationOptions(request: RegistrationRequest, challenge: string, timeout: int)

  /** What `getAuthenticationOptions` asks the library for. */
  datatype AuthenticationRequest = AuthenticationRequest(
    rpId: string,
    userVerification: Requirement,
    timeout: int,
    allowCredentials: Option<set<CredentialDescriptor>>)

  datatype AuthenticationOptions = AuthenticationOptions(request: AuthenticationRequest, challenge: string, timeout: int)

  /** An exclusion entry per given credential id. */
  function Descriptors(ids: set<string>): (d: set<CredentialDescriptor>)
    ensures forall x :: x in d ==> x.kind == PublicKeyType && x.id in ids
    ensures forall id :: id in ids ==> CredentialDescriptor(id, PublicKeyType) in d
  {
    set id | id in ids :: CredentialDescriptor(id, PublicKeyType)
  }

  /** `getCredentialRegistrationOptions`: a discoverable credential is
      required, user verification preferred, the configured algorithms and
      timeout used, and the given credentials excluded. */
  function GetCredentialRegistrationOptions(rp: RelyingParty, challenge: string, userHandle: string, userName: string,
                                            excludeCredentialIds: Option<set<string>>): (o: RegistrationOptions)
    ensures o.challenge == challenge && o.timeout == TimeoutMilliseconds
    ensures o.request.rpId == rp.id && o.request.rpName == rp.name
    ensures o.request.userId == userHandle && o.request.userName == userName
    ensures o.request.residentKey == Required && o.request.userVerification == Preferred
    ensures o.request.supportedAlgorithmIds == SupportedAlgorithmIds && o.request.timeout == TimeoutMilliseconds
    ensures o.request.excludeCredentials.None? <==> excludeCredentialIds.None?
    ensures excludeCredentialIds.Some? ==>
      (set d | d in o.request.excludeCredentials.value :: d.id) == excludeCredentialIds.value
      && forall d :: d in o.request.excludeCredentials.value ==> d.kind == PublicKeyType
  {
    var excluded := match excludeCredentialIds
      case None => None
      case Some(ids) => Some(Descriptors(ids));
    var request := RegistrationRequest(rp.id, rp.name, userHandle, userName, Required, Preferred,
                                       SupportedAlgorithmIds, TimeoutMilliseconds, excluded);
    RegistrationOptions(request, challenge, request.timeout)
  }

  /** `getAuthenticationOptions`: user verification preferred, the configured
      timeout, and no allow-list, so the authenticator offers any passkey it
      holds for this relying party. */
  function GetAuthenticationOptions(rp: RelyingParty, challenge: string): (o: AuthenticationOptions)
    ensures o.challenge == challenge && o.timeout == TimeoutMilliseconds
    ensures o.request.rpId == rp.id && o.request.userVerification == Preferred
    ensures o.request.timeout == TimeoutMilliseconds && o.request.allowCredentials.None?
  {
    var request := AuthenticationRequest(rp.id, Preferred, TimeoutMilliseconds, None);
    AuthenticationOptions(request, challenge, request.timeout)
  }

  /** `getOrCreateAccountRegistration`. Given an id, the stored registration
      is returned and nothing is created; the source asserts that it exists,
      and None stands for the `undefined` it gets when it does not. Given no
      id, one registration is created with the fresh user handle. */
  function GetOrCreateAccountRegistration(s: Store, registrationId: Option<nat>, newUserHandle: string): (r: (Option<Registration>, Store))
    ensures registrationId.Some? ==> r.1 == s
    ensures registrationId.Some? ==>
      (r.0.Some? <==> registrationId.value in s.registrations)
      && (r.0.Some? ==> r.0.value == s.registrations[registrationId.value])
    ensures registrationId.None? ==>
      && r.0.Some?
      && r.0.value.userHandle == newUserHandle
      && r.0.value.registrationId in r.1.registrations
      && r.1.registrations[r.0.value.registrationId] == r.0.value
      && r.1.registrations.Keys == s.registrations.Keys + {r.0.value.registrationId}
      && r.1 == s.(registrations := r.1.registrations, nextRegistrationId := r.1.nextRegistrationId)
    ensures registrationId.None? && Valid(s) ==> r.0.value.registrationId !in s.registrations
    ensures Valid(s) ==> Valid(r.1)
  {
    match registrationId
    case Some(id) => (GetRegistration(s, id), s)
    case None =>
      var (id, s') := CreateRegistration(s, newUserHandle);
      (Some(Registration(id, newUserHandle)), s')
  }

  // ----- verification -----

  datatype DeviceType = SingleDevice | MultiDevice

  /** What the library throws or returns. */
  datatype Verdict<+T> = Returned(result: T) | Threw

  /** A browser's registration response; only its credential id is looked at
      outside the library. */
  datatype RegistrationResponse = RegistrationResponse(id: string, body: string)

  datatype VerifyRegistrationOptions = VerifyRegistrationOptions(
    response: RegistrationResponse,
    expectedRpId: string,
    expectedOrigin: string,
    expectedChallenge: string,
    requireUserVerification: bool,
    supportedAlgorithmIds: seq<int>)

  datatype RegistrationInfo = RegistrationInfo(
    credentialId: string,
    credentialPublicKey: seq<bv8>,
    counter: int,
    credentialDeviceType: DeviceType,
    credentialBackedUp: bool)

  datatype RegistrationVerification = RegistrationVerification(verified: bool, registrationInfo: Option<RegistrationInfo>)

  /** `verifyRegistrationResponse`. */
  type RegistrationVerifier = VerifyRegistrationOptions -> Verdict<RegistrationVerification>

  /** The checks registration verification asks for: this relying party and
      origin, the consumed challenge, the configured algorithms, and user
      verification not required. */
  function RegistrationChecks(rp: RelyingParty, response: RegistrationResponse, expectedChallenge: string): (o: VerifyRegistrationOptions)
    ensures o.response == response && o.expectedChallenge == expectedChallenge
    ensures o.expectedRpId == rp.id && o.expectedOrigin == rp.origin
    ensures !o.requireUserVerification && o.supportedAlgorithmIds == SupportedAlgorithmIds
  {
    VerifyRegistrationOptions(response, rp.id, rp.origin, expectedChallenge, false, SupportedAlgorithmIds)
  }

  /** `verifyCredentialRegistration`: the library's result, or None when it throws. */
  function VerifyCredentialRegistration(verify: RegistrationVerifier, rp: RelyingParty, response: RegistrationResponse,
                                        expectedChallenge: string): (r: Option<RegistrationVerification>)
    ensures var v := verify(RegistrationChecks(rp, response, expectedChallenge));
      && (r.None? <==> v.Threw?)
      && (r.Some? ==> r.value == v.result)
  {
    match verify(RegistrationChecks(rp, response, expectedChallenge))
    case Threw => None
    case Returned(v) => Some(v)
  }

  /** A browser's authentication response, naming the credential it signed with. */
  datatype AuthenticationResponse = AuthenticationResponse(id: string, body: string)

  /** The stored credential the signature is checked against. */
  datatype Authenticator = Authenticator(credentialId: string, credentialPublicKey: seq<bv8>, counter: int)

  datatype VerifyAuthenticationOptions = VerifyAuthenticationOptions(
    response: AuthenticationResponse,
    expectedRpId: string,
    expectedOrigin: string,
    expectedChallenge: string,
    requireUserVerification: bool,
    authenticator: Authenticator)

  /** The library's report on a checked signature. It also echoes the id of
      the stored credential it was handed, which is always the response's
      own id, so that echo is not represented. */
  datatype AuthenticationInfo = AuthenticationInfo(
    newCounter: int,
    credentialDeviceType: DeviceType,
    credentialBackedUp: bool)

  datatype AuthenticationVerification = AuthenticationVerification(verified: bool, authenticationInfo: AuthenticationInfo)

  /** `verifyAuthenticationResponse`. */
  type AuthenticationVerifier = VerifyAuthenticationOptions -> Verdict<AuthenticationVerification>

  /** The library's answer together with the owner of the stored credential. */
  datatype VerifiedAuthentication = VerifiedAuthentication(result: AuthenticationVerification, userId: nat)

  /** The checks authentication verification asks for: the stored public key
      and counter of credential `c`, the consumed challenge, this relying
      party, and user verification not required. */
  function AuthenticationChecks(rp: RelyingParty, response: AuthenticationResponse, expectedChallenge: string, c: Credential): (o: VerifyAuthenticationOptions)
    ensures o.response == response && o.expectedChallenge == expectedChallenge
    ensures o.expectedRpId == rp.id && o.expectedOrigin == rp.origin && !o.requireUserVerification
    ensures o.authenticator == Authenticator(response.id, c.publicKey, c.counter)
  {
    VerifyAuthenticationOptions(response, rp.id, rp.origin, expectedChallenge, false,
                                Authenticator(response.id, c.publicKey, c.counter))
  }

  /** `verifyAuthentication`: the credential is looked up first; an unknown one
      answers None. Otherwise the library checks the response against the
      stored key and counter, and the user returned is the credential's owner.
      A thrown error answers None. */
  function VerifyAuthentication(s: Store, verify: AuthenticationVerifier, rp: RelyingParty,
                                response: AuthenticationResponse, expectedChallenge: string): (r: Option<VerifiedAuthentication>)
    ensures response.id !in s.credentials ==> r.None?
    ensures response.id in s.credentials ==>
      var c := s.credentials[response.id];
      var v := verify(AuthenticationChecks(rp, response, expectedChallenge, c));
      && (r.None? <==> v.Threw?)
      && (r.Some? ==> r.value == VerifiedAuthentication(v.result, c.userId))
  {
    match GetCredential(s, response.id)
    case None => None
    case Some(c) =>
      match verify(AuthenticationChecks(rp, response, expectedChallenge, c))
      case Threw => None
      case Returned(v) => Some(VerifiedAuthentication(v, c.userId))
  }

  /** An unknown credential is turned away before the library is asked: the
      answer does not depend on the verifier at all. */
  lemma UnknownCredentialSkipsVerifier(s: Store, v1: AuthenticationVerifier, v2: AuthenticationVerifier, rp: RelyingParty,
                                       response: AuthenticationResponse, expectedChallenge: string)
    requires response.id !in s.credentials
    ensures VerifyAuthentication(s, v1, rp, response, expectedChallenge) == VerifyAuthentication(s, v2, rp, response, expectedChallenge)
  {
  }
}
