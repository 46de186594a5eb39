/** The store operations the handlers call. Their implementations are not
    part of this model: each is given the smallest effect its name implies.
    A write that would break a primary or foreign key of the schema, or would
    store a value outside the 32-bit range of an `integer` column, answers
    None: the database raises, the handler's promise rejects and the request
    fails with status 500. */
module Db {

  import opened Common
  import opened Dates
  import opened Schema

  /** A consumed challenge: its text and when it stops being acceptable. */
  datatype Challenge = Challenge(content: string, expires: Instant)

  /** The credential part of a new account, or of an added passkey. */
  datatype NewCredential = NewCredential(
    credentialId: string,
    publicKey: seq<bv8>,
    counter: int,
    canBeBackedUp: bool,
    isBackedUp: bool)

  /** The account `createUser` is asked to create. */
  datatype NewUser = NewUser(userHandle: string, credential: NewCredential)

  /** What a successful sign-in writes to the credential. */
  datatype CredentialUpdate = CredentialUpdate(
    credentialId: string,
    counter: int,
    canBeBackedUp: bool,
    isBackedUp: bool)

  // ----- sessions -----

  function GetSession(s: Store, sessionId: string): Option<Session> {
    if sessionId in s.sessions then Some(s.sessions[sessionId]) else None
  }

  /** `createRegistrationSession` and `createAuthenticationSession`: insert the row. */
  function InsertSession(s: Store, row: Session): (r: Option<Store>)
    ensures r.Some? <==> row.sessionId !in s.sessions && SessionReferencesExist(s, row)
    ensures r.Some? ==> r.value.sessions == s.sessions[row.sessionId := row]
    ensures r.Some? ==> r.value == s.(sessions := r.value.sessions)
    ensures (r.Some? && Valid(s) && !(row.registrationId.Some? && row.userId.Some?)
             && (row.challenge.Some? <==> row.challengeExpiresUtc.Some?)) ==> Valid(r.value)
  {
    if row.sessionId in s.sessions || !SessionReferencesExist(s, row) then
      None
    else
      var s' := s.(sessions := s.sessions[row.sessionId := row]);
      assert (Valid(s) && !(row.registrationId.Some? && row.userId.Some?)
              && (row.challenge.Some? <==> row.challengeExpiresUtc.Some?)) ==> Valid(s') by {
        if Valid(s) && !(row.registrationId.Some? && row.userId.Some?) && (row.challenge.Some? <==> row.challengeExpiresUtc.Some?) {
          SessionRowKeepsValid(s, row.sessionId, row);
        }
      }
      Some(s')
  }

  function DeleteSession(s: Store, sessionId: string): (r: Store)
    ensures sessionId !in r.sessions
    ensures r == s.(sessions := r.sessions)
    ensures forall k :: k != sessionId ==> (k in r.sessions <==> k in s.sessions)
    ensures forall k :: k in r.sessions ==> r.sessions[k] == s.sessions[k]
    ensures Valid(s) ==> Valid(r)
  {
    s.(sessions := s.sessions - {sessionId})
  }

  /** `updateChallenge`: the session's pending challenge and expiry are replaced. */
  function UpdateChallenge(s: Store, sessionId: string, challenge: string, expires: Instant): (r: Store)
    ensures sessionId in s.sessions ==>
      r.sessions == s.sessions[sessionId := s.sessions[sessionId].(challenge := Some(challenge), challengeExpiresUtc := Some(expires))]
    ensures sessionId !in s.sessions ==> r == s
    ensures r == s.(sessions := r.sessions)
    ensures Valid(s) ==> Valid(r)
  {
    if sessionId in s.sessions then
      var row := s.sessions[sessionId].(challenge := Some(challenge), challengeExpiresUtc := Some(expires));
      assert Valid(s) ==> Valid(s.(sessions := s.sessions[sessionId := row])) by {
        if Valid(s) {
          assert SessionReferencesExist(s, s.sessions[sessionId]);
          SessionRowKeepsValid(s, sessionId, row);
        }
      }
      s.(sessions := s.sessions[sessionId := row])
    else
      s
  }

  /** `getAndClearChallenge`: read the pending challenge and clear it in one step. */
  function GetAndClearChallenge(s: Store, sessionId: string): (r: (Option<Challenge>, Store))
    ensures r.0.Some? <==> sessionId in s.sessions && s.sessions[sessionId].challenge.Some? && s.sessions[sessionId].challengeExpiresUtc.Some?
    ensures r.0.Some? ==> r.0.value == Challenge(s.sessions[sessionId].challenge.value, s.sessions[sessionId].challengeExpiresUtc.value)
    ensures sessionId in s.sessions ==>
      r.1.sessions == s.sessions[sessionId := s.sessions[sessionId].(challenge := None, challengeExpiresUtc := None)]
    ensures sessionId !in s.sessions ==> r.1 == s
    ensures r.1 == s.(sessions := r.1.sessions)
    ensures Valid(s) ==> Valid(r.1)
  {
    if sessionId in s.sessions then
      var row := s.sessions[sessionId];
      var found :=
        if row.challenge.Some? && row.challengeExpiresUtc.Some? then
          Some(Challenge(row.challenge.value, row.challengeExpiresUtc.value))
        else
          None;
      var cleared := row.(challenge := None, challengeExpiresUtc := None);
      assert Valid(s) ==> Valid(s.(sessions := s.sessions[sessionId := cleared])) by {
        if Valid(s) {
          assert SessionReferencesExist(s, row);
          SessionRowKeepsValid(s, sessionId, cleared);
        }
      }
      (found, s.(sessions := s.sessions[sessionId := cleared]))
    else
      (None, s)
  }

  /** A challenge is spent by the first read: the second finds none. */
  lemma ChallengeSingleUse(s: Store, sessionId: string)
    ensures GetAndClearChallenge(GetAndClearChallenge(s, sessionId).1, sessionId).0 == None
  {
  }

  function GetSessionCredential(s: Store, sessionId: string): Option<string> {
    if sessionId in s.sessions then s.sessions[sessionId].credentialId else None
  }

  // ----- registrations and users -----

  function GetRegistration(s: Store, registrationId: nat): Option<Registration> {
    if registrationId in s.registrations then Some(s.registrations[registrationId]) else None
  }

  /** `createRegistration`: a new row under the next serial id. */
  function CreateRegistration(s: Store, userHandle: string): (r: (nat, Store))
    ensures Valid(s) ==> r.0 !in s.registrations
    ensures r.1.registrations == s.registrations[r.0 := Registration(r.0, userHandle)]
    ensures r.1 == s.(registrations := r.1.registrations, nextRegistrationId := r.1.nextRegistrationId)
    ensures Valid(s) ==> Valid(r.1)
  {
    var id := s.nextRegistrationId;
    (id, s.(registrations := s.registrations[id := Registration(id, userHandle)], nextRegistrationId := id + 1))
  }

  /** Whether a session other than `sessionId` still refers to the registration. */
  predicate RegistrationHeldElsewhere(s: Store, sessionId: string, registrationId: nat) {
    exists k :: k in s.sessions && k != sessionId && s.sessions[k].registrationId == Some(registrationId)
  }

  /** `createUser`, one transaction: the user and its first credential are
      inserted, the session is rebound from the registration to the new user
      (and to that credential), and the registration is deleted. It answers
      None and writes nothing when a key would break. */
  function CreateUser(s: Store, sessionId: string, registrationId: nat, u: NewUser, now: Instant): (r: (Option<nat>, Store))
    ensures r.0.None? <==>
      || sessionId !in s.sessions
      || registrationId !in s.registrations
      || u.credential.credentialId in s.credentials
      || !InInt4Range(u.credential.counter)
      || RegistrationHeldElsewhere(s, sessionId, registrationId)
    ensures r.0.None? ==> r.1 == s
    ensures r.0.Some? ==> CreatedUser(s, r.1, sessionId, registrationId, u, now, r.0.value)
    ensures r.0.Some? && Valid(s) ==> r.0.value !in s.users
    ensures Valid(s) ==> Valid(r.1)
  {
    if || sessionId !in s.sessions
       || registrationId !in s.registrations
       || u.credential.credentialId in s.credentials
       || !InInt4Range(u.credential.counter)
       || RegistrationHeldElsewhere(s, sessionId, registrationId)
    then
      (None, s)
    else
      var userId := s.nextUserId;
      var c := u.credential;
      var row := s.sessions[sessionId];
      var s' := s.(
        users := s.users[userId := User(userId, u.userHandle, now, None)],
        credentials := s.credentials[c.credentialId :=
          Credential(c.credentialId, userId, c.publicKey, c.counter, now, now, c.canBeBackedUp, c.isBackedUp)],
        sessions := s.sessions[sessionId := row.(registrationId := None, userId := Some(userId), credentialId := Some(c.credentialId))],
        registrations := s.registrations - {registrationId},
        nextUserId := userId + 1);
      CreateUserKeepsValid(s, s', sessionId, registrationId, u, now, userId);
      (Some(userId), s')
  }

  /** The state `createUser` leaves behind once it has created user `userId`. */
  predicate CreatedUser(s: Store, s': Store, sessionId: string, registrationId: nat, u: NewUser, now: Instant, userId: nat) {
    var c := u.credential;
    && sessionId in s.sessions
    && s'.users == s.users[userId := User(userId, u.userHandle, now, None)]
    && s'.credentials == s.credentials[c.credentialId :=
         Credential(c.credentialId, userId, c.publicKey, c.counter, now, now, c.canBeBackedUp, c.isBackedUp)]
    && s'.sessions == s.sessions[sessionId := s.sessions[sessionId].(
         registrationId := None, userId := Some(userId), credentialId := Some(c.credentialId))]
    && s'.registrations == s.registrations - {registrationId}
    && s'.stickers == s.stickers
    && s'.ownedStickers == s.ownedStickers
    && s'.nextRegistrationId == s.nextRegistrationId
    && s'.nextOwnedStickerId == s.nextOwnedStickerId
    && s'.nextUserId == userId + 1
  }

  lemma CreateUserKeepsValid(s: Store, s': Store, sessionId: string, registrationId: nat, u: NewUser, now: Instant, userId: nat)
    requires sessionId in s.sessions && registrationId in s.registrations
    requires u.credential.credentialId !in s.credentials
    requires !RegistrationHeldElsewhere(s, sessionId, registrationId)
    requires userId == s.nextUserId
    requires CreatedUser(s, s', sessionId, registrationId, u, now, userId)
    ensures Valid(s) ==> Valid(s')
  {
    if Valid(s) {
      forall k | k in s'.sessions
        ensures SessionReferencesExist(s', s'.sessions[k])
      {
        if k != sessionId {
          assert SessionReferencesExist(s, s.sessions[k]);
          assert s.sessions[k].registrationId != Some(registrationId);
        }
      }
      assert ReferencesExist(s');
      assert SingleIdentity(s');
      assert ChallengesPaired(s');
    }
  }

  function GetUserHandle(s: Store, userId: nat): Option<string> {
    if userId in s.users then Some(s.users[userId].userHandle) else None
  }

  function IsValidUserId(s: Store, userId: int): bool {
    userId in s.users
  }

  // ----- credentials -----

  function GetCredential(s: Store, credentialId: string): Option<Credential> {
    if credentialId in s.credentials then Some(s.credentials[credentialId]) else None
  }

  /** The ids of every credential `userId` owns. */
  function GetCredentialIds(s: Store, userId: nat): set<string> {
    set k | k in s.credentials && s.credentials[k].userId == userId
  }

  function GetUserFromCredential(s: Store, credentialId: string): Option<nat> {
    if credentialId in s.credentials then Some(s.credentials[credentialId].userId) else None
  }

  /** `saveUserAuthentication`, one transaction: the credential takes the new
      counter and backup flags and is marked used now; the session is bound
      to the user and the credential, and no longer to a registration. */
  function SaveUserAuthentication(s: Store, sessionId: string, userId: nat, update: CredentialUpdate, now: Instant): (r: Option<Store>)
    ensures r.Some? <==> update.credentialId in s.credentials && userId in s.users && InInt4Range(update.counter)
    ensures r.Some? ==> SavedAuthentication(s, r.value, sessionId, userId, update, now)
    ensures r.Some? && Valid(s) ==> Valid(r.value)
  {
    if update.credentialId !in s.credentials || userId !in s.users || !InInt4Range(update.counter) then
      None
    else
      var c := s.credentials[update.credentialId].(
        counter := update.counter, canBeBackedUp := update.canBeBackedUp,
        isBackedUp := update.isBackedUp, lastUsedUtc := now);
      var s1 := s.(credentials := s.credentials[update.credentialId := c]);
      if sessionId in s.sessions then
        var row := s.sessions[sessionId].(
          registrationId := None, userId := Some(userId), credentialId := Some(update.credentialId));
        assert Valid(s) ==> Valid(s1.(sessions := s1.sessions[sessionId := row])) by {
          if Valid(s) {
            CredentialRowKeepsValid(s, update.credentialId, c);
            assert SessionReferencesExist(s1, row);
            SessionRowKeepsValid(s1, sessionId, row);
          }
        }
        Some(s1.(sessions := s1.sessions[sessionId := row]))
      else
        assert Valid(s) ==> Valid(s1) by {
          if Valid(s) {
            CredentialRowKeepsValid(s, update.credentialId, c);
          }
        }
        Some(s1)
  }

  /** The state `saveUserAuthentication` leaves behind. */
  predicate SavedAuthentication(s: Store, s': Store, sessionId: string, userId: nat, update: CredentialUpdate, now: Instant) {
    && update.credentialId in s.credentials
    && s'.credentials == s.credentials[update.credentialId := s.credentials[update.credentialId].(
         counter := update.counter, canBeBackedUp := update.canBeBackedUp,
         isBackedUp := update.isBackedUp, lastUsedUtc := now)]
    && (sessionId in s.sessions ==>
         s'.sessions == s.sessions[sessionId := s.sessions[sessionId].(
           registrationId := None, userId := Some(userId), credentialId := Some(update.credentialId))])
    && (sessionId !in s.sessions ==> s'.sessions == s.sessions)
    && s' == s.(credentials := s'.credentials, sessions := s'.sessions)
  }

  /** `createCredential`: a further passkey for an existing user. */
  function CreateCredential(s: Store, userId: nat, c: NewCredential, now: Instant): (r: Option<Store>)
    ensures r.Some? <==> c.credentialId !in s.credentials && userId in s.users && InInt4Range(c.counter)
    ensures r.Some? ==> r.value.credentials == s.credentials[c.credentialId :=
      Credential(c.credentialId, userId, c.publicKey, c.counter, now, now, c.canBeBackedUp, c.isBackedUp)]
    ensures r.Some? ==> r.value == s.(credentials := r.value.credentials)
    ensures r.Some? && Valid(s) ==> Valid(r.value)
  {
    if c.credentialId in s.credentials || userId !in s.users || !InInt4Range(c.counter) then
      None
    else
      Some(s.(credentials := s.credentials[c.credentialId :=
        Credential(c.credentialId, userId, c.publicKey, c.counter, now, now, c.canBeBackedUp, c.isBackedUp)]))
  }

  /** Whether some session still refers to the credential. */
  predicate CredentialInUse(s: Store, credentialId: string) {
    exists k :: k in s.sessions && s.sessions[k].credentialId == Some(credentialId)
  }

  /** `deleteCredential`: the row goes, unless a session still refers to it. */
  function DeleteCredential(s: Store, credentialId: string): (r: Option<Store>)
    ensures r.Some? <==> !CredentialInUse(s, credentialId)
    ensures r.Some? ==> r.value == s.(credentials := s.credentials - {credentialId})
    ensures r.Some? && Valid(s) ==> Valid(r.value)
  {
    if CredentialInUse(s, credentialId) then
      None
    else
      var s' := s.(credentials := s.credentials - {credentialId});
      assert Valid(s) ==> ReferencesExist(s') by {
        if Valid(s) {
          forall k | k in s'.sessions
            ensures SessionReferencesExist(s', s'.sessions[k])
          {
            assert SessionReferencesExist(s, s.sessions[k]);
          }
        }
      }
      Some(s')
  }

  // ----- owned stickers -----

  function GetOwnedSticker(s: Store, ownedStickerId: int): Option<OwnedSticker> {
    if ownedStickerId >= 0 && ownedStickerId in s.ownedStickers then Some(s.ownedStickers[ownedStickerId]) else None
  }

  /** Whether `userId` already has a copy of the catalogue sticker in the album. */
  predicate IsInAlbum(s: Store, stickerId: nat, userId: nat) {
    exists k :: k in s.ownedStickers && s.ownedStickers[k].isInAlbum
      && s.ownedStickers[k].stickerId == stickerId && s.ownedStickers[k].userId == userId
  }

  /** `addToAlbum`: the copy is marked as in the album. */
  function AddToAlbum(s: Store, ownedStickerId: nat): (r: Store)
    ensures ownedStickerId in s.ownedStickers ==>
      r.ownedStickers == s.ownedStickers[ownedStickerId := s.ownedStickers[ownedStickerId].(isInAlbum := true)]
    ensures ownedStickerId !in s.ownedStickers ==> r == s
    ensures r == s.(ownedStickers := r.ownedStickers)
    ensures (Valid(s) && ownedStickerId in s.ownedStickers
             && !IsInAlbum(s, s.ownedStickers[ownedStickerId].stickerId, s.ownedStickers[ownedStickerId].userId)) ==> Valid(r)
  {
    if ownedStickerId in s.ownedStickers then
      var row := s.ownedStickers[ownedStickerId].(isInAlbum := true);
      assert (Valid(s) && !IsInAlbum(s, row.stickerId, row.userId)) ==>
             Valid(s.(ownedStickers := s.ownedStickers[ownedStickerId := row])) by {
        if Valid(s) && !IsInAlbum(s, row.stickerId, row.userId) {
          OwnedStickerRowKeepsValid(s, ownedStickerId, row, s.nextOwnedStickerId);
        }
      }
      s.(ownedStickers := s.ownedStickers[ownedStickerId := row])
    else
      s
  }

  /** `discard`: the copy is deleted. */
  function Discard(s: Store, ownedStickerId: nat): (r: Store)
    ensures r == s.(ownedStickers := s.ownedStickers - {ownedStickerId})
    ensures Valid(s) ==> Valid(r)
  {
    s.(ownedStickers := s.ownedStickers - {ownedStickerId})
  }

  /** `transfer`: the copy changes hands and is received now. */
  function Transfer(s: Store, ownedStickerId: nat, recipientUserId: nat, now: Instant): (r: Option<Store>)
    ensures r.Some? <==> recipientUserId in s.users
    ensures r.Some? && ownedStickerId in s.ownedStickers ==>
      r.value.ownedStickers == s.ownedStickers[ownedStickerId :=
        s.ownedStickers[ownedStickerId].(userId := recipientUserId, receivedUtc := now)]
    ensures r.Some? && ownedStickerId !in s.ownedStickers ==> r.value == s
    ensures r.Some? ==> r.value == s.(ownedStickers := r.value.ownedStickers)
    ensures r.Some? && Valid(s) && (ownedStickerId in s.ownedStickers ==> !s.ownedStickers[ownedStickerId].isInAlbum)
      ==> Valid(r.value)
  {
    if recipientUserId !in s.users then
      None
    else if ownedStickerId in s.ownedStickers then
      var row := s.ownedStickers[ownedStickerId].(userId := recipientUserId, receivedUtc := now);
      assert (Valid(s) && !row.isInAlbum) ==> Valid(s.(ownedStickers := s.ownedStickers[ownedStickerId := row])) by {
        if Valid(s) && !row.isInAlbum {
          OwnedStickerRowKeepsValid(s, ownedStickerId, row, s.nextOwnedStickerId);
        }
      }
      Some(s.(ownedStickers := s.ownedStickers[ownedStickerId := row]))
    else
      Some(s)
  }

  /** `addToDeck`: one new copy per sticker id, owned by `userId`, outside the
      album. */
  function AddToDeck(s: Store, userId: nat, stickerIds: seq<nat>, now: Instant): (r: Option<Store>)
    ensures r.Some? <==> userId in s.users && forall i :: 0 <= i < |stickerIds| ==> stickerIds[i] in s.stickers
    ensures r.Some? ==> DeckGained(s, r.value, userId, stickerIds, now)
    ensures r.Some? && Valid(s) ==> Valid(r.value)
  {
    if userId !in s.users || exists i :: 0 <= i < |stickerIds| && stickerIds[i] !in s.stickers then
      None
    else
      Some(InsertCopies(s, userId, stickerIds, now))
  }

  /** `s'` is `s` with one new deck copy of each of `stickerIds`, in order, under
      the next serial ids. */
  ghost predicate DeckGained(s: Store, s': Store, userId: nat, stickerIds: seq<nat>, now: Instant) {
    var first := s.nextOwnedStickerId;
    && s'.nextOwnedStickerId == first + |stickerIds|
    && (forall k :: k in s'.ownedStickers <==> k in s.ownedStickers || first <= k < first + |stickerIds|)
    && (forall k :: k in s.ownedStickers && k < first ==> s'.ownedStickers[k] == s.ownedStickers[k])
    && (forall i :: 0 <= i < |stickerIds| ==>
          s'.ownedStickers[first + i] == OwnedSticker(first + i, stickerIds[i], userId, now, false))
    && s' == s.(ownedStickers := s'.ownedStickers, nextOwnedStickerId := s'.nextOwnedStickerId)
  }

  function InsertCopies(s: Store, userId: nat, stickerIds: seq<nat>, now: Instant): (r: Store)
    ensures DeckGained(s, r, userId, stickerIds, now)
    ensures Valid(s) && userId in s.users && (forall i :: 0 <= i < |stickerIds| ==> stickerIds[i] in s.stickers) ==> Valid(r)
    decreases |stickerIds|
  {
    if |stickerIds| == 0 then
      s
    else
      var s1 := InsertCopy(s, userId, stickerIds[0], now);
      var r := InsertCopies(s1, userId, stickerIds[1..], now);
      DeckGainedCons(s, s1, r, userId, stickerIds, now);
      r
  }

  /** One new deck copy under the next serial id. */
  function InsertCopy(s: Store, userId: nat, stickerId: nat, now: Instant): (r: Store)
    ensures Valid(s) && userId in s.users && stickerId in s.stickers ==> Valid(r)
  {
    var id := s.nextOwnedStickerId;
    assert Valid(s) && userId in s.users && stickerId in s.stickers ==>
           Valid(s.(ownedStickers := s.ownedStickers[id := OwnedSticker(id, stickerId, userId, now, false)],
                    nextOwnedStickerId := id + 1)) by {
      if Valid(s) && userId in s.users && stickerId in s.stickers {
        OwnedStickerRowKeepsValid(s, id, OwnedSticker(id, stickerId, userId, now, false), id + 1);
      }
    }
    s.(ownedStickers := s.ownedStickers[id := OwnedSticker(id, stickerId, userId, now, false)],
       nextOwnedStickerId := id + 1)
  }

  lemma DeckGainedCons(s: Store, s1: Store, r: Store, userId: nat, stickerIds: seq<nat>, now: Instant)
    requires |stickerIds| > 0
    requires s1 == InsertCopy(s, userId, stickerIds[0], now)
    requires DeckGained(s1, r, userId, stickerIds[1..], now)
    ensures DeckGained(s, r, userId, stickerIds, now)
  {
  }
}
