/** The database tables (src/lib/server/db/schema.ts) as records, and the
    store that holds them: one map per table, keyed by its primary key, plus
    the next value of each `serial` column. */
module Schema {

  import opened Common
  import opened Dates

  /** The largest value a Postgres `integer` column holds; the column is a
      signed 32-bit integer. */
  const MaxInt4: int := 0x7FFF_FFFF

  /** Whether `n` fits an `integer` column. A write of a value outside this
      range raises, and so does a query that compares such a column with it. */
  predicate InInt4Range(n: int) {
    -MaxInt4 - 1 <= n <= MaxInt4
  }

  datatype Registration = Registration(registrationId: nat, userHandle: string)

  /** `registeredUtc` is required, `lastPacketUtc` optional. */
  datatype User = User(userId: nat, userHandle: string, registeredUtc: Instant, lastPacketUtc: Option<Instant>)

  datatype Credential = Credential(
    credentialId: string,
    userId: nat,
    publicKey: seq<bv8>,
    counter: int,
    createdUtc: Instant,
    lastUsedUtc: Instant,
    canBeBackedUp: bool,
    isBackedUp: bool)

  /** The three references and the pending challenge with its expiry are all
      nullable columns. */
  datatype Session = Session(
    sessionId: string,
    registrationId: Option<nat>,
    userId: Option<nat>,
    credentialId: Option<string>,
    createdUtc: Instant,
    expiresUtc: Instant,
    challenge: Option<string>,
    challengeExpiresUtc: Option<Instant>)

  datatype Sticker = Sticker(
    stickerId: nat,
    number: int,
    title: string,
    location: string,
    description: string,
    isShiny: bool,
    isChristmasSpecial: bool)

  datatype OwnedSticker = OwnedSticker(
    ownedStickerId: nat,
    stickerId: nat,
    userId: nat,
    receivedUtc: Instant,
    isInAlbum: bool)

  datatype Store = Store(
    registrations: map<nat, Registration>,
    users: map<nat, User>,
    credentials: map<string, Credential>,
    sessions: map<string, Session>,
    stickers: map<nat, Sticker>,
    ownedStickers: map<nat, OwnedSticker>,
    nextRegistrationId: nat,
    nextUserId: nat,
    nextOwnedStickerId: nat)

  /** Every row sits under its own primary key. */
  predicate KeysMatch(s: Store) {
    && (forall k :: k in s.registrations ==> s.registrations[k].registrationId == k)
    && (forall k :: k in s.users ==> s.users[k].userId == k)
    && (forall k :: k in s.credentials ==> s.credentials[k].credentialId == k)
    && (forall k :: k in s.sessions ==> s.sessions[k].sessionId == k)
    && (forall k :: k in s.stickers ==> s.stickers[k].stickerId == k)
    && (forall k :: k in s.ownedStickers ==> s.ownedStickers[k].ownedStickerId == k)
  }

  /** A `serial` column hands out values above every key in use. */
  predicate SerialsAhead(s: Store) {
    && (forall k :: k in s.registrations ==> k < s.nextRegistrationId)
    && (forall k :: k in s.users ==> k < s.nextUserId)
    && (forall k :: k in s.ownedStickers ==> k < s.nextOwnedStickerId)
  }

  /** The foreign keys: a credential's owner, a session's registration, user
      and credential, and an owned sticker's sticker and user all exist. */
  predicate ReferencesExist(s: Store) {
    && (forall k :: k in s.credentials ==> s.credentials[k].userId in s.users)
    && (forall k :: k in s.sessions ==> SessionReferencesExist(s, s.sessions[k]))
    && (forall k :: k in s.ownedStickers ==>
          s.ownedStickers[k].stickerId in s.stickers && s.ownedStickers[k].userId in s.users)
  }

  predicate SessionReferencesExist(s: Store, row: Session) {
    && (row.registrationId.Some? ==> row.registrationId.value in s.registrations)
    && (row.userId.Some? ==> row.userId.value in s.users)
    && (row.credentialId.Some? ==> row.credentialId.value in s.credentials)
  }

  /** The unique index on `(number, isChristmasSpecial)`. */
  predicate StickerNumbersUnique(s: Store) {
    forall a, b :: a in s.stickers && b in s.stickers && a != b ==>
      (s.stickers[a].number, s.stickers[a].isChristmasSpecial) != (s.stickers[b].number, s.stickers[b].isChristmasSpecial)
  }

  /** A session stands for a registration in progress or for a user, never
      for both at once. */
  predicate SingleIdentity(s: Store) {
    forall k :: k in s.sessions ==> !(s.sessions[k].registrationId.Some? && s.sessions[k].userId.Some?)
  }

  /** A user's album holds at most one copy of each catalogue sticker. */
  predicate AlbumUnique(s: Store) {
    forall a, b :: a in s.ownedStickers && b in s.ownedStickers && a != b ==>
      !SameAlbumEntry(s.ownedStickers[a], s.ownedStickers[b])
  }

  predicate SameAlbumEntry(x: OwnedSticker, y: OwnedSticker) {
    x.isInAlbum && y.isInAlbum && x.userId == y.userId && x.stickerId == y.stickerId
  }

  /** A pending challenge always comes with its expiry: the store sets and
      clears the two columns together. */
  predicate ChallengesPaired(s: Store) {
    forall k :: k in s.sessions ==> (s.sessions[k].challenge.Some? <==> s.sessions[k].challengeExpiresUtc.Some?)
  }

  /** The schema's constraints together with the three invariants the
      handlers keep: one identity per session, one album copy per sticker and
      paired challenge columns. */
  predicate Valid(s: Store) {
    && KeysMatch(s)
    && SerialsAhead(s)
    && ReferencesExist(s)
    && StickerNumbersUnique(s)
    && SingleIdentity(s)
    && AlbumUnique(s)
    && ChallengesPaired(s)
  }

  /** Storing a session row under its own id keeps the store valid, provided
      what it refers to exists, it stands for at most one identity and its
      challenge comes with an expiry. */
  lemma SessionRowKeepsValid(s: Store, k: string, row: Session)
    requires Valid(s) && row.sessionId == k
    requires SessionReferencesExist(s, row) && !(row.registrationId.Some? && row.userId.Some?)
    requires row.challenge.Some? <==> row.challengeExpiresUtc.Some?
    ensures Valid(s.(sessions := s.sessions[k := row]))
  {
  }

  /** Storing a credential row under its own id keeps the store valid,
      provided its owner exists. */
  lemma CredentialRowKeepsValid(s: Store, k: string, c: Credential)
    requires Valid(s) && c.credentialId == k && c.userId in s.users
    ensures Valid(s.(credentials := s.credentials[k := c]))
  {
  }

  /** Storing an owned-sticker row under its own id, below the next serial
      value, keeps the store valid, provided its sticker and owner exist and
      it does not put a second copy of a sticker into its owner's album. */
  lemma OwnedStickerRowKeepsValid(s: Store, k: nat, row: OwnedSticker, next: nat)
    requires Valid(s) && row.ownedStickerId == k && k < next && s.nextOwnedStickerId <= next
    requires row.stickerId in s.stickers && row.userId in s.users
    requires row.isInAlbum ==> forall j :: j in s.ownedStickers && j != k ==> !SameAlbumEntry(s.ownedStickers[j], row)
    ensures Valid(s.(ownedStickers := s.ownedStickers[k := row], nextOwnedStickerId := next))
  {
  }
}
