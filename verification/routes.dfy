/** What the request handlers under src/routes share: the outcome of a
    request and the error messages they answer with. */
module Routes {

  import opened Common
  import opened Schema
  import opened Sessions
  import opened JsValues

  /** A handler's reply and the store and cookie jar it leaves behind. */
  datatype Outcome<+T> = Outcome(reply: Reply<T>, store: Store, jar: CookieJar)

  const LogOutFirst: string := "Please log out before creating a new account."
  const AlreadySignedIn: string := "Already signed in. Please refresh the page."
  const NotRecognised: string := "Passkey not recognised. Please try another one."
  const Unauthenticated: string := "Unauthenticated"
  const UserNotFound: string := "User not found"
  const CredentialIdMissing: string := "Credential ID missing"
  const InvalidCredentialId: string := "Invalid credential ID"
  const CurrentPasskey: string := "Before you can delete this passkey, you need to sign in with a different passkey."

  /** The signed-in user of a request, if any (`locals.session?.userId ?? null`). */
  function SignedInUser(session: Option<SessionView>): Option<nat> {
    if session.Some? then session.value.userId else None
  }

  /** `body?.userName?.toString() ?? ""`: the name shown for a new passkey. */
  function UserName(body: JsonBody): (name: string)
    ensures OptionalProperty(body, "userName").Str? ==> name == OptionalProperty(body, "userName").s
    ensures OptionalProperty(body, "userName").Undefined? || OptionalProperty(body, "userName").Null? ==> name == ""
  {
    OptionalToString(OptionalProperty(body, "userName")).GetOr("")
  }

  /** Session `sessionId` holds challenge `challenge`, due to expire at `expires`. */
  predicate PendingChallenge(s: Store, sessionId: string, challenge: string, expires: int) {
    && sessionId in s.sessions
    && s.sessions[sessionId].challenge == Some(challenge)
    && s.sessions[sessionId].challengeExpiresUtc == Some(expires)
  }
}
