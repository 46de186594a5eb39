/** The collection handlers: src/routes/api/deck/add-to-album, discard and
    trade, and the `addToAlbum` and `openPacket` actions of
    src/routes/deck/+page.server.ts. Each applies its guards in a fixed
    order and then makes at most one store change. An id the request names
    is compared with an `integer` column, so one outside its 32-bit range
    makes the lookup raise and the request fail with status 500. */
module Collection {

  import opened Common
  import opened Dates
  import opened Schema
  import opened Db
  import opened Sessions
  import opened JsValues
  import opened Routes
  import Packets

  /** A collection handler's reply and the store it leaves behind. */
  datatype Handled<+T> = Handled(reply: Reply<T>, store: Store)

  /** The body of add-to-album's answer. */
  datatype AlbumAnswer = AlbumAnswer(isDuplicate: bool)

  const IdMissing: string := "ID missing"
  const IdNotANumber: string := "ID is not a number"
  const InvalidId: string := "Invalid ID"
  const StickerInAlbum: string := "Sticker is in album"
  const RecipientMissing: string := "Recipient User ID missing"
  const RecipientNotANumber: string := "Recipient User ID is not a number"
  const AlbumNotTradable: string := "This sticker is in your album and cannot be traded."
  const SelfTrade: string := "Cannot send sticker to yourself."
  const UnknownRecipient: string := "User ID not recognised. Please confirm with your friend what their ID is."
  const AlreadyInAlbum: string := "Sticker is already in album"

  /** A JSON body field that must hold a number: a value that is not a
      number is "missing", and NaN (which JavaScript types as a number) is
      "not a number". A JSON body never holds NaN, so the second refusal is
      out of reach of the deck handlers. */
  function NumberField(v: JsValue, missing: string, notANumber: string): (r: Reply<int>)
    ensures r.Json? <==> v.Number?
    ensures v.Number? ==> r.body == v.n
    ensures v.NaN? ==> r == Error(BadRequest, notANumber)
    ensures !v.Number? && !v.NaN? ==> r == Error(BadRequest, missing)
  {
    match v
    case Number(n) => Json(n)
    case NaN => Error(BadRequest, notANumber)
    case _ => Error(BadRequest, missing)
  }

  /** `reply` passes on the refusal of a field. */
  predicate Refused<T>(reply: Reply<T>, field: Reply<int>) {
    field.Error? && reply == Error(field.status, field.message)
  }

  /** `data.name` for the parsed body `data`: None when the handler throws
      instead, because the body is not JSON or is `null`. */
  function BodyField(body: Parsed<JsonBody>, name: string): (v: Option<JsValue>)
    ensures v.None? <==> body.Unparsable? || body.value.NullBody?
    ensures body.Parsed? ==> v == Property(body.value, name)
  {
    if body.Unparsable? then None else Property(body.value, name)
  }

  /** The owned sticker `ownedStickerId`, provided `userId` holds it. */
  function OwnSticker(s: Store, userId: nat, ownedStickerId: int): (r: Option<OwnedSticker>)
    ensures r.Some? <==> ownedStickerId in s.ownedStickers && s.ownedStickers[ownedStickerId].userId == userId
    ensures r.Some? ==> r.value == s.ownedStickers[ownedStickerId]
  {
    var row := GetOwnedSticker(s, ownedStickerId);
    if row.Some? && row.value.userId == userId then row else None
  }

  /** `POST /api/deck/add-to-album`. */
  function AddToAlbumRequest(s: Store, session: Option<SessionView>, body: Parsed<JsonBody>): (r: Handled<AlbumAnswer>)
    ensures r.reply.Error? ==> r.store == s
    ensures SignedInUser(session).None? ==> r.reply == Error(Unauthorized, "")
    // A body that cannot be read throws: 500.
    ensures SignedInUser(session).Some? && BodyField(body, "ownedStickerId").None? ==> r.reply == Error(InternalError, "")
    ensures SignedInUser(session).Some? && BodyField(body, "ownedStickerId").Some? ==>
      var userId := SignedInUser(session).value;
      var ownedStickerId := BodyField(body, "ownedStickerId").value;
      && (!ownedStickerId.Number? ==> Refused(r.reply, NumberField(ownedStickerId, IdMissing, IdNotANumber)))
      && (ownedStickerId.Number? && !InInt4Range(ownedStickerId.n) ==> r.reply == Error(InternalError, ""))
      && (ownedStickerId.Number? && InInt4Range(ownedStickerId.n) && OwnSticker(s, userId, ownedStickerId.n).None? ==>
            r.reply == Error(BadRequest, InvalidId))
      && (r.reply.Json? ==>
            && ownedStickerId.Number?
            && InInt4Range(ownedStickerId.n)
            && var id := ownedStickerId.n;
               var row := s.ownedStickers[id];
               && OwnSticker(s, userId, id).Some?
               // A duplicate is reported, not stored twice.
               && r.reply.body.isDuplicate == IsInAlbum(s, row.stickerId, userId)
               && (r.reply.body.isDuplicate ==> r.store == s)
               && (!r.reply.body.isDuplicate ==>
                     && r.store.ownedStickers == s.ownedStickers[id := row.(isInAlbum := true)]
                     && r.store == s.(ownedStickers := r.store.ownedStickers)))
    ensures var ownedStickerId := BodyField(body, "ownedStickerId");
      SignedInUser(session).Some? && ownedStickerId.Some? && ownedStickerId.value.Number?
      && InInt4Range(ownedStickerId.value.n)
      && OwnSticker(s, SignedInUser(session).value, ownedStickerId.value.n).Some? ==>
        r.reply.Json?
    ensures Valid(s) ==> Valid(r.store)
  {
    if SignedInUser(session).None? then
      Handled(Error(Unauthorized, ""), s)
    else
      var userId := SignedInUser(session).value;
      var ownedStickerId := BodyField(body, "ownedStickerId");
      if ownedStickerId.None? then
        Handled(Error(InternalError, ""), s)
      else
        var id := NumberField(ownedStickerId.value, IdMissing, IdNotANumber);
        if id.Error? then
          Handled(Error(id.status, id.message), s)
        else if !InInt4Range(id.body) then
          Handled(Error(InternalError, ""), s)
        else
          var row := OwnSticker(s, userId, id.body);
          if row.None? then
            Handled(Error(BadRequest, InvalidId), s)
          else if IsInAlbum(s, row.value.stickerId, row.value.userId) then
            Handled(Json(AlbumAnswer(true)), s)
          else
            Handled(Json(AlbumAnswer(false)), Db.AddToAlbum(s, id.body))
  }

  /** `POST /api/deck/discard`. */
  function DiscardRequest(s: Store, session: Option<SessionView>, body: Parsed<JsonBody>): (r: Handled<Done>)
    ensures r.reply.Error? ==> r.store == s
    ensures SignedInUser(session).None? ==> r.reply == Error(Unauthorized, "")
    // A body that cannot be read throws: 500.
    ensures SignedInUser(session).Some? && BodyField(body, "ownedStickerId").None? ==> r.reply == Error(InternalError, "")
    ensures SignedInUser(session).Some? && BodyField(body, "ownedStickerId").Some? ==>
      var userId := SignedInUser(session).value;
      var ownedStickerId := BodyField(body, "ownedStickerId").value;
      && (!ownedStickerId.Number? ==> Refused(r.reply, NumberField(ownedStickerId, IdMissing, IdNotANumber)))
      && (ownedStickerId.Number? && !InInt4Range(ownedStickerId.n) ==> r.reply == Error(InternalError, ""))
      && (ownedStickerId.Number? && InInt4Range(ownedStickerId.n) && OwnSticker(s, userId, ownedStickerId.n).None? ==>
            r.reply == Error(BadRequest, InvalidId))
      // An album sticker is never discarded.
      && (ownedStickerId.Number? && InInt4Range(ownedStickerId.n) && OwnSticker(s, userId, ownedStickerId.n).Some?
          && s.ownedStickers[ownedStickerId.n].isInAlbum ==>
            r.reply == Error(BadRequest, StickerInAlbum))
      && (r.reply.Json? <==>
            ownedStickerId.Number? && InInt4Range(ownedStickerId.n) && OwnSticker(s, userId, ownedStickerId.n).Some?
            && !s.ownedStickers[ownedStickerId.n].isInAlbum)
      // Exactly that copy goes.
      && (r.reply.Json? ==> r.store == s.(ownedStickers := s.ownedStickers - {ownedStickerId.n}))
    ensures Valid(s) ==> Valid(r.store)
  {
    if SignedInUser(session).None? then
      Handled(Error(Unauthorized, ""), s)
    else
      var userId := SignedInUser(session).value;
      var ownedStickerId := BodyField(body, "ownedStickerId");
      if ownedStickerId.None? then
        Handled(Error(InternalError, ""), s)
      else
        var id := NumberField(ownedStickerId.value, IdMissing, IdNotANumber);
        if id.Error? then
          Handled(Error(id.status, id.message), s)
        else if !InInt4Range(id.body) then
          Handled(Error(InternalError, ""), s)
        else
          var row := OwnSticker(s, userId, id.body);
          if row.None? then
            Handled(Error(BadRequest, InvalidId), s)
          else if row.value.isInAlbum then
            Handled(Error(BadRequest, StickerInAlbum), s)
          else
            Handled(Json(Done), Db.Discard(s, id.body))
  }

  /** `POST /api/deck/trade`; the transfer stamps the copy as received at `now`. */
  function TradeRequest(s: Store, session: Option<SessionView>, now: Instant, body: Parsed<JsonBody>): (r: Handled<Done>)
    ensures r.reply.Error? ==> r.store == s
    ensures SignedInUser(session).None? ==> r.reply == Error(Unauthorized, "")
    // A body that cannot be read throws: 500.
    ensures SignedInUser(session).Some? && BodyField(body, "ownedStickerId").None? ==> r.reply == Error(InternalError, "")
    ensures SignedInUser(session).Some? && BodyField(body, "ownedStickerId").Some? ==>
      var userId := SignedInUser(session).value;
      var ownedStickerId := BodyField(body, "ownedStickerId").value;
      var recipientUserId := BodyField(body, "recipientUserId").value;
      && (!ownedStickerId.Number? ==> Refused(r.reply, NumberField(ownedStickerId, IdMissing, IdNotANumber)))
      && (ownedStickerId.Number? && !recipientUserId.Number? ==>
            Refused(r.reply, NumberField(recipientUserId, RecipientMissing, RecipientNotANumber)))
      && (ownedStickerId.Number? && recipientUserId.Number? ==>
            var id := ownedStickerId.n;
            var recipient := recipientUserId.n;
            && (!InInt4Range(id) ==> r.reply == Error(InternalError, ""))
            && var owned := InInt4Range(id) && OwnSticker(s, userId, id).Some?;
            && (InInt4Range(id) && !owned ==> r.reply == Error(BadRequest, InvalidId))
            && (owned && s.ownedStickers[id].isInAlbum ==>
                  r.reply == Error(BadRequest, AlbumNotTradable))
            // Self-transfer is refused before the recipient is looked up.
            && (owned && !s.ownedStickers[id].isInAlbum && recipient == userId ==>
                  r.reply == Error(BadRequest, SelfTrade))
            && (owned && !s.ownedStickers[id].isInAlbum && recipient != userId && !InInt4Range(recipient) ==>
                  r.reply == Error(InternalError, ""))
            && (owned && !s.ownedStickers[id].isInAlbum && recipient != userId && InInt4Range(recipient)
                && recipient !in s.users ==>
                  r.reply == Error(BadRequest, UnknownRecipient))
            && (r.reply.Json? <==>
                  owned && !s.ownedStickers[id].isInAlbum
                  && recipient != userId && InInt4Range(recipient) && recipient in s.users)
            // Only that copy changes hands.
            && (r.reply.Json? ==>
                  && recipient >= 0
                  && r.store.ownedStickers == s.ownedStickers[id := s.ownedStickers[id].(userId := recipient, receivedUtc := now)]
                  && r.store == s.(ownedStickers := r.store.ownedStickers)))
    ensures Valid(s) ==> Valid(r.store)
  {
    if SignedInUser(session).None? then
      Handled(Error(Unauthorized, ""), s)
    else
      var userId := SignedInUser(session).value;
      var ownedStickerId := BodyField(body, "ownedStickerId");
      var recipientUserId := BodyField(body, "recipientUserId");
      if ownedStickerId.None? || recipientUserId.None? then
        Handled(Error(InternalError, ""), s)
      else
        var id := NumberField(ownedStickerId.value, IdMissing, IdNotANumber);
        var recipient := NumberField(recipientUserId.value, RecipientMissing, RecipientNotANumber);
        if id.Error? then
          Handled(Error(id.status, id.message), s)
        else if recipient.Error? then
          Handled(Error(recipient.status, recipient.message), s)
        else if !InInt4Range(id.body) then
          Handled(Error(InternalError, ""), s)
        else
          var row := OwnSticker(s, userId, id.body);
          if row.None? then
            Handled(Error(BadRequest, InvalidId), s)
          else if row.value.isInAlbum then
            Handled(Error(BadRequest, AlbumNotTradable), s)
          else if userId == recipient.body then
            Handled(Error(BadRequest, SelfTrade), s)
          else if !InInt4Range(recipient.body) then
            Handled(Error(InternalError, ""), s)
          else if !IsValidUserId(s, recipient.body) then
            Handled(Error(BadRequest, UnknownRecipient), s)
          else
            match Transfer(s, id.body, recipient.body, now)
            case None => Handled(Error(InternalError, ""), s)
            case Some(s') => Handled(Json(Done), s')
  }

  /** A form field as `FormData.get` returns it. */
  datatype FormValue = Missing | Text(value: string) | File

  /** The deck page's `addToAlbum` action; `actingUser` is the user the
      page acts for, and `form` the submitted `ownedStickerId` field, or
      `Unparsable` when the body is not form data. Unlike add-to-album, it
      refuses a duplicate. */
  function AddToAlbumAction(s: Store, actingUser: Option<nat>, form: Parsed<FormValue>): (r: Handled<Done>)
    ensures r.reply.Error? ==> r.store == s
    ensures actingUser.None? ==> r.reply == Error(Unauthorized, "")
    ensures actingUser.Some? && form.Unparsable? ==> r.reply == Error(InternalError, "")
    ensures actingUser.Some? && form.Parsed? ==>
      var userId := actingUser.value;
      var ownedStickerId := form.value;
      && (!ownedStickerId.Text? ==> r.reply == Error(BadRequest, IdMissing))
      && (ownedStickerId.Text? && ParseInt(ownedStickerId.value).None? ==> r.reply == Error(BadRequest, IdNotANumber))
      && (ownedStickerId.Text? && ParseInt(ownedStickerId.value).Some? ==>
            var id := ParseInt(ownedStickerId.value).value;
            && (!InInt4Range(id) ==> r.reply == Error(InternalError, ""))
            && (InInt4Range(id) && OwnSticker(s, userId, id).None? ==> r.reply == Error(BadRequest, InvalidId))
            && (InInt4Range(id) && OwnSticker(s, userId, id).Some? && IsInAlbum(s, s.ownedStickers[id].stickerId, userId) ==>
                  r.reply == Error(BadRequest, AlreadyInAlbum))
            && (r.reply.Json? <==>
                  InInt4Range(id) && OwnSticker(s, userId, id).Some? && !IsInAlbum(s, s.ownedStickers[id].stickerId, userId))
            && (r.reply.Json? ==>
                  && r.store.ownedStickers == s.ownedStickers[id := s.ownedStickers[id].(isInAlbum := true)]
                  && r.store == s.(ownedStickers := r.store.ownedStickers)))
    ensures Valid(s) ==> Valid(r.store)
  {
    if actingUser.None? then
      Handled(Error(Unauthorized, ""), s)
    else if form.Unparsable? then
      Handled(Error(InternalError, ""), s)
    else if !form.value.Text? then
      Handled(Error(BadRequest, IdMissing), s)
    else
      var id := ParseInt(form.value.value);
      if id.None? then
        Handled(Error(BadRequest, IdNotANumber), s)
      else if !InInt4Range(id.value) then
        Handled(Error(InternalError, ""), s)
      else
        var row := OwnSticker(s, actingUser.value, id.value);
        if row.None? then
          Handled(Error(BadRequest, InvalidId), s)
        else if IsInAlbum(s, row.value.stickerId, row.value.userId) then
          Handled(Error(BadRequest, AlreadyInAlbum), s)
        else
          Handled(Json(Done), Db.AddToAlbum(s, id.value))
  }

  /** The form action and the API agree: submitting an id as its decimal
      text changes the store exactly as posting it as a JSON number, and
      both succeed or fail together except on a duplicate, which the API
      reports and the form refuses. */
  lemma FormAndApiAgree(s: Store, session: SessionView, n: SafeInteger)
    requires session.userId.Some?
    ensures var form := AddToAlbumAction(s, session.userId, Parsed(Text(IntToString(n))));
            var api := AddToAlbumRequest(s, Some(session), Parsed(Fields(map["ownedStickerId" := Number(n)])));
            && form.store == api.store
            && (form.reply.Json? <==> api.reply.Json? && !api.reply.body.isDuplicate)
  {
    IntToStringRoundTrip(n);
  }

  /** The deck page's `openPacket` action. The catalogue is the list of
      sticker ids the store holds, in the order the store lists them, and
      `rolls` are the successive `Math.random()` results. `None` means the
      draw loop has not finished with the rolls given (with fewer than two
      stickers in the catalogue it never does). */
  method OpenPacket(s: Store, actingUser: Option<nat>, catalogue: seq<nat>, rolls: seq<real>, now: Instant)
    returns (r: Option<Handled<seq<Sticker>>>)
    requires KeysMatch(s)
    requires forall i :: 0 <= i < |catalogue| ==> catalogue[i] in s.stickers
    requires Packets.ValidRolls(rolls)
    ensures actingUser.None? ==> r == Some(Handled(Error(Unauthorized, ""), s))
    ensures actingUser.Some? ==> (r.None? <==> |Packets.DrawnIds(catalogue, rolls)| < Packets.StickersPerPacket)
    ensures r.Some? && r.value.reply.Error? ==> r.value.store == s
    ensures r.Some? && actingUser.Some? ==> (r.value.reply.Json? <==> actingUser.value in s.users)
    ensures r.Some? && r.value.reply.Json? ==>
      var packet := r.value.reply.body;
      && |packet| == Packets.StickersPerPacket
      && packet[0].stickerId != packet[1].stickerId
      && (forall i :: 0 <= i < |packet| ==>
            packet[i].stickerId in Packets.DrawnIds(catalogue, rolls) && packet[i] == s.stickers[packet[i].stickerId])
      // Exactly the packet's stickers join the deck, with no other change.
      && DeckGained(s, r.value.store, actingUser.value, seq(|packet|, i requires 0 <= i < |packet| => packet[i].stickerId), now)
    ensures r.Some? && Valid(s) ==> Valid(r.value.store)
  {
    if actingUser.None? {
      return Some(Handled(Error(Unauthorized, ""), s));
    }
    var drawn, used := Packets.GeneratePacket(catalogue, rolls);
    if drawn.None? {
      return None;
    }
    var ids := drawn.value;
    Packets.DrawnIdsMonotone(catalogue, rolls, used);
    assert ids[0] in ids && ids[1] in ids;
    var stickerIds: seq<nat> := [ids[0], ids[1]];
    var packet := [s.stickers[ids[0]], s.stickers[ids[1]]];
    match AddToDeck(s, actingUser.value, stickerIds, now) {
      case None =>
        r := Some(Handled(Error(InternalError, ""), s));
      case Some(s') =>
        assert seq(|packet|, i requires 0 <= i < |packet| => packet[i].stickerId) == stickerIds;
        r := Some(Handled(Json(packet), s'));
    }
  }
}
