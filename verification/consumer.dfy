/** The per-connection chat consumer (`EventChatConsumer`) as a state machine:
    `connect`, `receive`, `chat_message` and `disconnect` are pure transitions
    over the database, the channel layer's groups and the connection's state.
    The exceptions that change a step's outcome (the access check, the
    history, the save, `group_send`, `group_discard`) are boolean parameters,
    and the clock is the `now` parameter. */
module ChatConsumer {
  import opened Wrappers
  import opened Store
  import Text
  import Access
  import opened RoomChannel

  /** How many messages the history frame replays. */
  const HistoryLimit: nat := 50

  /** A decoded JSON value; floating-point numbers are not modelled. */
  datatype Json =
    | JNull
    | JBool(b: bool)
    | JInt(i: int)
    | JString(s: string)
    | JArray(items: seq<Json>)
    | JObject(fields: map<string, Json>)

  /** Python's truth value of the decoded value. */
  predicate Truthy(v: Json) {
    match v
    case JNull => false
    case JBool(b) => b
    case JInt(i) => i != 0
    case JString(s) => s != []
    case JArray(items) => items != []
    case JObject(fields) => fields != map[]
  }

  /** Python's `a or b`. */
  function Or(a: Json, b: Json): Json {
    if Truthy(a) then a else b
  }

  /** An inbound websocket frame: binary only (`text_data is None`), or text
      together with what `json.loads` makes of it (`None` when it raises). */
  datatype Inbound = BinaryFrame | TextFrame(decoded: Option<Json>)

  /** Why `receive` raised. */
  datatype ReceiveError =
    | MalformedJson   // `json.loads` raised
    | NotAnObject     // the decoded value has no `.get`
    | MessageNotText  // a truthy `message` that has no `.strip`

  /** `data.get("message")` of a frame whose text decodes to an object, `JNull`
      standing for a missing member; `None` for any other frame. */
  function MessageMember(frame: Inbound): Option<Json> {
    match frame
    case TextFrame(Some(JObject(fields))) => Some(if "message" in fields then fields["message"] else JNull)
    case _ => None
  }

  /** Lines 51-54 of `receive`: the stripped message text, the empty string
      when `receive` returns early, or the exception raised. */
  function InboundMessage(frame: Inbound): (r: Result<string, ReceiveError>)
    ensures r == Failure(MalformedJson) <==> frame == TextFrame(None)
    ensures r == Failure(NotAnObject) <==> frame.TextFrame? && frame.decoded.Some? && !frame.decoded.value.JObject?
    ensures r == Failure(MessageNotText) <==>
              MessageMember(frame).Some? && Truthy(MessageMember(frame).value) && !MessageMember(frame).value.JString?
    ensures r == Success([]) <==>
              || frame.BinaryFrame?
              || (MessageMember(frame).Some? && !Truthy(MessageMember(frame).value))
              || (MessageMember(frame).Some? && MessageMember(frame).value.JString?
                  && Text.AllWhitespace(MessageMember(frame).value.s))
    ensures r.Success? && r.value != [] ==>
              && MessageMember(frame).Some? && MessageMember(frame).value.JString?
              && r.value == Text.Strip(MessageMember(frame).value.s)
  {
    match frame
    case BinaryFrame => Success([])
    case TextFrame(None) => Failure(MalformedJson)
    case TextFrame(Some(data)) =>
      if !data.JObject? then Failure(NotAnObject)
      else
        var v := Or(if "message" in data.fields then data.fields["message"] else JNull, JString(""));
        if !v.JString? then Failure(MessageNotText)
        else
          Text.StripEmptyIffBlank(v.s);
          Success(Text.Strip(v.s))
  }

  /** The `chat.message` event a `receive` hands to `group_send`; `id` is absent
      when the save failed. */
  datatype ChatEvent = ChatEvent(message: string, username: string, timestamp: Timestamp, id: Option<nat>)

  /** A frame sent to a client. */
  datatype Frame =
    | HistoryFrame(messages: seq<HistoryEntry>)
    | MessageFrame(message: string, username: string, timestamp: Timestamp, id: Option<nat>)

  /** `chat_message`: what each member of the room sends its client for one
      `chat.message` event. The frame is a message frame from which the event's
      text, name, timestamp and id read back unchanged. */
  function ToClientFrame(ev: ChatEvent): (f: Frame)
    ensures f.MessageFrame? && ChatEvent(f.message, f.username, f.timestamp, f.id) == ev
  {
    MessageFrame(ev.message, ev.username, ev.timestamp, ev.id)
  }

  /** Why a connection ended. */
  datatype CloseReason =
    | NoEventId      // the route carried no event id, or id 0
    | Denied         // the access check answered no
    | CheckFailed    // the access check raised
    | ClientLeft     // `disconnect` after the connection was open

  datatype State = Connecting | Open(eventId: nat) | Closed(reason: CloseReason)

  /** One websocket connection: its channel name, its `scope["user"]` and its state. */
  datatype Conn = Conn(channel: Channel, user: Identity, state: State)

  /** The result of a transition: the connection, the groups, and the frames
      sent to this connection's client in order. */
  datatype Step = Step(conn: Conn, layer: Layer, sent: seq<Frame>)

  /** `connect`. `routeId` is the `event_id` of the route (`None` when the
      route has none), `accessFault` whether `_user_is_allowed` raises, and
      `historyFault` whether `_get_recent_messages` or the send raises. */
  function Connect(db: Db, layer: Layer, conn: Conn, routeId: Option<nat>, accessFault: bool, historyFault: bool)
    : (r: Step)
    requires conn.state.Connecting?
    ensures r.conn.channel == conn.channel && r.conn.user == conn.user
    ensures !r.conn.state.Connecting?
    ensures r.conn.state == Closed(NoEventId) <==> routeId.None? || routeId == Some(0)
    ensures r.conn.state.Closed? ==> r.layer == layer && r.sent == []
    ensures r.conn.state == Closed(CheckFailed) <==> routeId.Some? && routeId != Some(0) && accessFault
    ensures r.conn.state == Closed(Denied) <==>
              routeId.Some? && routeId != Some(0) && Access.UserIsAllowed(db, conn.user, routeId.value, accessFault) == Success(false)
    ensures r.conn.state.Open? <==>
              routeId.Some? && routeId != Some(0) && Access.UserIsAllowed(db, conn.user, routeId.value, accessFault) == Success(true)
    ensures r.conn.state.Open? ==>
              && r.conn.state.eventId == routeId.value
              && Members(r.layer, GroupName(routeId.value)) == Members(layer, GroupName(routeId.value)) + {conn.channel}
              && (forall g :: g != GroupName(routeId.value) ==> Members(r.layer, g) == Members(layer, g))
              && r.sent == (if historyFault then [] else [HistoryFrame(History(db.messages, routeId.value, HistoryLimit))])
  {
    match routeId
    case None => Step(conn.(state := Closed(NoEventId)), layer, [])
    case Some(id) =>
      if id == 0 then Step(conn.(state := Closed(NoEventId)), layer, [])
      else
        match Access.UserIsAllowed(db, conn.user, id, accessFault)
        case Failure(_) => Step(conn.(state := Closed(CheckFailed)), layer, [])
        case Success(ok) =>
          if !ok then Step(conn.(state := Closed(Denied)), layer, [])
          else
            var joined := GroupAdd(layer, GroupName(id), conn.channel);
            var sent := if historyFault then [] else [HistoryFrame(History(db.messages, id, HistoryLimit))];
            Step(conn.(state := Open(id)), joined, sent)
  }

  /** `disconnect`. `discardFault` is whether `group_discard` raises; the error
      is swallowed and the connection ends either way. A connection that never
      joined has no group name, and the resulting error is swallowed too. */
  function Disconnect(layer: Layer, conn: Conn, discardFault: bool): (r: Step)
    ensures r.conn.channel == conn.channel && r.conn.user == conn.user
    ensures r.conn.state.Closed? && r.sent == []
    ensures conn.state.Open? && !discardFault ==>
              && Members(r.layer, GroupName(conn.state.eventId)) == Members(layer, GroupName(conn.state.eventId)) - {conn.channel}
              && (forall g :: g != GroupName(conn.state.eventId) ==> Members(r.layer, g) == Members(layer, g))
    ensures !conn.state.Open? || discardFault ==> r.layer == layer
  {
    match conn.state
    case Open(id) =>
      var left := if discardFault then layer else GroupDiscard(layer, GroupName(id), conn.channel);
      Step(conn.(state := Closed(ClientLeft)), left, [])
    case Closed(reason) => Step(conn, layer, [])
    case Connecting => Step(conn.(state := Closed(ClientLeft)), layer, [])
  }

  /** What one inbound frame leads to. */
  datatype Received =
    | Ignored                       // early return: nothing saved, nothing sent
    | Crashed(error: ReceiveError)  // `receive` raised before saving
    | SendFailed(db: Db, event: ChatEvent)  // `group_send` raised after the save: delivered to nobody
    | Broadcast(db: Db, event: ChatEvent, deliveries: map<Channel, Frame>)
  {
    /** `receive` got past the save attempt and built its `chat.message` event. */
    predicate Handled() {
      SendFailed? || Broadcast?
    }
  }

  /** `receive` on an open connection followed by the fan-out of its
      `group_send`: `deliveries` maps each member of the room to the frame its
      `chat_message` sends. `saveFault` is whether `_save_message` raises on
      its own, `sendFault` whether `group_send` raises, and `now` is the clock. */
  function Receive(db: Db, layer: Layer, conn: Conn, frame: Inbound, now: Timestamp, saveFault: bool, sendFault: bool)
    : (r: Received)
    requires conn.state.Open?
    ensures r.Ignored? <==> InboundMessage(frame) == Success([])
    ensures r.Crashed? <==> InboundMessage(frame).Failure?
    ensures r.Crashed? ==> r.error == InboundMessage(frame).error
    ensures r.SendFailed? <==> r.Handled() && sendFault
    ensures r.Handled() ==>
              && r.event.message == InboundMessage(frame).value != []
              && r.event.username == Username(conn.user)
              && r.event.timestamp == now
    ensures r.Broadcast? ==>
              && r.deliveries.Keys == Members(layer, GroupName(conn.state.eventId))
              && (forall c :: c in r.deliveries ==>
                    r.deliveries[c] == MessageFrame(r.event.message, r.event.username, now, r.event.id))
    ensures r.Handled() ==>
              (r.event.id.Some? <==> !saveFault && conn.state.eventId in db.events && conn.user.Authenticated?)
    ensures r.Handled() && r.event.id.Some? ==>
              && r.event.id == Some(db.nextPk)
              && r.db.messages == db.messages + [Row(db.nextPk, conn.state.eventId, Some(conn.user.account), r.event.message, now)]
              && r.db.nextPk == db.nextPk + 1
              && r.db.events == db.events && r.db.attendees == db.attendees
    ensures r.Handled() && r.event.id.None? ==> r.db == db
  {
    match InboundMessage(frame)
    case Failure(e) => Crashed(e)
    case Success(message) =>
      if message == [] then Ignored
      else
        var username := Username(conn.user);
        var saved := SaveMessage(db, conn.state.eventId, conn.user, message, now, saveFault);
        var (db', ev) :=
          match saved
          case Success((db', meta)) => (db', ChatEvent(message, username, meta.timestamp, Some(meta.id)))
          case Failure(_) => (db, ChatEvent(message, username, now, None));
        if sendFault then SendFailed(db', ev)
        else Broadcast(db', ev, GroupSend(layer, GroupName(conn.state.eventId), ev, ToClientFrame))
  }

  /** A frame whose `message` is missing, empty or whitespace only changes
      nothing and sends nothing. */
  lemma BlankMessageIgnored(db: Db, layer: Layer, conn: Conn, fields: map<string, Json>, now: Timestamp,
                            saveFault: bool, sendFault: bool)
    requires conn.state.Open?
    requires "message" !in fields || fields["message"] == JNull ||
             (fields["message"].JString? && Text.AllWhitespace(fields["message"].s))
    ensures Receive(db, layer, conn, TextFrame(Some(JObject(fields))), now, saveFault, sendFault) == Ignored
  {
  }

  /** A message the database fails to store still reaches every member of the
      room, sender included, stamped with the server clock and without an id. */
  lemma UnsavedMessageStillDelivered(db: Db, layer: Layer, conn: Conn, text: string, now: Timestamp)
    requires conn.state.Open?
    requires conn.channel in Members(layer, GroupName(conn.state.eventId))
    requires !Text.AllWhitespace(text)
    ensures var r := Receive(db, layer, conn, TextFrame(Some(JObject(map["message" := JString(text)]))), now, true, false);
            && r.Broadcast? && r.db == db
            && r.deliveries.Keys == Members(layer, GroupName(conn.state.eventId))
            && r.deliveries[conn.channel] == MessageFrame(Text.Strip(text), Username(conn.user), now, None)
  {
  }

  /** When `group_send` raises after a successful save, the message is stored
      and yet reaches no member of the room, sender included. */
  lemma StoredButUndelivered(db: Db, layer: Layer, channel: Channel, account: Account, eventId: nat, text: string,
                             now: Timestamp)
    requires eventId > 0 && eventId in db.events
    requires !Text.AllWhitespace(text)
    ensures var conn := Conn(channel, Authenticated(account), Open(eventId));
            var r := Receive(db, layer, conn, TextFrame(Some(JObject(map["message" := JString(text)]))), now, false, true);
            && r.SendFailed?
            && r.db.messages == db.messages + [Row(db.nextPk, eventId, Some(account), Text.Strip(text), now)]
  {
  }

  /** An anonymous visitor never gets an open connection, whatever the route
      and whatever fails. */
  lemma {:induction false} AnonymousNeverOpens(db: Db, layer: Layer, channel: Channel, routeId: Option<nat>,
                                               accessFault: bool, historyFault: bool)
    ensures !Connect(db, layer, Conn(channel, Anonymous, Connecting), routeId, accessFault, historyFault).conn.state.Open?
  {
    if routeId.Some? {
      Access.AnonymousDenied(db, routeId.value, accessFault);
    }
  }

  /** A message from an anonymous connection is never stored, because the
      message table requires a sender, yet it is sent under `"anon"`. No run
      reaches this state (see `AnonymousNeverOpens`); the lemma states what
      `receive` itself does with such a user. */
  lemma AnonymousMessageNotStored(db: Db, layer: Layer, channel: Channel, eventId: nat, frame: Inbound, now: Timestamp,
                                  sendFault: bool)
    requires eventId > 0
    ensures var r := Receive(db, layer, Conn(channel, Anonymous, Open(eventId)), frame, now, false, sendFault);
            r.Handled() ==> r.db == db && r.event.id.None? && r.event.username == "anon"
  {
  }

  /** A transition that stores a message keeps the table in key order. */
  lemma ReceivePreservesValid(db: Db, layer: Layer, conn: Conn, frame: Inbound, now: Timestamp,
                              saveFault: bool, sendFault: bool)
    requires Valid(db)
    requires conn.state.Open?
    requires Receive(db, layer, conn, frame, now, saveFault, sendFault).Handled()
    ensures Valid(Receive(db, layer, conn, frame, now, saveFault, sendFault).db)
  {
  }

  /** A message handled at a clock reading no earlier than any stored row
      keeps the table in time order. */
  lemma ReceiveKeepsTimeOrder(db: Db, layer: Layer, conn: Conn, frame: Inbound, now: Timestamp,
                              saveFault: bool, sendFault: bool)
    requires TimeOrdered(db.messages)
    requires forall row :: row in db.messages ==> row.sentAt <= now
    requires conn.state.Open?
    requires Receive(db, layer, conn, frame, now, saveFault, sendFault).Handled()
    ensures TimeOrdered(Receive(db, layer, conn, frame, now, saveFault, sendFault).db.messages)
  {
    var message := InboundMessage(frame).value;
    if SaveMessage(db, conn.state.eventId, conn.user, message, now, saveFault).Success? {
      SaveKeepsTimeOrder(db, conn.state.eventId, conn.user, message, now, saveFault);
    }
  }

  /** The host of an existing event always gets in and, unless fetching the
      history fails, receives one history frame holding the newest messages of
      the room, at most fifty, oldest first: every message of the room not in
      the frame is older than every message in it. */
  lemma {:induction false} HostReceivesHistory(db: Db, layer: Layer, channel: Channel, host: Account, eventId: nat)
    requires Valid(db)
    requires eventId > 0 && eventId in db.events && db.events[eventId].host == host.pk
    ensures var r := Connect(db, layer, Conn(channel, Authenticated(host), Connecting), Some(eventId), false, false);
            && r.conn.state == Open(eventId)
            && |r.sent| == 1 && r.sent[0].HistoryFrame?
            && |r.sent[0].messages| == Min(HistoryLimit, |OfEvent(db.messages, eventId)|)
            && (forall i, j :: 0 <= i < j < |r.sent[0].messages| ==> r.sent[0].messages[i].id < r.sent[0].messages[j].id)
            && (forall row, k ::
                  row in db.messages && row.event == eventId && row.pk !in ShownIds(r.sent[0].messages) &&
                  0 <= k < |r.sent[0].messages|
                  ==> row.pk < r.sent[0].messages[k].id)
  {
    var w := Recent(db.messages, eventId, HistoryLimit);
    var h := History(db.messages, eventId, HistoryLimit);
    HistoryIsNewestWindow(db, eventId, HistoryLimit);
    forall i, j | 0 <= i < j < |h|
      ensures h[i].id < h[j].id
    {
      assert h[i].id == w[i].pk && h[j].id == w[j].pk;
    }
    forall row, k | row in db.messages && row.event == eventId && row.pk !in ShownIds(h) && 0 <= k < |h|
      ensures row.pk < h[k].id
    {
      assert h[k].id == w[k].pk;
    }
  }

  /** The message ids a history frame shows. */
  function ShownIds(h: seq<HistoryEntry>): set<nat> {
    set m | 0 <= m < |h| :: h[m].id
  }

  /** Leaving right after joining gives every group back its members, when the
      channel was not already in the room. */
  lemma ConnectThenDisconnect(db: Db, layer: Layer, conn: Conn, routeId: Option<nat>, accessFault: bool, historyFault: bool)
    requires conn.state.Connecting?
    requires routeId.Some? ==> conn.channel !in Members(layer, GroupName(routeId.value))
    ensures var first := Connect(db, layer, conn, routeId, accessFault, historyFault);
            var closed := Disconnect(first.layer, first.conn, false);
            closed.conn.state.Closed? && forall g :: Members(closed.layer, g) == Members(layer, g)
  {
  }

  /** Joining one room leaves the membership of every other room as it was. */
  lemma {:induction false} ConnectTouchesOnlyItsRoom(db: Db, layer: Layer, conn: Conn, id: nat, other: nat, accessFault: bool, historyFault: bool)
    requires conn.state.Connecting?
    requires id != other
    ensures var r := Connect(db, layer, conn, Some(id), accessFault, historyFault);
            Members(r.layer, GroupName(other)) == Members(layer, GroupName(other))
  {
    GroupNamesDistinct(id, other);
  }

  /** Rooms are isolated: a channel that had joined no room and then joins room
      `b` receives nothing broadcast in any other room `a`. */
  lemma {:induction false} RoomsIsolated(db: Db, layer: Layer, conn: Conn, b: nat, sender: Conn, frame: Inbound, now: Timestamp,
                      accessFault: bool, historyFault: bool, saveFault: bool, sendFault: bool)
    requires conn.state.Connecting?
    requires forall g :: conn.channel !in Members(layer, g)
    requires sender.state.Open? && sender.state.eventId != b
    ensures var joined := Connect(db, layer, conn, Some(b), accessFault, historyFault);
            var r := Receive(db, joined.layer, sender, frame, now, saveFault, sendFault);
            r.Broadcast? ==> conn.channel !in r.deliveries
  {
    ConnectTouchesOnlyItsRoom(db, layer, conn, b, sender.state.eventId, accessFault, historyFault);
  }
}
