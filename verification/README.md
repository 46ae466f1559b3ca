# Event chat consumer and login gate, modelled in Dafny

This project models the real-time chat of the event-finder application:
the per-event websocket consumer `EventChatConsumer` (project/chat/consumers.py)
and the login gate `LoginRequiredMiddleware` (project/event_finder/middleware.py).

The consumer is a state machine over explicit, immutable state:

- the database (`Store.Db`), which holds the event table (only `host_id` matters),
  the attendee relation `(event, user, status)`, the `ChatMessage` table with the
  fixed schema `event, user, content, sent_at` of project/chat/models.py:8-12, and
  the next auto-increment key;
- the channel layer's groups (`RoomChannel.Layer`), a map from group name
  `"event_chat_<id>"` to the set of channel names that joined it;
- the connection (`ChatConsumer.Conn`), whose state is `Connecting`, `Open(eventId)`
  or `Closed(reason)`. The close reasons are named: no event id, denied, check failed,
  and client left.

Each handler is a pure function. `Connect` covers the access check, joining the
room and the history replay. `Receive` covers parsing, stripping, saving and the
broadcast to every member's `chat_message`. `Disconnect` covers leaving the room.
The exceptions that change the outcome are boolean parameters of their step:
- the access check raising;
- fetching or sending the history raising;
- saving a message raising;
- `group_send` raising;
- `group_discard` raising.

The clock is a `now` parameter. The failures of `group_add` and `accept` are
listed under "Left out". The handlers'
contracts say what happens on each path, including the error paths.

Points where the model follows the code closely:

- `if not self.event_id` treats event id `0` like a missing id, so both close the connection.
- `json.loads` is not guarded. A frame that is not JSON, a JSON value that is not an
  object, and a truthy `message` that is not a string all make `receive` raise
  (`Crashed`). They are not dropped silently.
- `message` is stripped with Python's `str.strip()`, using Python's full whitespace set.
  A missing or falsy `message`, or one that is whitespace only, is a no-op.
- The `user` column of `ChatMessage` is a non-null foreign key. A save from an
  anonymous connection therefore always fails, and the message would be sent as `"anon"`.
  No run reaches this case: the access check never admits an anonymous visitor, so an
  anonymous connection never opens (`ChatConsumer.AnonymousNeverOpens`).
  `ChatConsumer.AnonymousMessageNotStored` states what `receive` alone would do.
- `group_send` is not guarded. When it raises after a successful save, the message is
  stored but reaches nobody, the sender included.
- The history takes the `limit` rows of the event with the highest keys and returns
  them in ascending key order. The message table is kept in key order, because keys
  come from an increasing counter. `Store.Valid` states this, and saving preserves it.
- The home view is routed at the empty pattern, so the exempt URL `reverse("home")`
  is `/`. Every request path starts with `/`, so the prefix test exempts every path.
  As written, the gate therefore never redirects a request whose path is rooted.
  `LoginGate.RootExemptsEveryPath` proves this.

Two places where the code is less forgiving than one might expect:

- A malformed inbound frame is not dropped. `json.loads` raises.
- A `group_discard` that raises leaves the channel in the group. The error is swallowed.

## Model

| member | source | states |
|---|---|---|
| Text.Strip | project/chat/consumers.py:54 | `strip()` keeps one contiguous piece of the input, starting after the leading whitespace, with only whitespace on either side; it neither starts nor ends with whitespace |
| Text.StripEmptyIffBlank | project/chat/consumers.py:54-55 | the stripped message is empty exactly when the input is whitespace only |
| Text.StripIdempotent | project/chat/consumers.py:54 | stripping a stripped message changes nothing |
| Text.NatToString | project/chat/consumers.py:33 | the event id in the group name is rendered with decimal digits only and no leading zero |
| Text.ParseNatToString | project/chat/consumers.py:33 | reading back the rendered event id gives the id |
| Text.NatToStringInjective | project/chat/consumers.py:33 | distinct event ids render differently |
| RoomChannel.GroupName | project/chat/consumers.py:33 | the group name is the `event_chat_` prefix followed by the rendered event id |
| RoomChannel.GroupNamesDistinct | project/chat/consumers.py:33 | distinct events never share a group |
| RoomChannel.GroupAdd | project/chat/consumers.py:34 | joining adds exactly this channel to this group and leaves every other group as it was |
| RoomChannel.GroupDiscard | project/chat/consumers.py:46 | leaving removes exactly this channel from this group and leaves every other group as it was |
| RoomChannel.DiscardUndoesAdd | project/chat/consumers.py:34-46 | leaving a group just joined restores every group's members, when the channel was not already a member |
| RoomChannel.GroupSend | project/chat/consumers.py:75 | a group send reaches exactly the channels joined to the group at that moment, each with its handler's frame |
| Access.UserIsAllowed | project/chat/consumers.py:87-96 | a fault raises; otherwise a missing event is denied, the authenticated host is allowed, and anyone else is allowed exactly when a "going" record exists |
| Access.AllowedIffHostOrGoing | project/chat/consumers.py:90-96 | access is granted exactly to the host or a "going" attendee of an existing event |
| Access.AnonymousDenied | project/chat/consumers.py:94-96 | an anonymous visitor is never let in |
| Access.OtherStatusDenied | project/chat/consumers.py:96 | a non-host whose records for the event all carry a status other than "going" is denied |
| Access.MoreAttendeesKeepAccess | project/chat/consumers.py:96 | adding attendee records never takes access away |
| Store.SaveMessage | project/chat/consumers.py:147-173 | the save succeeds exactly without a fault, with an existing event and an authenticated sender; on success one row with the next key and `now` is appended and its id and timestamp returned; each failure is named |
| Store.SavePreservesValid | project/chat/consumers.py:164-166 | a successful save keeps the message table in strictly increasing key order below the counter |
| Store.Username | project/chat/consumers.py:68 | the broadcast name is "anon" for an anonymous user; it is the name the history shows for a row recorded with that user as sender |
| Store.SenderName | project/chat/consumers.py:202-207 | a stored row's sender is shown by username, or as "anon" when the row has no sender |
| Store.ToEntry | project/chat/consumers.py:202-230 | a history entry carries the row's sender name, content, timestamp and key |
| Store.OfEvent | project/chat/consumers.py:191-195 | the event filter keeps exactly the rows of the event, and no more rows than the table has |
| Store.OfEventSorted | project/chat/consumers.py:193-199 | in a table kept in key order, the filtered rows are in key order |
| Store.Recent | project/chat/consumers.py:199-201 | the window holds the smaller of `limit` and the number of the event's rows |
| Store.RecentIsSuffix | project/chat/consumers.py:199-201 | the window is the last part of the event's rows, in table order |
| Store.RecentMembers | project/chat/consumers.py:199-201 | every row in the window is a row of the table for this event |
| Store.RecentSorted | project/chat/consumers.py:199-201 | in a table kept in key order, the window is in strictly ascending key order |
| Store.RecentNewest | project/chat/consumers.py:199 | every row of the event left out of the window has a smaller key than every row in it |
| Store.HistoryIsNewestWindow | project/chat/consumers.py:199-201 | in a table kept in key order, the window is the newest-messages window: `min(limit, count)` rows of the event, ascending keys, every left-out row of the event older than every row shown |
| Store.NewestWindowUnique | project/chat/consumers.py:199-201 | any sequence with the newest-window properties is exactly the window the history selects |
| Store.SaveKeepsTimeOrder | project/chat/consumers.py:164-166 | a save stamped no earlier than every stored row keeps the table's timestamps non-decreasing |
| Store.OfEventTimeOrdered | project/chat/consumers.py:193 | in a table in time order, the rows of one event are in time order |
| Store.RecentTimeOrdered | project/chat/consumers.py:199-201 | in a table in time order, the window is in time order |
| Store.HistoryInTimeOrder | project/chat/consumers.py:199-230 | in a table in time order, the history's timestamps never decrease |
| Store.NoMessagesNoHistory | project/chat/consumers.py:199-201 | a room without messages replays an empty history |
| Store.History | project/chat/consumers.py:200-230 | each history entry carries the row's sender name, or "anon" when it has none, with its content, timestamp and key, in window order |
| Store.SavedMessageEndsHistory | project/chat/consumers.py:164-173 | right after a successful save into a key-ordered table, the saved message has a larger key than every earlier row and is the last history entry, with the id and timestamp the save returned |
| ChatConsumer.InboundMessage | project/chat/consumers.py:51-54 | a non-JSON frame, a non-object and a truthy non-string message each raise their own error; binary, missing, falsy and whitespace-only messages give the empty text; otherwise the stripped string |
| ChatConsumer.Connect | project/chat/consumers.py:17-42 | the connection closes with "no event id" exactly when the id is missing or zero, "check failed" exactly when the check raises, and "denied" exactly when it answers no; a closed connection has joined no group and got no frame; otherwise it opens in exactly its room and sends one history frame unless fetching it fails |
| ChatConsumer.Disconnect | project/chat/consumers.py:44-48 | the connection ends; an open one leaves exactly its room unless leaving raises; other rooms are untouched |
| ChatConsumer.Receive | project/chat/consumers.py:50-84 | an empty message saves and sends nothing; a non-empty one is stripped and saved. The database is updated exactly when the save succeeds, and the event then carries the saved id; otherwise it has no id, the server time and an unchanged database. When `group_send` raises, nobody gets the message; otherwise exactly the room's members get it, each sending its client a message frame under "anon" or the username |
| ChatConsumer.ToClientFrame | project/chat/consumers.py:77-84 | `chat_message` sends a message frame from which the event's text, name, timestamp and id read back unchanged |
| ChatConsumer.StoredButUndelivered | project/chat/consumers.py:60-75 | when `group_send` raises after a successful save, the message is stored and reaches nobody |
| ChatConsumer.AnonymousNeverOpens | project/chat/consumers.py:23-31 | an anonymous visitor never gets an open connection, whatever the route and whatever fails |
| ChatConsumer.BlankMessageIgnored | project/chat/consumers.py:54-56 | a missing, null or whitespace-only message changes nothing and sends nothing |
| ChatConsumer.UnsavedMessageStillDelivered | project/chat/consumers.py:60-75 | when the save fails, the message still reaches every member, sender included, with the server time and no id |
| ChatConsumer.AnonymousMessageNotStored | project/chat/consumers.py:58-73 | were an anonymous connection open, its messages would never be stored and would go out as "anon" without an id (no run reaches this state) |
| ChatConsumer.ReceivePreservesValid | project/chat/consumers.py:60-63 | handling a message, whether or not it is then delivered, keeps the message table in key order |
| ChatConsumer.ReceiveKeepsTimeOrder | project/chat/consumers.py:58-63 | handling a message at a clock reading no earlier than any stored row keeps the table in time order |
| ChatConsumer.HostReceivesHistory | project/chat/consumers.py:33-42 | when the access check does not raise, the host of an existing event gets in and receives one history frame of the room's newest `min(50, count)` messages in ascending id order; every message of the room left out is older than every message shown |
| ChatConsumer.ConnectThenDisconnect | project/chat/consumers.py:33-48 | connecting and then disconnecting restores every group's members |
| ChatConsumer.ConnectTouchesOnlyItsRoom | project/chat/consumers.py:33-34 | connecting to one event never changes the members of another event's room |
| ChatConsumer.RoomsIsolated | project/chat/consumers.py:33-75 | a channel that joined only room `b` receives nothing broadcast in another room |
| LoginGate.ExemptUrls | project/event_finder/middleware.py:11-15 | the exempt list starts with the home URL and holds the admin prefix exactly when DEBUG is on |
| LoginGate.AnyPrefix | project/event_finder/middleware.py:19 | the scan answers yes exactly when the path starts with some exempt URL |
| LoginGate.Gate | project/event_finder/middleware.py:17-21 | an authenticated request is forwarded; an anonymous one is forwarded when its path starts with an exempt URL, and redirected home otherwise without calling the view |
| LoginGate.RootExemptsEveryPath | project/event_finder/middleware.py:11-21 | since the home URL is `/`, every request whose path starts with `/` is forwarded, whatever DEBUG is |
| LoginGate.RedirectOnlyForRelativePath | project/event_finder/middleware.py:18-20 | a redirect happens only for an anonymous request whose path does not start with `/` |

## Left out

- The asynchronous machinery is not modelled: `await`, `database_sync_to_async` and the channel-layer transport. Each handler is one atomic transition. Interleavings between connections are not modelled.
- The runtime inspection of model fields in `_save_message` and `_get_recent_messages` is replaced by the fixed `ChatMessage` schema. With that schema the guessing picks `event`, `user`, `content` and `sent_at`.
- JSON encoding and decoding are not modelled. `json.loads` is an input, its result or its failure. Floating-point JSON numbers are not modelled.
- ISO-8601 rendering is not modelled. Timestamps are abstract integers. `timezone.now()` and the database's `auto_now_add` stamp are both the `now` parameter.
- The attendee model imported by `_user_is_allowed` (project/chat/consumers.py:89) does not exist in project/events/models.py. The attendee relation is an abstract input.
  With the models as they stand, that import raises on every call, before the event lookup. Every `connect` with a non-zero event id therefore closes at project/chat/consumers.py:25-27: in the model, `accessFault` is always true and the outcome is `Closed(CheckFailed)`.
  The members and lemmas taken with `accessFault == false` describe the consumer once an attendee model with `event`, `user` and `status` exists. These are `Access.*`, `ChatConsumer.HostReceivesHistory`, and every open connection `Receive` and `Disconnect` start from.
- An anonymous visitor is taken never to match an attendee record. How the ORM would treat `user=AnonymousUser` in the filter is not modelled.
- The failures of `group_add` (project/chat/consumers.py:34) and `accept` (:35) are not modelled: `Connect` always joins and opens once access is granted. Either exception escapes `connect`. What the framework then does with the half-open connection is outside the consumer. A `group_add` that succeeded before `accept` raised would leave the channel in the group.
- ChatConsumer.Receive: `Crashed` and `SendFailed` mean an exception escapes `receive`. Any client can cause the first, with a non-JSON frame (project/chat/consumers.py:53) or a non-object (:54); the second comes from a raising `group_send` (:75). `Received` carries no connection state. So the model says nothing about the connection or its room membership after such a raise. If the framework then tears the connection down without running `disconnect`, the channel stays in the group; that behaviour of the framework is outside the consumer.
- Strings are sequences of Unicode scalar values. `json.loads` can produce a string holding a lone surrogate (`"\ud800"`), which has no counterpart here; such messages are not modelled.
- Store.History: the history is ordered by key, as `order_by("-pk")` orders it. Its timestamps follow that order only when saves run one at a time and the clock never goes back; `Store.HistoryInTimeOrder` proves it under that hypothesis (`TimeOrdered`), which the model does not derive from the free `now`.
- Store.Username: a stored row keeps the sender's account as it was at save time, so the history shows the save-time username. The code stores only the `user` foreign key (project/chat/models.py:10) and reads the current username when it builds the history (project/chat/consumers.py:203-206). After an account is renamed, the code's history shows the new name for old rows, while the model, like `Store.SavedMessageEndsHistory`, shows the old one. Renaming accounts is not modelled.
- Receiving on a connection that is not open is not modelled. `Receive` requires an open connection, because the framework only dispatches frames after `accept`.
- Store.SaveMessage: a database fault is one flag for the whole save. Whether a row was written before the fault is not modelled; the model treats a failed save as writing nothing.
- ChatConsumer.Disconnect: when `group_discard` raises, the model keeps the group unchanged. A partial removal inside the channel layer is not modelled.
- The HTTP views, forms, templates, URL configurations and the location deduplication helper are outside the chat and the gate and are not modelled.
