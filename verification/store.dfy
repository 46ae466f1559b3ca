/** The persistent state the chat consumer reads and writes, with the fixed
    `ChatMessage` schema (event, user, content, sent_at) of chat/models.py:
    the event table, the attendee relation, the message table, and the two
    store operations of the consumer, saving a message and reading the recent
    history of a room. */
module Store {
  import opened Wrappers
  import Text

  /** A reading of the server clock; its rendering as ISO-8601 is not modelled. */
  type Timestamp = int

  /** A row of the user table: primary key and display name. */
  datatype Account = Account(pk: nat, username: string)

  /** The `scope["user"]` of a connection or `request.user` of a request:
      either an authenticated account or an anonymous visitor. */
  datatype Identity = Anonymous | Authenticated(account: Account)

  /** A row of the event table, reduced to what the chat reads: `host_id`. */
  datatype Event = Event(host: nat)

  /** An RSVP record (event, user, status) of the attendee relation. */
  datatype Attendance = Attendance(event: nat, user: nat, status: string)

  /** A `ChatMessage` row: `pk`, `event_id`, `user` (absent for a row without a
      sender), `content` and `sent_at`. */
  datatype Row = Row(pk: nat, event: nat, sender: Option<Account>, content: string, sentAt: Timestamp)

  /** The database as the consumer sees it. `messages` lists the message table in
      insertion order and `nextPk` is the next value of its auto-increment key. */
  datatype Db = Db(events: map<nat, Event>, attendees: set<Attendance>, messages: seq<Row>, nextPk: nat)

  /** The rows of `s` are in strictly increasing key order. */
  ghost predicate AscendingKeys(s: seq<Row>) {
    forall i, j :: 0 <= i < j < |s| ==> s[i].pk < s[j].pk
  }

  /** Primary keys are handed out by an increasing counter, so the table in
      insertion order is in strictly increasing `pk` order, below `nextPk`. */
  ghost predicate Valid(db: Db) {
    && AscendingKeys(db.messages)
    && (forall i :: 0 <= i < |db.messages| ==> db.messages[i].pk < db.nextPk)
  }

  /** The `{"id": ..., "timestamp": ...}` metadata `_save_message` returns. */
  datatype Saved = Saved(id: nat, timestamp: Timestamp)

  /** Why a save raised. */
  datatype SaveError =
    | DatabaseFault   // the database or the ORM raised
    | EventMissing    // `Event.objects.get(pk=event_id)` raised `DoesNotExist`
    | SenderRequired  // `user=None` for an anonymous sender violates the non-null `user` column

  /** The display name of a connection's user: the username when authenticated,
      `"anon"` otherwise. It is the name the history later shows for a row
      recorded with this user as sender (an anonymous sender is recorded as
      no sender). */
  function Username(user: Identity): (name: string)
    ensures user.Anonymous? ==> name == "anon"
    ensures name == SenderName(if user.Authenticated? then Some(user.account) else None)
  {
    match user
    case Authenticated(a) => a.username
    case Anonymous => "anon"
  }

  /** `_save_message` with the fixed schema: insert a row for `eventId` with the
      sender (only an authenticated user is recorded) and the text, stamped by
      the database with `now`. `fault` stands for any exception the database
      raises on its own. */
  function SaveMessage(db: Db, eventId: nat, user: Identity, text: string, now: Timestamp, fault: bool)
    : (r: Result<(Db, Saved), SaveError>)
    ensures r.Success? <==> !fault && eventId in db.events && user.Authenticated?
    ensures r.Failure? ==>
              r.error == (if fault then DatabaseFault else if eventId !in db.events then EventMissing else SenderRequired)
    ensures r.Success? ==>
              var (db', meta) := r.value;
              && meta == Saved(db.nextPk, now)
              && db'.messages == db.messages + [Row(meta.id, eventId, Some(user.account), text, now)]
              && db'.nextPk == db.nextPk + 1
              && db'.events == db.events && db'.attendees == db.attendees
  {
    if fault then Failure(DatabaseFault)
    else if eventId !in db.events then Failure(EventMissing)
    else match user
      case Anonymous => Failure(SenderRequired)
      case Authenticated(a) =>
        var row := Row(db.nextPk, eventId, Some(a), text, now);
        Success((db.(messages := db.messages + [row], nextPk := db.nextPk + 1), Saved(row.pk, row.sentAt)))
  }

  /** A successful save keeps the table in key order. */
  lemma SavePreservesValid(db: Db, eventId: nat, user: Identity, text: string, now: Timestamp, fault: bool)
    requires Valid(db)
    requires SaveMessage(db, eventId, user, text, now, fault).Success?
    ensures Valid(SaveMessage(db, eventId, user, text, now, fault).value.0)
  {
  }

  /** The rows of `rows` that belong to `eventId`, in table order: exactly
      the rows of the event, and no more of them than the table has. */
  function OfEvent(rows: seq<Row>, eventId: nat): (f: seq<Row>)
    ensures |f| <= |rows|
    ensures forall row :: row in f <==> row in rows && row.event == eventId
  {
    if |rows| == 0 then []
    else
      var init := rows[..|rows| - 1];
      var last := rows[|rows| - 1];
      assert rows == init + [last];
      OfEvent(init, eventId) + (if last.event == eventId then [last] else [])
  }

  function Min(a: nat, b: nat): nat {
    if a <= b then a else b
  }

  /** The rows `_get_recent_messages` selects: walking the table from the last
      row backwards it keeps the first `limit` rows of `eventId`, then puts
      them back in table order. Under `Valid` the table order is key order, and
      this is `order_by("-pk")[:limit]` followed by `reversed`
      (`HistoryIsNewestWindow`, `NewestWindowUnique`). */
  function Recent(rows: seq<Row>, eventId: nat, limit: nat): (w: seq<Row>)
    ensures |w| == Min(limit, |OfEvent(rows, eventId)|)
  {
    if |rows| == 0 || limit == 0 then []
    else
      var last := rows[|rows| - 1];
      if last.event == eventId then Recent(rows[..|rows| - 1], eventId, limit - 1) + [last]
      else Recent(rows[..|rows| - 1], eventId, limit)
  }

  /** The rows `Recent` selects are the last ones of the event: a suffix of
      `OfEvent`. */
  lemma {:induction false} RecentIsSuffix(rows: seq<Row>, eventId: nat, limit: nat)
    ensures var f := OfEvent(rows, eventId);
            Recent(rows, eventId, limit) == f[|f| - |Recent(rows, eventId, limit)|..]
  {
    if |rows| > 0 && limit > 0 {
      var init := rows[..|rows| - 1];
      var last := rows[|rows| - 1];
      var f0 := OfEvent(init, eventId);
      if last.event == eventId {
        RecentIsSuffix(init, eventId, limit - 1);
        var w0 := Recent(init, eventId, limit - 1);
        assert Recent(rows, eventId, limit) == w0 + [last];
        assert OfEvent(rows, eventId) == f0 + [last];
        assert (f0 + [last])[|f0| - |w0|..] == f0[|f0| - |w0|..] + [last];
      } else {
        RecentIsSuffix(init, eventId, limit);
        assert Recent(rows, eventId, limit) == Recent(init, eventId, limit);
        assert OfEvent(rows, eventId) == f0;
      }
    }
  }

  /** One element of the history frame. */
  datatype HistoryEntry = HistoryEntry(username: string, message: string, timestamp: Timestamp, id: nat)

  /** The display name of a stored row's sender, `"anon"` when it has none. */
  function SenderName(sender: Option<Account>): (name: string)
    ensures sender.None? ==> name == "anon"
    ensures sender.Some? ==> name == sender.value.username
  {
    match sender
    case Some(a) => a.username
    case None => "anon"
  }

  /** The history entry of one stored row: its sender's name, its content,
      its timestamp and its key. */
  function ToEntry(row: Row): (e: HistoryEntry)
    ensures e.username == SenderName(row.sender)
    ensures e.message == row.content && e.timestamp == row.sentAt && e.id == row.pk
  {
    HistoryEntry(SenderName(row.sender), row.content, row.sentAt, row.pk)
  }

  /** `_get_recent_messages(event_id, limit)` with the fixed schema. */
  function History(rows: seq<Row>, eventId: nat, limit: nat): (h: seq<HistoryEntry>)
    ensures |h| == |Recent(rows, eventId, limit)| <= limit
    ensures forall k :: 0 <= k < |h| ==> h[k] == ToEntry(Recent(rows, eventId, limit)[k])
  {
    var w := Recent(rows, eventId, limit);
    seq(|w|, k requires 0 <= k < |w| => ToEntry(w[k]))
  }

  /** In a table kept in key order, the rows of one event are in key order too. */
  lemma {:induction false} OfEventSorted(rows: seq<Row>, eventId: nat)
    requires AscendingKeys(rows)
    ensures AscendingKeys(OfEvent(rows, eventId))
  {
    if |rows| > 0 {
      var init := rows[..|rows| - 1];
      var last := rows[|rows| - 1];
      OfEventSorted(init, eventId);
      var f0 := OfEvent(init, eventId);
      if last.event == eventId {
        forall k | 0 <= k < |f0|
          ensures f0[k].pk < last.pk
        {
          assert f0[k] in f0;
          var i :| 0 <= i < |init| && init[i] == f0[k];
          assert rows[i] == f0[k];
        }
        assert OfEvent(rows, eventId) == f0 + [last];
      } else {
        assert OfEvent(rows, eventId) == f0;
      }
    }
  }

  /** Each row of the window is a row of the event. */
  lemma {:induction false} RecentMembers(rows: seq<Row>, eventId: nat, limit: nat)
    ensures forall k :: 0 <= k < |Recent(rows, eventId, limit)| ==>
              Recent(rows, eventId, limit)[k] in rows && Recent(rows, eventId, limit)[k].event == eventId
  {
    var f := OfEvent(rows, eventId);
    var w := Recent(rows, eventId, limit);
    RecentIsSuffix(rows, eventId, limit);
    forall k | 0 <= k < |w|
      ensures w[k] in rows && w[k].event == eventId
    {
      assert w[k] == f[|f| - |w| + k];
      assert w[k] in f;
    }
  }

  /** In a table kept in key order, the window is in key order. */
  lemma {:induction false} RecentSorted(rows: seq<Row>, eventId: nat, limit: nat)
    requires AscendingKeys(rows)
    ensures AscendingKeys(Recent(rows, eventId, limit))
  {
    var f := OfEvent(rows, eventId);
    var w := Recent(rows, eventId, limit);
    OfEventSorted(rows, eventId);
    RecentIsSuffix(rows, eventId, limit);
    var start := |f| - |w|;
    forall i, j | 0 <= i < j < |w|
      ensures w[i].pk < w[j].pk
    {
      assert w[i] == f[start + i] && w[j] == f[start + j];
    }
  }

  /** The rows of `s` carry timestamps that never decrease along the sequence:
      what the table looks like when saves run one at a time and the clock
      never goes back. */
  ghost predicate TimeOrdered(s: seq<Row>) {
    forall i, j :: 0 <= i < j < |s| ==> s[i].sentAt <= s[j].sentAt
  }

  /** A save stamped no earlier than every stored row keeps the table in time
      order. */
  lemma SaveKeepsTimeOrder(db: Db, eventId: nat, user: Identity, text: string, now: Timestamp, fault: bool)
    requires TimeOrdered(db.messages)
    requires forall row :: row in db.messages ==> row.sentAt <= now
    requires SaveMessage(db, eventId, user, text, now, fault).Success?
    ensures TimeOrdered(SaveMessage(db, eventId, user, text, now, fault).value.0.messages)
  {
    var s := SaveMessage(db, eventId, user, text, now, fault).value.0.messages;
    forall i, j | 0 <= i < j < |s|
      ensures s[i].sentAt <= s[j].sentAt
    {
      if j == |db.messages| {
        assert s[i] == db.messages[i];
        assert db.messages[i] in db.messages;
      }
    }
  }

  /** In a table kept in time order, the rows of one event are in time order. */
  lemma {:induction false} OfEventTimeOrdered(rows: seq<Row>, eventId: nat)
    requires TimeOrdered(rows)
    ensures TimeOrdered(OfEvent(rows, eventId))
  {
    if |rows| > 0 {
      var init := rows[..|rows| - 1];
      var last := rows[|rows| - 1];
      OfEventTimeOrdered(init, eventId);
      var f0 := OfEvent(init, eventId);
      if last.event == eventId {
        forall k | 0 <= k < |f0|
          ensures f0[k].sentAt <= last.sentAt
        {
          assert f0[k] in f0;
          var i :| 0 <= i < |init| && init[i] == f0[k];
          assert rows[i] == f0[k];
        }
        assert OfEvent(rows, eventId) == f0 + [last];
      } else {
        assert OfEvent(rows, eventId) == f0;
      }
    }
  }

  /** In a table kept in time order, the window is in time order. */
  lemma {:induction false} RecentTimeOrdered(rows: seq<Row>, eventId: nat, limit: nat)
    requires TimeOrdered(rows)
    ensures TimeOrdered(Recent(rows, eventId, limit))
  {
    var f := OfEvent(rows, eventId);
    var w := Recent(rows, eventId, limit);
    OfEventTimeOrdered(rows, eventId);
    RecentIsSuffix(rows, eventId, limit);
    var start := |f| - |w|;
    forall i, j | 0 <= i < j < |w|
      ensures w[i].sentAt <= w[j].sentAt
    {
      assert w[i] == f[start + i] && w[j] == f[start + j];
    }
  }

  /** In a table kept in time order, the history replays its entries with
      timestamps that never decrease. */
  lemma {:induction false} HistoryInTimeOrder(rows: seq<Row>, eventId: nat, limit: nat)
    requires TimeOrdered(rows)
    ensures var h := History(rows, eventId, limit);
            forall i, j :: 0 <= i < j < |h| ==> h[i].timestamp <= h[j].timestamp
  {
    var w := Recent(rows, eventId, limit);
    var h := History(rows, eventId, limit);
    RecentTimeOrdered(rows, eventId, limit);
    forall i, j | 0 <= i < j < |h|
      ensures h[i].timestamp <= h[j].timestamp
    {
      assert h[i].timestamp == w[i].sentAt && h[j].timestamp == w[j].sentAt;
    }
  }

  /** In a table kept in key order, every row of the event outside the window
      has a smaller key than every row in it. */
  lemma {:induction false} RecentNewest(rows: seq<Row>, eventId: nat, limit: nat)
    requires AscendingKeys(rows)
    ensures var w := Recent(rows, eventId, limit);
            forall row, k :: row in rows && row.event == eventId && row !in w && 0 <= k < |w| ==> row.pk < w[k].pk
  {
    var f := OfEvent(rows, eventId);
    var w := Recent(rows, eventId, limit);
    OfEventSorted(rows, eventId);
    RecentIsSuffix(rows, eventId, limit);
    var start := |f| - |w|;
    forall row, k | row in rows && row.event == eventId && row !in w && 0 <= k < |w|
      ensures row.pk < w[k].pk
    {
      assert row in f;
      var i :| 0 <= i < |f| && f[i] == row;
      assert w[k] == f[start + k];
      assert i < start by {
        assert w == f[start..];
      }
    }
  }

  /** `w` is a window of the `limit` newest messages of `eventId` in `rows`:
      as many as `limit` allows, all of the event, in strictly ascending key
      order, and every message of the event left out has a smaller key than
      every message in `w`. */
  ghost predicate IsNewestWindow(rows: seq<Row>, eventId: nat, limit: nat, w: seq<Row>) {
    && |w| == Min(limit, |OfEvent(rows, eventId)|)
    && (forall k :: 0 <= k < |w| ==> w[k] in rows && w[k].event == eventId)
    && AscendingKeys(w)
    && (forall row, k :: row in rows && row.event == eventId && row !in w && 0 <= k < |w| ==> row.pk < w[k].pk)
  }

  /** The history of a well-formed table is the window of the newest messages. */
  lemma {:induction false} HistoryIsNewestWindow(db: Db, eventId: nat, limit: nat)
    requires Valid(db)
    ensures IsNewestWindow(db.messages, eventId, limit, Recent(db.messages, eventId, limit))
  {
    RecentMembers(db.messages, eventId, limit);
    RecentSorted(db.messages, eventId, limit);
    RecentNewest(db.messages, eventId, limit);
  }

  /** Entry `k` of the window cannot sit in `f` above the place of entry `k + 1`. */
  lemma EntryNotAbove(f: seq<Row>, w: seq<Row>, k: nat, t: nat)
    requires AscendingKeys(f) && AscendingKeys(w)
    requires |w| <= |f| && k < |w| && t < |f| && f[t] == w[k]
    requires k + 1 < |w| ==> w[k + 1] == f[|f| - |w| + k + 1]
    ensures t <= |f| - |w| + k
  {
  }

  /** If entry `k` sits in `f` below its place, the row at its place is in no
      entry of the window. */
  lemma PlaceLeftOut(f: seq<Row>, w: seq<Row>, k: nat, t: nat)
    requires AscendingKeys(f) && AscendingKeys(w)
    requires |w| <= |f| && k < |w| && t < |f| && f[t] == w[k]
    requires forall j :: k < j < |w| ==> w[j] == f[|f| - |w| + j]
    requires t < |f| - |w| + k
    ensures f[|f| - |w| + k] !in w
  {
  }

  /** One step of the uniqueness argument, from the top of the window down:
      if the entries above `k` are the last entries of `f`, so is entry `k`. */
  lemma {:induction false} WindowEntryFromTop(f: seq<Row>, w: seq<Row>, k: nat)
    requires AscendingKeys(f) && AscendingKeys(w)
    requires |w| <= |f|
    requires forall i :: 0 <= i < |w| ==> w[i] in f
    requires forall t, i :: 0 <= t < |f| && f[t] !in w && 0 <= i < |w| ==> f[t].pk < w[i].pk
    requires k < |w|
    requires forall j :: k < j < |w| ==> w[j] == f[|f| - |w| + j]
    ensures w[k] == f[|f| - |w| + k]
  {
    var p := |f| - |w| + k;
    assert w[k] in f;
    var t :| 0 <= t < |f| && f[t] == w[k];
    EntryNotAbove(f, w, k, t);
    if t < p {
      PlaceLeftOut(f, w, k, t);
    }
  }

  /** The window is the tail of `f`. */
  lemma {:induction false} WindowIsTail(f: seq<Row>, w: seq<Row>, k: nat)
    requires AscendingKeys(f) && AscendingKeys(w)
    requires |w| <= |f|
    requires forall i :: 0 <= i < |w| ==> w[i] in f
    requires forall t, i :: 0 <= t < |f| && f[t] !in w && 0 <= i < |w| ==> f[t].pk < w[i].pk
    requires k <= |w|
    ensures forall j :: k <= j < |w| ==> w[j] == f[|f| - |w| + j]
    decreases |w| - k
  {
    if k < |w| {
      WindowIsTail(f, w, k + 1);
      WindowEntryFromTop(f, w, k);
    }
  }

  /** The newest window is unique: in a table kept in key order, any sequence
      with the properties of `IsNewestWindow` is exactly what `Recent` selects.
      Together with `HistoryIsNewestWindow` this makes `IsNewestWindow` an
      independent definition of the history. */
  lemma {:induction false} NewestWindowUnique(rows: seq<Row>, eventId: nat, limit: nat, w: seq<Row>)
    requires AscendingKeys(rows)
    requires IsNewestWindow(rows, eventId, limit, w)
    ensures w == Recent(rows, eventId, limit)
  {
    var f := OfEvent(rows, eventId);
    OfEventSorted(rows, eventId);
    forall t, i | 0 <= t < |f| && f[t] !in w && 0 <= i < |w|
      ensures f[t].pk < w[i].pk
    {
      assert f[t] in f;
    }
    WindowIsTail(f, w, 0);
    RecentIsSuffix(rows, eventId, limit);
    assert w == f[|f| - |w|..];
  }

  /** A room without messages replays an empty history. */
  lemma {:induction false} NoMessagesNoHistory(rows: seq<Row>, eventId: nat, limit: nat)
    requires forall row :: row in rows ==> row.event != eventId
    ensures History(rows, eventId, limit) == []
  {
    if |rows| > 0 {
      NoMessagesNoHistory(rows[..|rows| - 1], eventId, limit);
      assert rows[|rows| - 1] in rows;
    }
  }

  /** Right after a successful save into a well-formed table the saved
      message has the largest key, and it is the last entry of the room's
      history, with the saved id and timestamp. */
  lemma SavedMessageEndsHistory(db: Db, eventId: nat, user: Identity, text: string, now: Timestamp, limit: nat)
    requires Valid(db)
    requires limit > 0
    requires SaveMessage(db, eventId, user, text, now, false).Success?
    ensures var (db', meta) := SaveMessage(db, eventId, user, text, now, false).value;
            var h := History(db'.messages, eventId, limit);
            && |h| > 0 && h[|h| - 1] == HistoryEntry(Username(user), text, meta.timestamp, meta.id)
            && (forall row :: row in db.messages ==> row.pk < meta.id)
  {
  }
}
