/** Server and board together: what a delivered answer does, and what whole runs keep. */
module Replication {
  import opened Text
  import opened Decimal
  import opened ChatTable
  import opened Commands
  import opened Delivery
  import opened Codec
  import opened Dictionaries
  import opened UpdateServer
  import opened PollProperties
  import opened PollRuns

  // ----- delivering one answer -----

  /** The board's settings after `config_control` on a payload. */
  function Deliver(b: Settings, payload: string): Settings {
    ExecuteAll(b, CommandsIn(payload))
  }

  function SlotsOf(chats: seq<Chat<int>>): (slots: seq<Slot>)
    ensures |slots| == |chats|
    ensures forall i :: 0 <= i < |chats| ==> slots[i] == Slot(chats[i].name, Dec(chats[i].id))
  {
    if chats == [] then [] else [Slot(chats[0].name, Dec(chats[0].id))] + SlotsOf(chats[1..])
  }

  /** The key of a removal the board reads. */
  function KeyOf(removal: Option<int>): Option<string> {
    if removal.Some? && removal.value > 0 then Some(Dec(removal.value)) else None
  }

  lemma {:induction false} AddCommandsEffect(b: Settings, chats: seq<Chat<int>>)
    ensures ExecuteAll(b, AddCommands(chats)) == b.(table := SetAll(b.table, SlotsOf(chats)))
    decreases |chats|
  {
    if chats != [] {
      AddCommandsEffect(Execute(b, AddChat(chats[0].name, Dec(chats[0].id))), chats[1..]);
      assert SlotsOf(chats)[1..] == SlotsOf(chats[1..]);
    }
  }

  lemma {:induction false} ExecuteFour(b: Settings, i: seq<Command>, f: seq<Command>, a: seq<Command>, r: seq<Command>)
    ensures ExecuteAll(b, i + f + a + r) == ExecuteAll(ExecuteAll(ExecuteAll(ExecuteAll(b, i), f), a), r)
  {
    ExecuteConcat(b, i + f + a, r);
    ExecuteConcat(b, i + f, a);
    ExecuteConcat(b, i, f);
  }

  lemma {:induction false} OptionalEffects(b: Settings, c: Changes)
    requires HasLegalSettings(c)
    ensures ExecuteAll(b, IntervalCommands(c.interval)) ==
      b.(interval := if c.interval.Some? then c.interval.value else b.interval)
    ensures ExecuteAll(b, FeedbackCommands(c.feedback)) ==
      b.(feedback := if c.feedback.Some? then c.feedback.value == "1" else b.feedback)
    ensures ExecuteAll(b, RemovalRead(c.removal)) == b.(table := DropAny(b.table, KeyOf(c.removal)))
  {
  }

  /** A clean message that fits sets exactly what changed and applies its chats, then its removal. */
  lemma {:induction false} DeliverEffect(b: Settings, c: Changes)
    requires HasLegalSettings(c) && AllClean(c.added) && |Encode(c)| < COAP_UPDATE_SIZE
    ensures Deliver(b, Encode(c)) == Settings(
      if c.interval.Some? then c.interval.value else b.interval,
      if c.feedback.Some? then c.feedback.value == "1" else b.feedback,
      Apply(b.table, SlotsOf(c.added), KeyOf(c.removal)))
  {
    CommandsOfClean(c);
    ExecuteFour(b, IntervalCommands(c.interval), FeedbackCommands(c.feedback), AddCommands(c.added),
                RemovalRead(c.removal));
    var b1 := ExecuteAll(b, IntervalCommands(c.interval));
    var b2 := ExecuteAll(b1, FeedbackCommands(c.feedback));
    var b3 := ExecuteAll(b2, AddCommands(c.added));
    OptionalEffects(b, c);
    OptionalEffects(b1, c);
    AddCommandsEffect(b2, c.added);
    OptionalEffects(b3, c);
  }

  /** The two status answers change nothing. */
  lemma {:induction false} StatusIsHarmless(b: Settings)
    ensures Deliver(b, NO_UPDATES) == b && Deliver(b, MESSAGES_SENT) == b
  {
    assert NUL !in NO_UPDATES && NUL !in MESSAGES_SENT;
    assert CString(NO_UPDATES) == NO_UPDATES && CString(MESSAGES_SENT) == MESSAGES_SENT;
  }

  const MISSING_FIELDS := "Missing required fields"
  const FETCH_FAILED := "Failed to fetch updates"

  /** The other two fixed answers hold no command either. */
  lemma {:induction false} RefusalIsHarmless(b: Settings)
    ensures Deliver(b, MISSING_FIELDS) == b && Deliver(b, FETCH_FAILED) == b
  {
    assert MISSING_FIELDS[0] == 'M' && FETCH_FAILED[0] == 'F';
    MissingFieldsIsPiece();
    FetchFailedIsPiece();
    TextIsIgnored(b, MISSING_FIELDS);
    TextIsIgnored(b, FETCH_FAILED);
  }

  lemma {:induction false} MissingFieldsIsPiece()
    ensures IsPiece(MISSING_FIELDS) && ':' !in MISSING_FIELDS
  {
  }

  lemma {:induction false} FetchFailedIsPiece()
    ensures IsPiece(FETCH_FAILED) && ':' !in FETCH_FAILED
  {
  }

  /** A single piece without a colon that starts like no setting is no command. */
  lemma {:induction false} TextIsIgnored(b: Settings, text: string)
    requires IsPiece(text) && ':' !in text && text[0] !in {'f', 'i', 'r'}
    ensures Deliver(b, text) == b
  {
    assert CString(text) == text;
    TokenOfPiece(text);
    assert ParseCommand(text) == Ignored;
    OneCommand(b, text);
  }

  lemma {:induction false} TokenOfPiece(text: string)
    requires IsPiece(text)
    ensures Tokens(text, ';') == [text]
  {
    assert Join([text], ';') == text;
    TokensOfJoin([text], ';');
  }

  const ERROR_NAME := "Internal server error"

  /** The chat a server error is mistaken for: everything after its colon, up to the next separator. */
  function ErrorChat(reason: string): Command {
    var text := CString(reason);
    AddChat(ERROR_NAME, text[..Find(text, ';')])
  }

  lemma {:induction false} ErrorTokens(text: string)
    requires NUL !in text
    ensures var k := Find(text, ';');
      Tokens(ERROR_NAME + ":" + text, ';') == [ERROR_NAME + ":" + text[..k]] + Tokens(text[k..], ';')
  {
    var k := Find(text, ';');
    var first := ERROR_NAME + ":" + text[..k];
    var all := ERROR_NAME + ":" + text;
    assert all == first + text[k..];
    assert first[0] == 'I' && ';' !in first;
    assert k < |text| ==> all[|first|] == ';';
    assert Find(all, ';') == |first|;
    assert all[..|first|] == first && all[|first|..] == text[k..];
  }

  lemma {:induction false} ErrorChatParses(id: string)
    ensures ParseCommand(ERROR_NAME + ":" + id) == AddChat(ERROR_NAME, id)
  {
    var s := ERROR_NAME + ":" + id;
    assert ':' !in ERROR_NAME && s[0] == 'I';
    assert s[|ERROR_NAME|] == ':';
    assert Find(s, ':') == |ERROR_NAME|;
    assert s[..|ERROR_NAME|] == ERROR_NAME && s[|ERROR_NAME| + 1..] == id;
  }

  /** An error answer is not a status answer to the board: whatever its reason, if it fits, the first command the
      board executes is to set a chat. The results below speak of emitted messages and fixed answers only. */
  lemma {:induction false} ServerErrorBecomesChat(reason: string)
    ensures |ERROR_NAME + ":" + reason| < COAP_UPDATE_SIZE <==> |reason| <= 280
    ensures |reason| <= 280 ==>
      var commands := CommandsIn(ERROR_NAME + ":" + reason);
      commands != [] && commands[0] == ErrorChat(reason)
  {
    var text := CString(reason);
    var payload := ERROR_NAME + ":" + reason;
    assert |ERROR_NAME| == 21;
    if |reason| <= 280 {
      CStringOfError(reason);
      ErrorTokens(text);
      ErrorChatParses(text[..Find(text, ';')]);
      assert CString(payload)[0] == 'I';
    }
  }

  /** An error without a separator in its reason does just that. */
  lemma {:induction false} ErrorOnBoard(b: Settings, reason: string)
    requires |reason| <= 280 && ';' !in CString(reason)
    ensures Deliver(b, ERROR_NAME + ":" + reason) == b.(table := SetChat(b.table, ERROR_NAME, CString(reason)))
  {
    var token, payload := ERROR_NAME + ":" + CString(reason), ERROR_NAME + ":" + reason;
    CStringOfError(reason);
    ErrorIsPiece(CString(reason));
    TokenOfPiece(token);
    ErrorChatParses(CString(reason));
    OneCommand(b, token);
    assert CommandsIn(payload) == ParseAll([token]);
  }

  lemma {:induction false} ErrorIsPiece(text: string)
    requires ';' !in text && NUL !in text
    ensures IsPiece(ERROR_NAME + ":" + text) && !IsStatus(ERROR_NAME + ":" + text) && |ERROR_NAME + ":"| == 22
  {
    assert (ERROR_NAME + ":" + text)[0] == 'I';
    assert ';' !in ERROR_NAME && NUL !in ERROR_NAME;
  }

  lemma {:induction false} OneCommand(b: Settings, token: string)
    ensures ExecuteAll(b, ParseAll([token])) == Execute(b, ParseCommand(token))
  {
    var command := ParseCommand(token);
    assert [token][1..] == [] && [command][1..] == [];
    assert ParseAll([token]) == [command] + ParseAll([]) == [command];
    assert ExecuteAll(b, [command]) == ExecuteAll(Execute(b, command), []);
  }

  /** A reason longer than an id is cut, and no slot ever matches it: every such error takes a hole of its own,
      until the table is full. */
  lemma {:induction false} ErrorTakesSlot(b: Settings, reason: string)
    requires |reason| <= 280 && ';' !in CString(reason) && |CString(reason)| >= CHAT_ID_LENGTH && Bounded(b.table)
    ensures var h := FirstHole(b.table);
      Deliver(b, ERROR_NAME + ":" + reason) ==
      if h == |b.table| then b
      else b.(table := b.table[h := Slot("Internal serve", CString(reason)[..CHAT_ID_LENGTH - 1])])
  {
    var t, id := b.table, CString(reason);
    ErrorOnBoard(b, reason);
    assert |ERROR_NAME| == 21 && ERROR_NAME[..14] == "Internal serve";
    assert forall k :: 0 <= k < |t| ==> SlotFits(t[k]) && t[k].name != ERROR_NAME && t[k].id != id;
    assert FirstMatch(t, ERROR_NAME, id) == |t|;
  }

  lemma {:induction false} CStringOfError(reason: string)
    ensures CString(ERROR_NAME + ":" + reason) == ERROR_NAME + ":" + CString(reason)
  {
    var k := Find(reason, NUL);
    var head := ERROR_NAME + ":" + reason[..k];
    var payload := ERROR_NAME + ":" + reason;
    assert payload == head + reason[k..];
    assert NUL !in ERROR_NAME && NUL !in head;
    assert k < |reason| ==> payload[|head|] == NUL;
    assert forall i :: 0 <= i < |head| ==> payload[i] == head[i];
    assert Find(payload, NUL) == |head|;
    assert payload[..|head|] == head;
  }

  // ----- what a poll emits -----

  ghost predicate HasWellFormedChats(s: ServerState) {
    forall c :: c in s.chats ==> 0 < c < 100_000_000_000
  }

  lemma {:induction false} AddedWereSaid(s: ServerState, us: seq<Update>)
    ensures forall x :: x in Fold(s, us).added ==>
      exists i :: 0 <= i < |us| && CanRegister(us[i]) && x == Chat(us[i].chatId, us[i].firstName)
    ensures DistinctKeys(Fold(s, us).added)
  {
    if us != [] {
      var n := |us| - 1;
      var front := us[..n];
      AddedWereSaid(s, front);
      assert forall i :: 0 <= i < n ==> front[i] == us[i];
      PutDistinct(Fold(s, front).added, Chat(us[n].chatId, us[n].firstName));
    }
  }

  lemma {:induction false} EmittedSettingsAreLegal(s: ServerState, us: seq<Update>)
    ensures Fold(s, us).interval.Some? ==> 1 <= Fold(s, us).interval.value <= 120
    ensures Fold(s, us).feedback.Some? ==> Fold(s, us).feedback.value == "0" || Fold(s, us).feedback.value == "1"
    ensures Fold(s, us).removal.Some? ==> Fold(s, us).removal.value in s.chats
    ensures Fold(s, us).chats.Keys <= s.chats.Keys
  {
    if us != [] {
      EmittedSettingsAreLegal(s, us[..|us| - 1]);
    }
  }

  /** A poll that adds well-formed chats emits a legal message and keeps the registered chats well-formed. */
  lemma {:induction false} PollEmitsLegal(s: ServerState, us: seq<Update>, now: int)
    requires HasWellFormedChats(s) && AllWellFormed(Fold(s, us).added)
    ensures HasWellFormedChats(Poll(s, us, now).state)
    ensures var t := Fold(s, us);
      && IsEmittable(Changes(t.interval, t.feedback, t.added, t.removal))
      && DistinctKeys(t.added)
      && (t.removal.Some? ==> t.removal.value in s.chats)
  {
    var t := Fold(s, us);
    EmittedSettingsAreLegal(s, us);
    AddedWereSaid(s, us);
    forall c | c in Poll(s, us, now).state.chats ensures 0 < c < 100_000_000_000 {
      PutAllLookup(t.chats, t.added, c);
      LookupIsMember(t.added, c);
    }
  }

  // ----- safety: any messages lost, repeated and reordered -----

  /** Everything sent so far stays deliverable: never delivering a message is loss, delivering it twice is
      duplication, delivering it late is reordering. */
  datatype Network = Network(server: ServerState, board: Settings, sent: seq<Changes>)

  datatype Event = PollEvent(updates: seq<Update>, now: int) | DeliverEvent(message: nat)

  function Next(n: Network, e: Event): Network {
    match e
    case PollEvent(us, now) =>
      var o := Poll(n.server, us, now);
      Network(o.state, n.board, if o.changes.Some? then n.sent + [o.changes.value] else n.sent)
    case DeliverEvent(k) =>
      if k < |n.sent| then n.(board := Deliver(n.board, Encode(n.sent[k]))) else n
  }

  function AfterEvents(n: Network, events: seq<Event>): Network {
    if events == [] then n else Next(AfterEvents(n, events[..|events| - 1]), events[|events| - 1])
  }

  /** The message this event delivers, if any. */
  function DeliveredBy(sent: seq<Changes>, e: Event): seq<Changes> {
    if e.DeliverEvent? && e.message < |sent| then [sent[e.message]] else []
  }

  /** The messages that were delivered, in order of delivery. */
  function Deliveries(n: Network, events: seq<Event>): seq<Changes> {
    if events == [] then []
    else
      var front, e := events[..|events| - 1], events[|events| - 1];
      Deliveries(n, front) + DeliveredBy(AfterEvents(n, front).sent, e)
  }

  function DeliverAll(b: Settings, messages: seq<Changes>): Settings {
    if messages == [] then b
    else Deliver(DeliverAll(b, messages[..|messages| - 1]), Encode(messages[|messages| - 1]))
  }

  lemma {:induction false} DeliverAllSnoc(b: Settings, messages: seq<Changes>, c: Changes)
    ensures DeliverAll(b, messages + [c]) == Deliver(DeliverAll(b, messages), Encode(c))
  {
    assert (messages + [c])[..|messages|] == messages;
  }

  lemma {:induction false} DeliverStep(n: Network, e: Event, start: Settings, messages: seq<Changes>)
    requires n.board == DeliverAll(start, messages)
    ensures Next(n, e).board == DeliverAll(start, messages + DeliveredBy(n.sent, e))
  {
    if e.DeliverEvent? && e.message < |n.sent| {
      DeliverAllSnoc(start, messages, n.sent[e.message]);
    } else {
      assert messages + [] == messages;
    }
  }

  /** The board is what the delivered messages made of it. */
  lemma {:induction false} BoardIsDelivered(n: Network, events: seq<Event>)
    ensures AfterEvents(n, events).board == DeliverAll(n.board, Deliveries(n, events))
  {
    if events != [] {
      var front, e := events[..|events| - 1], events[|events| - 1];
      BoardIsDelivered(n, front);
      DeliverStep(AfterEvents(n, front), e, n.board, Deliveries(n, front));
    }
  }

  /** Each delivered message was sent before, or was under way at the start. */
  lemma {:induction false} DeliveriesWereSent(n: Network, events: seq<Event>)
    ensures forall c :: c in Deliveries(n, events) ==> c in AfterEvents(n, events).sent
  {
    if events != [] {
      DeliveriesWereSent(n, events[..|events| - 1]);
    }
  }

  predicate AreLegal(messages: seq<Changes>) {
    forall c :: c in messages ==> HasLegalSettings(c)
  }

  /** Every message sent has settings in range. */
  lemma {:induction false} SentAreLegal(n: Network, events: seq<Event>)
    requires AreLegal(n.sent)
    ensures AreLegal(AfterEvents(n, events).sent)
  {
    if events != [] {
      var front, e := events[..|events| - 1], events[|events| - 1];
      SentAreLegal(n, front);
      if e.PollEvent? {
        EmittedSettingsAreLegal(AfterEvents(n, front).server, e.updates);
      }
    }
  }

  // ----- what any sequence of delivered messages keeps -----

  /** The names a message adds are read as names. */
  predicate AreClean(messages: seq<Changes>) {
    forall c :: c in messages ==> AllClean(c.added)
  }

  /** The ids of chats, as the board's field holds them. */
  function StoredId(id: int): string {
    Fit(Dec(id), CHAT_ID_LENGTH)
  }

  /** One of the messages adds a chat whose id the field holds as this one. */
  ghost predicate IsAdded(messages: seq<Changes>, id: string) {
    exists c, x :: c in messages && x in c.added && StoredId(x.id) == id
  }

  ghost predicate CarryInterval(messages: seq<Changes>, interval: int) {
    exists c :: c in messages && c.interval == Some(interval)
  }

  ghost predicate CarryFeedback(messages: seq<Changes>, feedback: bool) {
    exists c :: c in messages && c.feedback == Some(if feedback then "1" else "0")
  }

  /** The board's ids, settings and number of slots are those it started with, or come from the messages. */
  ghost predicate IsSafe(start: Settings, messages: seq<Changes>, b: Settings) {
    && (forall id :: id in Ids(b.table) ==> id in Ids(start.table) || IsAdded(messages, id))
    && |b.table| == |start.table|
    && (b.interval == start.interval || CarryInterval(messages, b.interval))
    && (b.feedback == start.feedback || CarryFeedback(messages, b.feedback))
  }

  lemma {:induction false} SetIdsWithin(t: seq<Slot>, name: string, id: string)
    ensures Ids(SetChat(t, name, id)) <= Ids(t) + {Fit(id, CHAT_ID_LENGTH)}
  {
    var u := SetChat(t, name, id);
    forall e | e in Entries(u) ensures e.id in Ids(t) + {Fit(id, CHAT_ID_LENGTH)} {
      var k :| 0 <= k < |u| && u[k] == e;
      assert e.id == Fit(id, CHAT_ID_LENGTH) || e.id == t[k].id;
      assert t[k].id != "" ==> t[k] in Entries(t);
    }
  }

  lemma {:induction false} RemoveIdsWithin(t: seq<Slot>, key: string)
    ensures Ids(RemoveChat(t, key)) <= Ids(t)
  {
    var u := RemoveChat(t, key);
    forall e | e in Entries(u) ensures e in Entries(t) {
      var k :| 0 <= k < |u| && u[k] == e;
      assert u[k] == t[k];
    }
  }

  lemma {:induction false} SetAllIdsWithin(t: seq<Slot>, chats: seq<Chat<int>>)
    ensures |SetAll(t, SlotsOf(chats))| == |t|
    ensures forall id :: id in Ids(SetAll(t, SlotsOf(chats))) ==>
      id in Ids(t) || exists x :: x in chats && StoredId(x.id) == id
    decreases |chats|
  {
    if chats != [] {
      var u := SetChat(t, chats[0].name, Dec(chats[0].id));
      SetIdsWithin(t, chats[0].name, Dec(chats[0].id));
      SetAllIdsWithin(u, chats[1..]);
      assert SlotsOf(chats)[1..] == SlotsOf(chats[1..]);
      assert forall x :: x in chats[1..] ==> x in chats;
      assert chats[0] in chats;
    }
  }

  /** One delivery, whatever the table looks like and whether or not the message fits. */
  lemma {:induction false} DeliverWithin(b: Settings, c: Changes)
    requires HasLegalSettings(c) && AllClean(c.added)
    ensures IsSafe(b, [c], Deliver(b, Encode(c)))
  {
    if |Encode(c)| < COAP_UPDATE_SIZE {
      DeliverEffect(b, c);
      var t := SetAll(b.table, SlotsOf(c.added));
      var after := Deliver(b, Encode(c));
      SetAllIdsWithin(b.table, c.added);
      if KeyOf(c.removal).Some? {
        RemoveIdsWithin(t, KeyOf(c.removal).value);
      }
      assert c in [c];
      assert after.interval == b.interval || c.interval == Some(after.interval);
      assert after.feedback == b.feedback || c.feedback == Some(if after.feedback then "1" else "0");
    }
  }

  lemma {:induction false} SafeStep(start: Settings, front: seq<Changes>, b: Settings, c: Changes, after: Settings)
    requires IsSafe(start, front, b) && IsSafe(b, [c], after)
    ensures IsSafe(start, front + [c], after)
  {
    var all := front + [c];
    assert forall d :: d in all <==> d in front || d == c;
    forall id | id in Ids(after.table) ensures id in Ids(start.table) || IsAdded(all, id) {
      if id in Ids(b.table) && IsAdded(front, id) {
        var d, x :| d in front && x in d.added && StoredId(x.id) == id;
        assert d in all;
      }
    }
  }

  lemma {:induction false} DeliveredAreSafe(b: Settings, messages: seq<Changes>)
    requires AreLegal(messages) && AreClean(messages)
    ensures IsSafe(b, messages, DeliverAll(b, messages))
  {
    if messages != [] {
      var front, c := messages[..|messages| - 1], messages[|messages| - 1];
      assert messages == front + [c];
      DeliveredAreSafe(b, front);
      DeliverWithin(DeliverAll(b, front), c);
      SafeStep(b, front, DeliverAll(b, front), c, DeliverAll(b, messages));
    }
  }

  /** Whatever is lost, repeated or reordered: if the names delivered are clean, everything on the board was there
      at the start or was carried by a message that was delivered to it. */
  lemma {:induction false} Safety(n: Network, events: seq<Event>)
    requires AreLegal(n.sent) && AreClean(Deliveries(n, events))
    ensures IsSafe(n.board, Deliveries(n, events), AfterEvents(n, events).board)
  {
    BoardIsDelivered(n, events);
    DeliveriesWereSent(n, events);
    SentAreLegal(n, events);
    DeliveredAreSafe(n.board, Deliveries(n, events));
  }

  // ----- where settings come from -----

  /** Some poll of the run saw a fresh message with the right password asking for this interval. */
  ghost predicate IntervalWasAsked(n: Network, events: seq<Event>, v: int) {
    events != [] &&
    var front, e := events[..|events| - 1], events[|events| - 1];
    || IntervalWasAsked(n, front, v)
    || (e.PollEvent? && exists u :: u in e.updates && IntervalRequest(AfterEvents(n, front).server, u) == Some(v))
  }

  ghost predicate FeedbackWasAsked(n: Network, events: seq<Event>, v: string) {
    events != [] &&
    var front, e := events[..|events| - 1], events[|events| - 1];
    || FeedbackWasAsked(n, front, v)
    || (e.PollEvent? && exists u :: u in e.updates && FeedbackRequest(AfterEvents(n, front).server, u) == Some(v))
  }

  lemma {:induction false} EmittedWasAsked(s: ServerState, us: seq<Update>)
    ensures Fold(s, us).interval.Some? ==> exists u :: u in us && IntervalRequest(s, u) == Fold(s, us).interval
    ensures Fold(s, us).feedback.Some? ==> exists u :: u in us && FeedbackRequest(s, u) == Fold(s, us).feedback
  {
    SettingsAreLast(s, us);
    LastSomeIsLast(NewIntervals(s, us));
    LastSomeIsLast(NewFeedbacks(s, us));
    if Fold(s, us).interval.Some? {
      var i :| IsLast(NewIntervals(s, us), i);
      assert us[i] in us;
    }
    if Fold(s, us).feedback.Some? {
      var i :| IsLast(NewFeedbacks(s, us), i);
      assert us[i] in us;
    }
  }

  /** Every setting that was ever sent was asked for with the password. */
  lemma {:induction false} SentWasAsked(n: Network, events: seq<Event>, c: Changes)
    requires n.sent == [] && c in AfterEvents(n, events).sent
    ensures c.interval.Some? ==> IntervalWasAsked(n, events, c.interval.value)
    ensures c.feedback.Some? ==> FeedbackWasAsked(n, events, c.feedback.value)
  {
    if events != [] {
      var front, e := events[..|events| - 1], events[|events| - 1];
      var before := AfterEvents(n, front);
      if c in before.sent {
        SentWasAsked(n, front, c);
      } else {
        EmittedWasAsked(before.server, e.updates);
      }
    }
  }

  /** Over every lossy run whose delivered names are clean, the board's settings are the initial ones or were
      asked for by a fresh message with the right password. */
  lemma {:induction false} BoardSettingsWereAsked(n: Network, events: seq<Event>)
    requires n.sent == [] && AreClean(Deliveries(n, events))
    ensures var b := AfterEvents(n, events).board;
      && (b.interval == n.board.interval || IntervalWasAsked(n, events, b.interval))
      && (b.feedback == n.board.feedback || FeedbackWasAsked(n, events, if b.feedback then "1" else "0"))
  {
    var b, delivered := AfterEvents(n, events).board, Deliveries(n, events);
    Safety(n, events);
    DeliveriesWereSent(n, events);
    if b.interval != n.board.interval {
      var c :| c in delivered && c.interval == Some(b.interval);
      SentWasAsked(n, events, c);
    }
    if b.feedback != n.board.feedback {
      var c :| c in delivered && c.feedback == Some(if b.feedback then "1" else "0");
      SentWasAsked(n, events, c);
    }
  }

  /** The argument of the sleep between two cycles. */
  function SleepMilliseconds(b: Settings): int {
    b.interval * 60000
  }

  /** With an initial interval in range, the sleep never leaves one minute to two hours, so it fits 32 bits. */
  lemma {:induction false} SleepIsBounded(n: Network, events: seq<Event>)
    requires n.sent == [] && AreClean(Deliveries(n, events))
    requires 1 <= n.board.interval <= 120
    ensures 60000 <= SleepMilliseconds(AfterEvents(n, events).board) <= 7200000 < 0x8000_0000
  {
    Safety(n, events);
    DeliveriesWereSent(n, events);
    SentAreLegal(n, events);
  }

  // ----- a lost add is lost for good -----

  /** No poll of the run holds a fresh "remove me" from the chat. */
  ghost predicate NeverLeaves(n: Network, events: seq<Event>, c: int) {
    events == [] ||
    var front, e := events[..|events| - 1], events[|events| - 1];
    && NeverLeaves(n, front, c)
    && (e.PollEvent? ==> !AskedToLeave(AfterEvents(n, front).server, e.updates, |e.updates|, c))
  }

  ghost predicate Adds(m: Changes, c: int) {
    exists x :: x in m.added && x.id == c
  }

  lemma {:induction false} NeverSentAgain(n: Network, events: seq<Event>, c: int)
    requires c in n.server.chats && NeverLeaves(n, events, c)
    ensures c in AfterEvents(n, events).server.chats
    ensures n.sent <= AfterEvents(n, events).sent
    ensures forall j :: |n.sent| <= j < |AfterEvents(n, events).sent| ==> !Adds(AfterEvents(n, events).sent[j], c)
  {
    if events != [] {
      var front, e := events[..|events| - 1], events[|events| - 1];
      var before := AfterEvents(n, front);
      NeverSentAgain(n, front, c);
      if e.PollEvent? {
        StaysUnemitted(before.server, e.updates, e.now, c);
        LookupIsMember(Fold(before.server, e.updates).added, c);
      }
    }
  }

  /** From here on, none of the messages sent before that adds the chat is delivered. */
  ghost predicate AddsAreLost(sent: seq<Changes>, events: seq<Event>, c: int) {
    forall e :: e in events && e.DeliverEvent? && e.message < |sent| ==> !Adds(sent[e.message], c)
  }

  lemma {:induction false} NeverDelivered(n: Network, events: seq<Event>, c: int)
    requires c in n.server.chats && NeverLeaves(n, events, c) && AddsAreLost(n.sent, events, c)
    ensures forall m :: m in Deliveries(n, events) ==> !Adds(m, c)
  {
    if events != [] {
      var front, e := events[..|events| - 1], events[|events| - 1];
      assert forall d :: d in front ==> d in events;
      NeverDelivered(n, front, c);
      NeverSentAgain(n, front, c);
      assert e in events;
    }
  }

  /** A registered chat whose adds are lost never reaches the board as long as it does not leave, whatever else is
      polled and delivered: it is never sent again. The ids delivered are those that fit the board's field. */
  lemma {:induction false} LostAddStaysLost(n: Network, events: seq<Event>, c: int)
    requires c in n.server.chats && NeverLeaves(n, events, c) && AddsAreLost(n.sent, events, c)
    requires AreLegal(n.sent) && AreClean(Deliveries(n, events))
    requires forall m, x :: m in Deliveries(n, events) && x in m.added ==> |Dec(x.id)| < CHAT_ID_LENGTH
    requires Dec(c) !in Ids(n.board.table)
    ensures Dec(c) !in Ids(AfterEvents(n, events).board.table)
  {
    Safety(n, events);
    NeverDelivered(n, events, c);
    if IsAdded(Deliveries(n, events), Dec(c)) {
      var m, x :| m in Deliveries(n, events) && x in m.added && StoredId(x.id) == Dec(c);
      DecIsInjective(x.id, c);
    }
  }
}
