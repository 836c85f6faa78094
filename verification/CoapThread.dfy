/** One cycle of the firmware's thread, on the objects themselves: the requests, the reply, and the sleep. */
module CoapThread {
  import opened Text
  import opened Decimal
  import opened ChatTable
  import opened Commands
  import opened Codec
  import opened Board
  import opened Requests
  import opened Client
  import opened UpdateServer
  import opened PollProperties
  import opened Replication
  import opened Lockstep
  import opened Broadcast

  /** The payload of a reply; the text of a server error depends on the exception and is a parameter. */
  function PayloadOf(reply: Reply, reason: string): string {
    match reply
    case Answered(payload) => payload
    case BadRequest => MISSING_FIELDS
    case FetchFailed => FETCH_FAILED
    case ServerError => ERROR_NAME + ":" + reason
  }

  /** One exchange: what the server received, if anything, is handled, and the board executes the reply. */
  function Exchange(y: System, request: Option<string>, fetched: Fetched, reason: string, now: int): System {
    if request.None? then y
    else
      var handled := Handle(y.server, request.value, fetched, now);
      System(handled.state, Deliver(y.board, PayloadOf(handled.reply, reason)))
  }

  /** What the outside contributes to a cycle: the headers of the two requests, what the server fetches, the text of
      an error, the clock, the temperature message, and whether the reply comes before that message is sent. */
  datatype Circumstances = Circumstances(
    updateHeader: string, fetched: Fetched, reason: string, now: int,
    messageHeader: string, temperature: string, replyComesFirst: bool)

  /** The exchange on the objects. */
  method RunExchange(server: UpdateResource, sender: Sender, request: SendResult, c: Circumstances)
    requires sender.Valid() && |c.updateHeader| <= COAP_BUF_SIZE
    modifies server
    modifies sender.config`interval, sender.config`feedback, sender.config.slots, sender.config.response
    ensures sender.Valid()
    ensures System(server.State(), sender.config.State()) ==
      Exchange(old(System(server.State(), sender.config.State())), BodyOf(c.updateHeader, request), c.fetched, c.reason,
               c.now)
  {
    if request.Sent? && |c.updateHeader| <= |request.datagram| {
      var reply := server.RenderPost(request.datagram[|c.updateHeader|..], c.fetched, c.now);
      sender.config.ConfigControl(PayloadOf(reply, c.reason));
    }
  }

  /** One cycle: the update request is sent and handled and its reply executed; the temperature goes to everyone on
      the board, before or after the reply; the thread sleeps for the interval then set. */
  method RunCycle(sender: Sender, server: UpdateResource, c: Circumstances) returns (sent: SendResult, sleepMs: int)
    requires sender.Valid() && |c.updateHeader| <= COAP_BUF_SIZE && |c.messageHeader| <= COAP_BUF_SIZE
    modifies server, sender.coapBuffer, sender.config.chatIdsStr
    modifies sender.config`interval, sender.config`feedback, sender.config.slots, sender.config.response
    ensures sender.Valid()
    ensures System(server.State(), sender.config.State()) ==
      Exchange(old(System(server.State(), sender.config.State())),
               Received(c.updateHeader, UpdateForm(sender.telegramUrl, sender.botToken)), c.fetched, c.reason, c.now)
    ensures sent ==
      SentToAll(if c.replyComesFirst then sender.config.slots[..] else old(sender.config.slots[..]),
                sender.telegramUrl, sender.botToken, c.temperature, c.messageHeader)
    ensures sleepMs == sender.config.interval * 60000
  {
    var request := sender.PostGetUpdates(c.updateHeader);
    if c.replyComesFirst {
      RunExchange(server, sender, request, c);
      sent := sender.PostSend(c.temperature, "all", c.messageHeader);
    } else {
      sent := sender.PostSend(c.temperature, "all", c.messageHeader);
      RunExchange(server, sender, request, c);
    }
    sleepMs := sender.config.interval * 60000;
  }

  /** When the request fits and its url and token survive the parser, the exchange is one cycle of the modelled
      system if the updates could be fetched, and changes nothing if they could not. */
  lemma {:induction false} ExchangeIsCycle(y: System, url: string, token: string, header: string, fetched: Fetched,
                                           reason: string, now: int)
    requires IsTrimmed(url) && IsTrimmed(token) && IsPlain(url) && IsPlain(token)
    requires IsPrintable(url) && IsPrintable(token)
    requires header != "" && Fits(header, UpdateForm(url, token))
    requires fetched.Listed? ==> !fetched.broken
    ensures Exchange(y, Received(header, UpdateForm(url, token)), fetched, reason, now) ==
      if fetched.Listed? then Cycle(y, fetched.updates, now) else y
  {
    UpdateRequestArrives(url, token, header);
    AnsweredIsCycle(y, Received(header, UpdateForm(url, token)).value, fetched, reason, now);
  }

  lemma {:induction false} AnsweredIsCycle(y: System, body: string, fetched: Fetched, reason: string, now: int)
    requires ParseUpdate(body).GetUpdates? && (fetched.Listed? ==> !fetched.broken)
    ensures Exchange(y, Some(body), fetched, reason, now) ==
      if fetched.Listed? then Cycle(y, fetched.updates, now) else y
  {
    if fetched.Failed? {
      FailedIsIdle(y, body, reason, now);
    }
  }

  lemma {:induction false} FailedIsIdle(y: System, body: string, reason: string, now: int)
    requires ParseUpdate(body).GetUpdates?
    ensures Exchange(y, Some(body), Failed, reason, now) == y
  {
    assert Handle(y.server, body, Failed, now) == Handled(y.server, FetchFailed);
    RefusalIsHarmless(y.board);
  }

  /** A broken list loses removals: every chat that asked to leave before the break is gone from the server, nothing
      else has changed there, and no later poll sends its removal while it stays away. */
  lemma {:induction false} BrokenListLosesRemovals(y: System, body: string, us: seq<Update>, reason: string, now: int,
                                                   later: seq<Update>)
    requires ParseUpdate(body).GetUpdates?
    ensures var next := Exchange(y, Some(body), Listed(us, true), reason, now);
      && next.server == y.server.(chats := next.server.chats)
      && (forall c :: c in next.server.chats <==> c in y.server.chats && !AskedToLeave(y.server, us, |us|, c))
      && (forall c :: AskedToLeave(y.server, us, |us|, c) ==> Fold(next.server, later).removal != Some(c))
  {
    var next := Exchange(y, Some(body), Listed(us, true), reason, now);
    assert Handle(y.server, body, Listed(us, true), now) ==
      Handled(y.server.(chats := Fold(y.server, us).chats), ServerError);
    ChatsAfterFold(y.server, us);
    forall c | AskedToLeave(y.server, us, |us|, c) ensures Fold(next.server, later).removal != Some(c) {
      NotRemoved(next.server, later, c);
    }
  }

  /** Any other request changes nothing, unless it cannot be parsed: then the server keeps its state and the board
      takes the error text for commands. */
  lemma {:induction false} OtherExchanges(y: System, request: Option<string>, fetched: Fetched, reason: string,
                                          now: int)
    requires request.Some? ==> !ParseUpdate(request.value).GetUpdates?
    ensures var next := Exchange(y, request, fetched, reason, now);
      next.server == y.server &&
      (next.board == y.board || (request.Some? && ParseUpdate(request.value).MalformedUpdate?))
  {
    RefusalIsHarmless(y.board);
  }

  /** The bytes of each reply that is not an answer. */
  lemma {:induction false} RepliesAre(s: ServerState, body: string, fetched: Fetched, reason: string, now: int)
    ensures var r := Handle(s, body, fetched, now).reply;
      && (ParseUpdate(body).MissingUpdateFields? ==> PayloadOf(r, reason) == "Missing required fields")
      && (ParseUpdate(body).GetUpdates? && fetched == Failed ==> PayloadOf(r, reason) == "Failed to fetch updates")
      && (ParseUpdate(body).MalformedUpdate? || (ParseUpdate(body).GetUpdates? && fetched.Listed? && fetched.broken) ==>
            PayloadOf(r, reason) == "Internal server error" + ":" + reason)
  {
  }

  /** Whom the temperature of a cycle reaches: what the thread sends for a table is what the server reads as the
      broadcast of that table, so it reaches every registered chat exactly when that board is covered, and the
      registered chats alone, each once, exactly when it is in sync. */
  lemma {:induction false} TemperatureReaches(y: System, url: string, token: string, message: string, header: string)
    requires IsHealthy(y) && IsIdList(LiveIds(y.board.table))
    requires CanBroadcast(y.board.table, url, token, message, header)
    ensures var body := BodyOf(header, SentToAll(y.board.table, url, token, message, header));
            body.Some? && ParseMessage(body.value).Send? == (LiveIds(y.board.table) != []) &&
            var reached := Reached(Some(ParseMessage(body.value)));
      && ((forall c :: c in y.server.chats ==> Dec(c) in reached) <==> IsCovered(y))
      && (|reached| == |y.server.chats| && (forall id :: id in reached <==> id in ChatIds(y.server)) <==> InSync(y))
  {
    BroadcastArrives(y.board.table, url, token, message, header);
    BroadcastReaches(y, url, token, message, header);
  }

  /** The answer to a poll that changes nothing, and the message of one that changes something. */
  lemma {:induction false} AnswersAre(s: ServerState, us: seq<Update>, now: int)
    ensures var t := Fold(s, us);
      Answer(Poll(s, us, now).changes) ==
        if t.interval == None && t.feedback == None && t.added == [] && t.removal == None then "No Updates"
        else Encode(Changes(t.interval, t.feedback, t.added, t.removal))
  {
  }

  /** The sizes of the firmware's fields and buffers. */
  lemma {:induction false} Sizes()
    ensures MAX_CHAT_IDS == 10 && CHAT_ID_LENGTH == 12 && CHAT_NAME_LENGTH == 15
    ensures CHAT_IDS_COPY_SIZE == 130 && CHAT_IDS_STR_SIZE == 140 && COAP_UPDATE_SIZE == 303 && COAP_BUF_SIZE == 448
    ensures URL_LENGTH == 30 && BOT_TOKEN_LENGTH == 50 && MESSAGE_DATA_LENGTH == 40
  {
  }
}
