/** The firmware's request side: choosing recipients, formatting and sending from a bounded buffer. */
module Client {
  import opened Text
  import opened CStrings
  import opened ChatTable
  import opened Requests
  import opened Board

  datatype SendResult = Sent(datagram: string) | ChatIdNotFound | PayloadError

  /** The recipients' ids: one chat by name, or every live id joined with commas. */
  function Recipients(t: seq<Slot>, recipient: string): Option<string> {
    if recipient == "all" then Some(Join(LiveIds(t), ',')) else IdByName(t, recipient)
  }

  /** The buffer behind a header of the packet library, and what is sent of it: as many bytes as the payload
      may have, counted from the start of the buffer. */
  function Datagram(header: string, form: string): string
    requires |header| + |form| <= COAP_BUF_SIZE
  {
    (header + form + Zeros(COAP_BUF_SIZE - |header| - |form|))[..COAP_BUF_SIZE - |header|]
  }

  function SendForm(header: string, form: string): SendResult
    requires |header| <= COAP_BUF_SIZE
  {
    if |form| >= COAP_BUF_SIZE - |header| then PayloadError else Sent(Datagram(header, form))
  }

  /** The message to everyone that the board sends with this table. */
  function SentToAll(t: seq<Slot>, url: string, token: string, message: string, header: string): SendResult
    requires |header| <= COAP_BUF_SIZE
  {
    SendForm(header, Fit(MessageForm(url, token, Join(LiveIds(t), ','), message), COAP_BUF_SIZE))
  }

  /** As many bytes as the buffer has behind the header: the header, the form, and zero bytes. */
  predicate IsLaidOut(header: string, form: string, datagram: string)
    requires |header| <= 448
  {
    && |datagram| == 448 - |header|
    && (forall i :: 0 <= i < |datagram| && i < |header| ==> datagram[i] == header[i])
    && (forall i :: |header| <= i < |datagram| && i < |header| + |form| ==> datagram[i] == form[i - |header|])
    && (forall i :: |header| + |form| <= i < |datagram| ==> datagram[i] == NUL)
  }

  /** When a form is sent and when it is refused, and each byte of what is sent. */
  lemma {:induction false} SentBytes(header: string, form: string)
    requires |header| <= COAP_BUF_SIZE
    ensures COAP_BUF_SIZE == 448
    ensures SendForm(header, form) == PayloadError <==> |header| + |form| >= 448
    ensures SendForm(header, form) != PayloadError ==>
      SendForm(header, form).Sent? && IsLaidOut(header, form, SendForm(header, form).datagram)
  {
  }

  /** To everyone means all live ids; a name means the first slot with it, and nothing is sent without one. */
  lemma {:induction false} RecipientsAre(t: seq<Slot>, recipient: string)
    ensures recipient == "all" ==> Recipients(t, recipient) == Some(Join(LiveIds(t), ','))
    ensures recipient != "all" ==>
      (Recipients(t, recipient) == None <==> forall k :: 0 <= k < |t| ==> t[k].name != recipient)
    ensures recipient != "all" ==> forall k: nat :: IsFirstNamed(t, recipient, k) ==>
      Recipients(t, recipient) == Some(t[k].id)
  {
    NameIsFirst(t, recipient);
  }

  class Sender {
    const config: Config
    const coapBuffer: array<char>
    var telegramUrl: string
    var botToken: string

    ghost predicate Valid()
      reads this, config, config.slots
    {
      && config.Valid() && coapBuffer.Length == COAP_BUF_SIZE
      && coapBuffer != config.response && coapBuffer != config.chatIdsStr
      && |telegramUrl| < URL_LENGTH && |botToken| < BOT_TOKEN_LENGTH
    }

    constructor (config: Config, url: string, token: string)
      requires config.Valid()
      ensures Valid() && this.config == config && fresh(coapBuffer)
      ensures telegramUrl == Fit(url, URL_LENGTH) && botToken == Fit(token, BOT_TOKEN_LENGTH)
    {
      this.config := config;
      coapBuffer := new char[COAP_BUF_SIZE](_ => NUL);
      telegramUrl, botToken := Fit(url, URL_LENGTH), Fit(token, BOT_TOKEN_LENGTH);
    }

    /** `coap_prepare_packet` and the send: the library has put its header in front, the form follows it. */
    method PrepareAndSend(header: string, form: string) returns (r: SendResult)
      requires Valid() && |header| <= COAP_BUF_SIZE
      modifies coapBuffer
      ensures Valid() && r == SendForm(header, form)
    {
      Fill(coapBuffer, header);
      var payloadLen := COAP_BUF_SIZE - |header|;
      if |form| >= payloadLen {
        return PayloadError;
      }
      forall i | 0 <= i < |form| {
        coapBuffer[|header| + i] := form[i];
      }
      coapBuffer[|header| + |form|] := NUL;
      assert coapBuffer[..] == header + form + Zeros(COAP_BUF_SIZE - |header| - |form|);
      assert coapBuffer[..payloadLen] == coapBuffer[..][..payloadLen];
      r := Sent(coapBuffer[..payloadLen]);
    }

    /** `coap_post_send`. */
    method PostSend(message: string, recipient: string, header: string) returns (r: SendResult)
      requires Valid() && |header| <= COAP_BUF_SIZE
      modifies coapBuffer, config.chatIdsStr
      ensures Valid()
      ensures var ids := Recipients(config.slots[..], recipient);
        r == if ids.None? then ChatIdNotFound
             else SendForm(header, Fit(MessageForm(telegramUrl, botToken, ids.value, message), COAP_BUF_SIZE))
    {
      var chatIds: string;
      if recipient != "all" {
        var found := config.GetChatIdByName(recipient);
        if found.None? {
          return ChatIdNotFound;
        }
        chatIds := found.value;
      } else {
        config.GetChatIdsString();
        chatIds := Read(config.chatIdsStr, 0);
      }
      r := PrepareAndSend(header, Fit(MessageForm(telegramUrl, botToken, chatIds, message), COAP_BUF_SIZE));
    }

    /** `coap_post_get_updates`. */
    method PostGetUpdates(header: string) returns (r: SendResult)
      requires Valid() && |header| <= COAP_BUF_SIZE
      modifies coapBuffer
      ensures Valid() && r == SendForm(header, Fit(UpdateForm(telegramUrl, botToken), COAP_BUF_SIZE))
    {
      r := PrepareAndSend(header, Fit(UpdateForm(telegramUrl, botToken), COAP_BUF_SIZE));
    }
  }

  // ----- the joined ids fit their buffer -----

  lemma {:induction false} LiveIdsAreBounded(t: seq<Slot>)
    requires Bounded(t)
    ensures |LiveIds(t)| <= |t|
    ensures forall i :: 0 <= i < |LiveIds(t)| ==> 0 < |LiveIds(t)[i]| < CHAT_ID_LENGTH
  {
    if t != [] {
      assert SlotFits(t[0]);
      assert forall k :: 0 <= k < |t[1..]| ==> t[1..][k] == t[k + 1];
      LiveIdsAreBounded(t[1..]);
    }
  }

  /** Wherever the holes are, the joined ids take at most 119 characters, so the 140-byte buffer is never
      exceeded; and splitting the join at its commas gives the live ids back in slot order. */
  lemma {:induction false} JoinedIds(t: seq<Slot>)
    requires Bounded(t) && |t| == MAX_CHAT_IDS
    ensures |Join(LiveIds(t), ',')| <= 119 < CHAT_IDS_STR_SIZE
    ensures LiveIds(t) != [] && AllFree(LiveIds(t), ',') ==> SplitOn(Join(LiveIds(t), ','), ',') == LiveIds(t)
  {
    LiveIdsAreBounded(t);
    JoinLength(LiveIds(t), ',');
    TotalLengthBound(LiveIds(t), 11);
    if LiveIds(t) != [] && AllFree(LiveIds(t), ',') {
      SplitOfJoin(LiveIds(t), ',');
    }
  }

  // ----- end to end -----

  /** What the server finds after the header of the datagram, when one is sent. */
  function BodyOf(header: string, r: SendResult): Option<string> {
    if r.Sent? && |header| <= |r.datagram| then Some(r.datagram[|header|..]) else None
  }

  function Received(header: string, form: string): Option<string>
    requires |header| <= COAP_BUF_SIZE
  {
    BodyOf(header, SendForm(header, Fit(form, COAP_BUF_SIZE)))
  }

  /** A form arrives whole when it fits with the header counted twice. */
  predicate Fits(header: string, form: string) {
    2 * |header| + |form| <= COAP_BUF_SIZE
  }

  /** The count of bytes sent leaves out the header's length, so the form arrives whole exactly when it fits
      with the header counted twice; what follows it then is zero bytes. */
  lemma {:induction false} ReceivedIsComplete(header: string, form: string)
    requires 0 < |header| <= COAP_BUF_SIZE
    ensures Received(header, form).Some? && form <= Received(header, form).value <==> Fits(header, form)
    ensures Fits(header, form) ==>
      Received(header, form) == Some(form + Zeros(COAP_BUF_SIZE - 2 * |header| - |form|))
  {
    if Fits(header, form) {
      assert Datagram(header, form)[|header|..] == form + Zeros(COAP_BUF_SIZE - 2 * |header| - |form|);
    }
  }

  /** Whatever the sizes: what the server finds is the form and zeros behind it, cut where the count of bytes sent
      ends, or nothing when the form is refused or the header alone fills that count. */
  lemma {:induction false} ReceivedExactly(header: string, form: string)
    requires 0 < |header| <= COAP_BUF_SIZE
    ensures Received(header, form) ==
      if |header| + |form| < 448 && 2 * |header| <= 448
      then Some((form + Zeros(448))[..448 - 2 * |header|]) else None
  {
    if |header| + |form| < 448 && 2 * |header| <= 448 {
      assert Datagram(header, form)[|header|..] == (form + Zeros(448))[..448 - 2 * |header|];
    }
  }

  /** What the server makes of the message the board sends to these ids. */
  function Delivered(header: string, url: string, token: string, ids: string, message: string): Option<Message>
    requires |header| <= COAP_BUF_SIZE
  {
    var body := Received(header, MessageForm(url, token, ids, message));
    if body.Some? then Some(ParseMessage(body.value)) else None
  }

  /** Settings and text that survive the form and its parser. */
  predicate AreCarried(url: string, token: string, message: string) {
    && IsTrimmed(url) && IsTrimmed(token) && IsSendable(message)
    && IsPlain(url) && IsPlain(token) && IsPlain(message)
  }

  /** A broadcast, end to end: whenever the form fits, the server reads exactly the live ids in slot order and
      the message, or finds no recipient when the table has none. */
  lemma {:induction false} BroadcastArrives(t: seq<Slot>, url: string, token: string, message: string, header: string)
    requires IsIdList(LiveIds(t)) && AreCarried(url, token, message) && header != ""
    requires Fits(header, MessageForm(url, token, Recipients(t, "all").value, message))
    ensures Delivered(header, url, token, Recipients(t, "all").value, message) ==
      Some(if LiveIds(t) == [] then MissingFields else Send(url, token, LiveIds(t), Without(message, '\n')))
  {
    var form := MessageForm(url, token, Join(LiveIds(t), ','), message);
    ReceivedIsComplete(header, form);
    PlainMessageArrives(url, token, LiveIds(t), message, Zeros(COAP_BUF_SIZE - 2 * |header| - |form|));
  }

  /** A message to one chat by its name, end to end: the server reads that chat's id alone. */
  lemma {:induction false} NamedMessageArrives(t: seq<Slot>, s: Slot, url: string, token: string, message: string,
                                               header: string)
    requires Bijective(t) && s in Entries(t) && s.name != "all" && IsId(s.id)
    requires AreCarried(url, token, message) && header != "" && Fits(header, MessageForm(url, token, s.id, message))
    ensures Recipients(t, s.name) == Some(s.id)
    ensures Delivered(header, url, token, s.id, message) == Some(Send(url, token, [s.id], Without(message, '\n')))
  {
    var form := MessageForm(url, token, s.id, message);
    LookupRefines(t, s.name);
    ReceivedIsComplete(header, form);
    PlainMessageArrives(url, token, [s.id], message, Zeros(COAP_BUF_SIZE - 2 * |header| - |form|));
  }

  /** With bounded settings, a header of at most 92 bytes and a message of the firmware's own size, every
      broadcast fits. */
  lemma {:induction false} BroadcastFits(t: seq<Slot>, url: string, token: string, message: string, header: string)
    requires Bounded(t) && |t| == MAX_CHAT_IDS && |header| <= 92
    requires |url| < URL_LENGTH && |token| < BOT_TOKEN_LENGTH && |message| < MESSAGE_DATA_LENGTH
    ensures Fits(header, MessageForm(url, token, Recipients(t, "all").value, message))
  {
    JoinedIds(t);
    FormFits(url, token, Join(LiveIds(t), ','), message);
  }

  /** The update request, end to end: when it fits, the server reads the url and the token if and only if they
      hold no form delimiter and no character that is filtered. */
  lemma {:induction false} UpdateRequestArrives(url: string, token: string, header: string)
    requires IsTrimmed(url) && IsTrimmed(token) && header != "" && Fits(header, UpdateForm(url, token))
    ensures Received(header, UpdateForm(url, token)).Some?
    ensures ParseUpdate(Received(header, UpdateForm(url, token)).value) == GetUpdates(url, token) <==>
      IsPlain(url) && IsPlain(token) && IsPrintable(url) && IsPrintable(token)
  {
    var form := UpdateForm(url, token);
    ReceivedIsComplete(header, form);
    UpdateArrives(url, token, Zeros(COAP_BUF_SIZE - 2 * |header| - |form|));
  }
}
