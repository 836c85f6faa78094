/** The server's compact message and what the board reads out of it. */
module Codec {
  import opened Text
  import opened Decimal
  import opened ChatTable
  import opened Commands
  import opened Dictionaries

  /** What one poll changed: the arguments of `_encode_message`. */
  datatype Changes = Changes(
    interval: Option<int>, feedback: Option<string>, added: seq<Chat<int>>, removal: Option<int>)

  function ChatTexts(chats: seq<Chat<int>>): seq<string> {
    if chats == [] then [] else [chats[0].name + ":" + Dec(chats[0].id)] + ChatTexts(chats[1..])
  }

  function IntervalPart(interval: Option<int>): seq<string> {
    if interval.Some? then ["i" + Dec(interval.value)] else []
  }

  function FeedbackPart(feedback: Option<string>): seq<string> {
    if feedback.Some? then ["f" + feedback.value] else []
  }

  /** An id of zero would be left out: Python tests the id's truth. */
  function RemovalPart(removal: Option<int>): seq<string> {
    if removal.Some? && removal.value != 0 then ["r" + Dec(removal.value)] else []
  }

  /** `_encode_message`: the chats are joined first, then everything is joined with the same separator. */
  function Encode(c: Changes): string {
    Join(
      IntervalPart(c.interval) + FeedbackPart(c.feedback) +
      (if c.added != [] then [Join(ChatTexts(c.added), ';')] else []) + RemovalPart(c.removal), ';')
  }

  // ----- what the message is meant to make the board do -----

  function AddCommands(chats: seq<Chat<int>>): seq<Command> {
    if chats == [] then [] else [AddChat(chats[0].name, Dec(chats[0].id))] + AddCommands(chats[1..])
  }

  function IntervalCommands(interval: Option<int>): seq<Command>
    requires interval.Some? ==> interval.value >= 0
  {
    if interval.Some? then [SetInterval(interval.value)] else []
  }

  function FeedbackCommands(feedback: Option<string>): seq<Command> {
    if feedback.Some? then [SetFeedback(feedback.value == "1")] else []
  }

  function RemovalCommands(removal: Option<int>): seq<Command> {
    if removal.Some? then [DropChat(Dec(removal.value))] else []
  }

  function Intended(c: Changes): seq<Command>
    requires HasLegalSettings(c)
  {
    IntervalCommands(c.interval) + FeedbackCommands(c.feedback) + AddCommands(c.added) + RemovalCommands(c.removal)
  }

  /** What every poll guarantees about its changes. */
  predicate HasLegalSettings(c: Changes) {
    (c.interval.Some? ==> 1 <= c.interval.value <= 120) &&
    (c.feedback.Some? ==> c.feedback.value == "0" || c.feedback.value == "1")
  }

  /** The id of a removal is that of a person: zero is not sent, and a negative one is no command. */
  predicate IsRemovable(removal: Option<int>) {
    removal.Some? ==> removal.value > 0
  }

  predicate IsEmittable(c: Changes) {
    HasLegalSettings(c) && IsRemovable(c.removal)
  }

  /** What the board reads out of the removal's piece. */
  function RemovalRead(removal: Option<int>): seq<Command> {
    if removal.None? || removal.value == 0 then []
    else if removal.value > 0 then [DropChat(Dec(removal.value))]
    else [Ignored]
  }

  /** What the board reads out of a message with clean names. */
  function AsRead(c: Changes): seq<Command>
    requires HasLegalSettings(c)
  {
    IntervalCommands(c.interval) + FeedbackCommands(c.feedback) + AddCommands(c.added) + RemovalRead(c.removal)
  }

  /** A name the board will not mistake for something else. */
  predicate IsCleanName(name: string) {
    ';' !in name && ':' !in name && NUL !in name && !IsReserved(name)
  }

  /** A clean name and an id that fit the board's fields. */
  predicate IsWellFormedChat(c: Chat<int>) {
    0 < |c.name| < CHAT_NAME_LENGTH && IsCleanName(c.name) && 0 < c.id < 100_000_000_000
  }

  predicate AllWellFormed(chats: seq<Chat<int>>) {
    forall i :: 0 <= i < |chats| ==> IsWellFormedChat(chats[i])
  }

  predicate AllClean(chats: seq<Chat<int>>) {
    forall i :: 0 <= i < |chats| ==> IsCleanName(chats[i].name)
  }

  // ----- the message as one list of pieces -----

  function Pieces(c: Changes): seq<string> {
    IntervalPart(c.interval) + FeedbackPart(c.feedback) + ChatTexts(c.added) + RemovalPart(c.removal)
  }

  lemma {:induction false} JoinNested(a: seq<string>, b: seq<string>, d: seq<string>, c: char)
    requires b != []
    ensures Join(a + [Join(b, c)] + d, c) == Join(a + b + d, c)
  {
    JoinNestedRight(b, d, c);
    if a != [] {
      assert a + [Join(b, c)] + d == a + ([Join(b, c)] + d);
      assert a + b + d == a + (b + d);
      JoinOfConcat(a, [Join(b, c)] + d, c);
      JoinOfConcat(a, b + d, c);
    } else {
      assert a + [Join(b, c)] + d == [Join(b, c)] + d;
      assert a + b + d == b + d;
    }
  }

  lemma {:induction false} JoinNestedRight(b: seq<string>, d: seq<string>, c: char)
    requires b != []
    ensures Join([Join(b, c)] + d, c) == Join(b + d, c)
  {
    if d == [] {
      assert [Join(b, c)] + d == [Join(b, c)] && b + d == b;
    } else {
      JoinOfConcat([Join(b, c)], d, c);
      JoinOfConcat(b, d, c);
    }
  }

  lemma {:induction false} EncodeIsJoin(c: Changes)
    ensures Encode(c) == Join(Pieces(c), ';')
  {
    if c.added != [] {
      JoinNested(IntervalPart(c.interval) + FeedbackPart(c.feedback), ChatTexts(c.added), RemovalPart(c.removal), ';');
    } else {
      assert ChatTexts(c.added) == [];
    }
  }

  // ----- each piece is one token and parses to its command -----

  predicate IsPiece(s: string) {
    s != "" && ';' !in s && NUL !in s
  }

  lemma {:induction false} DecIsPiece(n: int)
    ensures IsPiece(Dec(n)) && ':' !in Dec(n)
    ensures n >= 0 ==> AllDigits(Dec(n))
  {
    OfNatDigits(if n < 0 then -n else n);
  }

  lemma {:induction false} ChatTextsArePieces(chats: seq<Chat<int>>)
    requires AllClean(chats)
    ensures forall i :: 0 <= i < |ChatTexts(chats)| ==> IsPiece(ChatTexts(chats)[i])
    ensures ParseAll(ChatTexts(chats)) == AddCommands(chats)
  {
    if chats != [] {
      var name, id := chats[0].name, Dec(chats[0].id);
      DecIsPiece(chats[0].id);
      ChatTextsArePieces(chats[1..]);
      ChatTextParses(name, id);
    }
  }

  lemma {:induction false} ChatTextParses(name: string, id: string)
    requires IsCleanName(name) && IsPiece(id)
    ensures IsPiece(name + ":" + id) && ParseCommand(name + ":" + id) == AddChat(name, id)
  {
    var s := name + ":" + id;
    assert s[|name|] == ':';
    assert Find(s, ':') == |name|;
    assert s[..|name|] == name && s[|name| + 1..] == id;
    assert |name| == 1 ==> s[1] == ':';
    assert |name| >= 2 ==> s[0] == name[0] && s[1] == name[1];
  }

  lemma {:induction false} NumberParses(n: nat)
    ensures IsPiece("i" + Dec(n)) && ParseCommand("i" + Dec(n)) == SetInterval(n)
    ensures IsPiece("r" + Dec(n)) && ParseCommand("r" + Dec(n)) == DropChat(Dec(n))
  {
    DecIsPiece(n);
    AtoiOfDec(n);
    assert ("i" + Dec(n))[1..] == Dec(n) && ("r" + Dec(n))[1..] == Dec(n);
  }

  lemma {:induction false} FlagParses(f: string)
    requires f == "0" || f == "1"
    ensures IsPiece("f" + f) && ParseCommand("f" + f) == SetFeedback(f == "1")
  {
    AtoiOfDec(if f == "1" then 1 else 0);
    assert f == Dec(if f == "1" then 1 else 0);
    assert ("f" + f)[1..] == f;
  }

  lemma {:induction false} OptionalPartsParse(c: Changes)
    requires HasLegalSettings(c)
    ensures forall s :: s in IntervalPart(c.interval) + FeedbackPart(c.feedback) + RemovalPart(c.removal) ==> IsPiece(s)
    ensures ParseAll(IntervalPart(c.interval)) == IntervalCommands(c.interval)
    ensures ParseAll(FeedbackPart(c.feedback)) == FeedbackCommands(c.feedback)
    ensures ParseAll(RemovalPart(c.removal)) == RemovalRead(c.removal)
  {
    if c.interval.Some? {
      NumberParses(c.interval.value);
    }
    if c.feedback.Some? {
      FlagParses(c.feedback.value);
    }
    if c.removal.Some? {
      RemovalParses(c.removal.value);
    }
  }

  lemma {:induction false} RemovalParses(n: int)
    ensures n > 0 ==> IsPiece("r" + Dec(n)) && ParseCommand("r" + Dec(n)) == DropChat(Dec(n))
    ensures n < 0 ==> IsPiece("r" + Dec(n)) && ParseCommand("r" + Dec(n)) == Ignored
  {
    if n > 0 {
      NumberParses(n);
    } else if n < 0 {
      DecIsPiece(n);
      assert ("r" + Dec(n))[1] == '-';
      assert ':' !in "r" + Dec(n);
    }
  }

  lemma {:induction false} PiecesParse(c: Changes)
    requires HasLegalSettings(c) && AllClean(c.added)
    ensures forall s :: s in Pieces(c) ==> IsPiece(s)
    ensures ParseAll(Pieces(c)) == AsRead(c)
  {
    OptionalPartsParse(c);
    ChatTextsArePieces(c.added);
    ParseConcat(IntervalPart(c.interval), FeedbackPart(c.feedback));
    ParseConcat(IntervalPart(c.interval) + FeedbackPart(c.feedback), ChatTexts(c.added));
    ParseConcat(IntervalPart(c.interval) + FeedbackPart(c.feedback) + ChatTexts(c.added), RemovalPart(c.removal));
  }

  lemma {:induction false} FirstPieceLeads(c: Changes, i: nat)
    requires Pieces(c) != [] && i < |Pieces(c)[0]|
    ensures i < |Encode(c)| && Encode(c)[i] == Pieces(c)[0][i]
  {
    EncodeIsJoin(c);
  }

  lemma {:induction false} SettingsAreNoStatus(c: Changes)
    requires c.interval.Some? || c.feedback.Some?
    ensures !IsStatus(Encode(c))
  {
    assert Pieces(c)[0][0] == 'i' || Pieces(c)[0][0] == 'f';
    FirstPieceLeads(c, 0);
  }

  lemma {:induction false} ChatsAreNoStatus(c: Changes)
    requires c.interval.None? && c.feedback.None? && c.added != []
    ensures !IsStatus(Encode(c))
  {
    var name := c.added[0].name;
    assert Pieces(c)[0] == name + ":" + Dec(c.added[0].id);
    FirstPieceLeads(c, |name|);
    assert ':' in Encode(c);
    assert ':' !in MESSAGES_SENT && ':' !in NO_UPDATES;
  }

  lemma {:induction false} RemovalIsNoStatus(c: Changes)
    requires c.interval.None? && c.feedback.None? && c.added == []
    ensures !IsStatus(Encode(c))
  {
    EncodeIsJoin(c);
    if Pieces(c) != [] {
      assert Pieces(c)[0][0] == 'r';
      FirstPieceLeads(c, 0);
    }
  }

  /** No encoded message is mistaken for one of the two status answers. */
  lemma {:induction false} NotAStatus(c: Changes)
    requires HasLegalSettings(c)
    ensures !IsStatus(Encode(c))
    ensures Intended(c) == [] ==> Encode(c) == ""
  {
    if c.interval.Some? || c.feedback.Some? {
      SettingsAreNoStatus(c);
    } else if c.added != [] {
      ChatsAreNoStatus(c);
    } else {
      RemovalIsNoStatus(c);
      EncodeIsJoin(c);
    }
  }

  lemma {:induction false} CommandsOfClean(c: Changes)
    requires HasLegalSettings(c) && AllClean(c.added) && |Encode(c)| < COAP_UPDATE_SIZE
    ensures CommandsIn(Encode(c)) == AsRead(c)
  {
    NotAStatus(c);
    EncodeIsJoin(c);
    PiecesParse(c);
    var pieces := Pieces(c);
    assert forall i :: 0 <= i < |pieces| ==> pieces[i] in pieces && IsPiece(pieces[i]);
    TokensOfJoin(pieces, ';');
    JoinFree(pieces, ';', NUL);
    assert CString(Encode(c)) == Encode(c);
  }

  /** A chat command can only have come from a clean name. */
  lemma {:induction false} ParsedNamesAreClean(tokens: seq<string>, name: string, id: string)
    requires forall i :: 0 <= i < |tokens| ==> IsPiece(tokens[i])
    requires AddChat(name, id) in ParseAll(tokens)
    ensures IsCleanName(name)
  {
    if ParseCommand(tokens[0]) == AddChat(name, id) {
      var token := tokens[0];
      assert !IsReserved(token);
      assert forall i :: 0 <= i < |name| ==> name[i] == token[i];
    } else {
      ParsedNamesAreClean(tokens[1..], name, id);
    }
  }

  lemma {:induction false} AddCommandsHold(chats: seq<Chat<int>>, i: nat)
    requires i < |chats|
    ensures AddChat(chats[i].name, Dec(chats[i].id)) in AddCommands(chats)
  {
    if i > 0 {
      AddCommandsHold(chats[1..], i - 1);
    }
  }

  /** If the board executes the intended commands, every added name is clean. */
  lemma {:induction false} IntendedAreClean(c: Changes)
    requires HasLegalSettings(c) && |Encode(c)| < COAP_UPDATE_SIZE && CommandsIn(Encode(c)) == Intended(c)
    ensures AllClean(c.added)
  {
    NotAStatus(c);
    var text := CString(Encode(c));
    TokensAreFree(text, ';');
    forall i | 0 <= i < |c.added| ensures IsCleanName(c.added[i].name) {
      AddCommandsHold(c.added, i);
      assert AddChat(c.added[i].name, Dec(c.added[i].id)) in Intended(c);
      forall j | 0 <= j < |Tokens(text, ';')| ensures IsPiece(Tokens(text, ';')[j]) {
        if NUL in Tokens(text, ';')[j] { TokensAreWithin(text, ';', Tokens(text, ';')[j], NUL); }
      }
      ParsedNamesAreClean(Tokens(text, ';'), c.added[i].name, Dec(c.added[i].id));
    }
  }

  lemma {:induction false} ReadIsIntended(c: Changes)
    requires HasLegalSettings(c)
    ensures AsRead(c) == Intended(c) <==> IsRemovable(c.removal)
  {
    var front := IntervalCommands(c.interval) + FeedbackCommands(c.feedback) + AddCommands(c.added);
    assert AsRead(c) == front + RemovalRead(c.removal) && Intended(c) == front + RemovalCommands(c.removal);
    if !IsRemovable(c.removal) {
      assert Intended(c)[|front|] == DropChat(Dec(c.removal.value));
      assert c.removal.value != 0 ==> AsRead(c)[|front|] == Ignored;
    }
  }

  /** The codec round trip, and exactly when it holds: the board executes the intended commands, in order,
      if and only if every added name is clean, the message fits the response buffer, and a removal is that of a
      positive id. */
  lemma {:induction false} RoundTrip(c: Changes)
    requires HasLegalSettings(c)
    ensures CommandsIn(Encode(c)) == Intended(c) <==>
      AllClean(c.added) && |Encode(c)| < COAP_UPDATE_SIZE && IsRemovable(c.removal)
  {
    if |Encode(c)| < COAP_UPDATE_SIZE {
      ReadIsIntended(c);
      if AllClean(c.added) {
        CommandsOfClean(c);
      } else if CommandsIn(Encode(c)) == Intended(c) {
        IntendedAreClean(c);
      }
    } else {
      LongIsNotEmpty(c);
    }
  }

  /** A message that does not fit was meant to do something. */
  lemma {:induction false} LongIsNotEmpty(c: Changes)
    requires HasLegalSettings(c) && |Encode(c)| >= COAP_UPDATE_SIZE
    ensures Intended(c) != [] && CommandsIn(Encode(c)) == []
  {
    NotAStatus(c);
  }

  // ----- size -----

  lemma {:induction false} ChatTextsLength(chats: seq<Chat<int>>)
    requires AllWellFormed(chats)
    ensures |ChatTexts(chats)| == |chats| && TotalLength(ChatTexts(chats)) <= 26 * |chats|
  {
    if chats != [] {
      IdLength(chats[0].id);
      ChatTextsLength(chats[1..]);
    }
  }

  lemma {:induction false} IdLength(id: nat)
    requires id < 100_000_000_000
    ensures |Dec(id)| < CHAT_ID_LENGTH
  {
    assert Pow10(11) == 100_000_000_000 by {
      assert Pow10(3) == 1000;
      assert Pow10(7) == 10_000_000;
    }
    OfNatLength(id, 11);
  }

  lemma {:induction false} OptionalPartsLength(c: Changes)
    requires IsEmittable(c) && (c.removal.Some? ==> c.removal.value < 100_000_000_000)
    ensures |IntervalPart(c.interval)| <= 1 && TotalLength(IntervalPart(c.interval)) <= 4
    ensures |FeedbackPart(c.feedback)| <= 1 && TotalLength(FeedbackPart(c.feedback)) <= 2
    ensures |RemovalPart(c.removal)| <= 1 && TotalLength(RemovalPart(c.removal)) <= 12
  {
    if c.interval.Some? {
      OfNatLength(c.interval.value, 3);
      assert Pow10(3) == 1000;
    }
    if c.removal.Some? {
      IdLength(c.removal.value);
    }
  }

  lemma {:induction false} EncodedLengthIsSum(c: Changes)
    ensures |Encode(c)| ==
      TotalLength(IntervalPart(c.interval)) + TotalLength(FeedbackPart(c.feedback)) +
      TotalLength(ChatTexts(c.added)) + TotalLength(RemovalPart(c.removal)) +
      (if Pieces(c) == [] then 0 else |Pieces(c)| - 1)
  {
    EncodeIsJoin(c);
    JoinLength(Pieces(c), ';');
    TotalLengthOfConcat(IntervalPart(c.interval), FeedbackPart(c.feedback));
    TotalLengthOfConcat(IntervalPart(c.interval) + FeedbackPart(c.feedback), ChatTexts(c.added));
    TotalLengthOfConcat(
      IntervalPart(c.interval) + FeedbackPart(c.feedback) + ChatTexts(c.added), RemovalPart(c.removal));
  }

  /** A message with `n` well-formed chats has at most `20 + 27 * n` bytes: with ten it always fits. */
  lemma {:induction false} EncodedLength(c: Changes)
    requires IsEmittable(c) && AllWellFormed(c.added) && (c.removal.Some? ==> c.removal.value < 100_000_000_000)
    ensures |Encode(c)| <= 20 + 27 * |c.added|
    ensures |c.added| <= MAX_CHAT_IDS ==> |Encode(c)| <= 290 < COAP_UPDATE_SIZE
  {
    EncodedLengthIsSum(c);
    ChatTextsLength(c.added);
    OptionalPartsLength(c);
  }

  /** Distinct well-formed chats with the longest names and ids. There are 90 000 000 000 ids of eleven digits. */
  function LongestChats(n: nat): seq<Chat<int>> {
    if n == 0 then [] else [Chat(10_000_000_000 + n, "abcdefghijklmn")] + LongestChats(n - 1)
  }

  lemma {:induction false} LongestChatsAreWellFormed(n: nat)
    requires n < 90_000_000_000
    ensures AllWellFormed(LongestChats(n)) && |LongestChats(n)| == n && DistinctKeys(LongestChats(n))
    ensures forall i :: 0 <= i < n ==> LongestChats(n)[i].id <= 10_000_000_000 + n
  {
    if n > 0 {
      LongestName();
      LongestChatsAreWellFormed(n - 1);
    }
  }

  lemma {:induction false} LongestChatsLength(n: nat)
    requires n < 90_000_000_000
    ensures |ChatTexts(LongestChats(n))| == n && TotalLength(ChatTexts(LongestChats(n))) == 26 * n
  {
    if n > 0 {
      LongestId(10_000_000_000 + n);
      LongestName();
      LongestChatsLength(n - 1);
      var text := "abcdefghijklmn" + ":" + Dec(10_000_000_000 + n);
      assert |text| == 26 && ChatTexts(LongestChats(n)) == [text] + ChatTexts(LongestChats(n - 1));
    }
  }

  lemma {:induction false} LongestName()
    ensures |"abcdefghijklmn"| == 14 && IsCleanName("abcdefghijklmn")
  {
  }

  lemma {:induction false} LongestId(id: nat)
    requires 10_000_000_000 <= id < 100_000_000_000
    ensures |Dec(id)| == 11
  {
    assert Pow10(10) == 10_000_000_000 by {
      assert Pow10(3) == 1000;
      assert Pow10(7) == 10_000_000;
    }
    OfNatLength(id, 10);
    IdLength(id);
  }

  lemma {:induction false} LongestParts()
    ensures |IntervalPart(Some(120))| == 1 && TotalLength(IntervalPart(Some(120))) == 4
    ensures |FeedbackPart(Some("1"))| == 1 && TotalLength(FeedbackPart(Some("1"))) == 2
    ensures |RemovalPart(Some(10_000_000_000))| == 1 && TotalLength(RemovalPart(Some(10_000_000_000))) == 12
  {
    LongestId(10_000_000_000);
    OfNatLength(120, 2);
    OfNatLength(120, 3);
    assert Pow10(2) == 100 && Pow10(3) == 1000;
  }

  /** The bound is attained for every number of chats; only the number of ids limits it. */
  lemma {:induction false} LongestMessage(n: nat) returns (c: Changes)
    requires n < 90_000_000_000
    ensures IsEmittable(c) && AllWellFormed(c.added) && DistinctKeys(c.added) && |c.added| == n
    ensures |Encode(c)| == 20 + 27 * n
  {
    c := Changes(Some(120), Some("1"), LongestChats(n), Some(10_000_000_000));
    LongestChatsAreWellFormed(n);
    LongestChatsLength(n);
    LongestParts();
    EncodedLengthIsSum(c);
  }

  /** Nothing limits how many chats one poll adds: for every number from eleven on there is a message too large
      for the board, which then executes none of it. */
  lemma {:induction false} ElevenMayNotFit(n: nat) returns (c: Changes)
    requires 11 <= n < 90_000_000_000
    ensures IsEmittable(c) && AllWellFormed(c.added) && DistinctKeys(c.added) && |c.added| == n
    ensures Intended(c) != [] && CommandsIn(Encode(c)) == []
  {
    c := LongestMessage(n);
    NotAStatus(c);
  }

  // ----- the bytes -----

  /** The bytes of a message, piece by piece: the interval, the feedback, each chat, and a removal that is not zero,
      with semicolons between. */
  lemma {:induction false} WireFormat(c: Changes)
    ensures Encode(c) == Join(Pieces(c), ';') && |ChatTexts(c.added)| == |c.added|
    ensures Pieces(c) ==
      IntervalPart(c.interval) + FeedbackPart(c.feedback) + ChatTexts(c.added) + RemovalPart(c.removal)
    ensures c.interval.Some? ==> IntervalPart(c.interval) == ["i" + Dec(c.interval.value)]
    ensures c.feedback.Some? ==> FeedbackPart(c.feedback) == ["f" + c.feedback.value]
    ensures c.removal.Some? && c.removal.value != 0 ==> RemovalPart(c.removal) == ["r" + Dec(c.removal.value)]
    ensures c.interval.None? ==> IntervalPart(c.interval) == []
    ensures c.feedback.None? ==> FeedbackPart(c.feedback) == []
    ensures c.removal in {None, Some(0)} ==> RemovalPart(c.removal) == []
    ensures forall i :: 0 <= i < |c.added| ==> ChatTexts(c.added)[i] == c.added[i].name + ":" + Dec(c.added[i].id)
  {
    EncodeIsJoin(c);
    EachChatText(c.added);
  }

  lemma {:induction false} EachChatText(chats: seq<Chat<int>>)
    ensures |ChatTexts(chats)| == |chats|
    ensures forall i :: 0 <= i < |chats| ==> ChatTexts(chats)[i] == chats[i].name + ":" + Dec(chats[i].id)
  {
    if chats != [] {
      EachChatText(chats[1..]);
    }
  }
}
