/** How a board drifts from the server: concrete cycles at which the lockstep properties are lost. */
module Drift {
  import opened Text
  import opened Decimal
  import opened PythonText
  import opened ChatTable
  import opened Commands
  import opened Delivery
  import opened Codec
  import opened Dictionaries
  import opened UpdateServer
  import opened PollProperties
  import opened PollRuns
  import opened Replication
  import opened Lockstep
  import opened Mirror

  // ----- two updates, step by step -----

  function Said(text: string, c: Chat<int>, lastUpdate: int): Update {
    Update(text, c.id, c.name, if lastUpdate < 0 then 1 else lastUpdate + 1)
  }

  lemma {:induction false} FoldOfTwo(s: ServerState, a: Update, b: Update)
    ensures Fold(s, [a, b]) == Step(s, Step(s, Tally(s.chats, None, None, [], None), a), b)
  {
    assert [a, b][..1] == [a] && [a][..0] == [];
    assert Fold(s, [a]) == Step(s, Fold(s, []), a);
  }

  lemma {:induction false} RemoveMeLeaves(s: ServerState, t: Tally, c: Chat<int>)
    requires c.id in t.chats
    ensures IsRemoval(s, Said("remove me", c, s.lastUpdate))
    ensures Step(s, t, Said("remove me", c, s.lastUpdate)) == t.(chats := t.chats - {c.id}, removal := Some(c.id))
  {
    StripIsIdentity("remove me");
    assert Lower("remove me") == "remove me";
  }

  lemma {:induction false} HiJoins(s: ServerState, t: Tally, c: Chat<int>)
    requires c.id != 0 && c.name != "" && c.id !in t.chats
    ensures Registers(s, Said("hi", c, s.lastUpdate))
    ensures Step(s, t, Said("hi", c, s.lastUpdate)) == t.(added := Put(t.added, c))
  {
    StripIsIdentity("hi");
    assert Lower("hi")[0] == 'h' && "config "[0] == 'c' && "remove me"[0] == 'r';
  }

  // ----- the boards they start from -----

  /** A server with these chats, and a board with the same chats in its first slots. */
  function Start(lastUpdate: int, chats: map<int, string>, slots: seq<Slot>): System
    requires |slots| <= MAX_CHAT_IDS
  {
    System(ServerState("secret", lastUpdate, chats, 2, None),
           Settings(2, false, slots + seq(MAX_CHAT_IDS - |slots|, _ => HOLE)))
  }

  lemma {:induction false} StartTable(slots: seq<Slot>)
    requires |slots| <= MAX_CHAT_IDS && DistinctIds(slots)
    requires forall i :: 0 <= i < |slots| ==> WellSized(slots[i].name, slots[i].id)
    requires forall i, j :: 0 <= i < j < |slots| ==> slots[i].name != slots[j].name
    ensures var t := slots + seq(MAX_CHAT_IDS - |slots|, _ => HOLE);
      IsSound(t) && |t| == MAX_CHAT_IDS && Entries(t) == SlotSet(slots)
  {
    var t := slots + seq(MAX_CHAT_IDS - |slots|, _ => HOLE);
    forall e | e in Entries(t) ensures e in slots {
      var k :| 0 <= k < |t| && t[k] == e;
    }
    forall e | e in slots ensures e in Entries(t) {
      var k :| 0 <= k < |slots| && slots[k] == e;
      assert t[k] == e;
    }
  }

  const ANN := Chat(5, "Ann")
  const BOB := Chat(6, "Bob")

  function AnnAlone(lastUpdate: int): System {
    Start(lastUpdate, map[5 := "Ann"], [Slot("Ann", "5")])
  }

  lemma {:induction false} AnnIsMirrored(lastUpdate: int)
    ensures var y := AnnAlone(lastUpdate);
      IsHealthy(y) && InSync(y) && IsMirrored(y) && Entries(y.board.table) == {Slot("Ann", "5")}
  {
    var y := AnnAlone(lastUpdate);
    StartTable([Slot("Ann", "5")]);
    assert Dec(5) == "5";
    assert SlotSet([Slot("Ann", "5")]) == {Slot("Ann", "5")};
    assert ChatSlots(y.server) == {Slot("Ann", "5")};
    MirrorInSync(y);
  }

  // ----- a chat that comes back -----

  lemma {:induction false} ReturnFold(lastUpdate: int)
    ensures var s := AnnAlone(lastUpdate).server;
      Fold(s, [Said("remove me", ANN, lastUpdate), Said("hi", ANN, lastUpdate)]) ==
      Tally(map[], None, None, [ANN], Some(5))
  {
    var s := AnnAlone(lastUpdate).server;
    FoldOfTwo(s, Said("remove me", ANN, lastUpdate), Said("hi", ANN, lastUpdate));
    RemoveMeLeaves(s, Tally(s.chats, None, None, [], None), ANN);
    HiJoins(s, Tally(map[], None, None, [], Some(5)), ANN);
    assert map[5 := "Ann"] - {5} == map[];
  }

  lemma {:induction false} ReturnIsOrderly(y: System, us: seq<Update>)
    requires Entries(y.board.table) == {Slot("Ann", "5")} && |y.board.table| == MAX_CHAT_IDS
    requires Fold(y.server, us) == Tally(map[], None, None, [ANN], Some(5))
    ensures IsOrderlyCycle(y, us) && AddedSlots(y.server, us) == [Slot("Ann", "5")]
    ensures KeyOf(Fold(y.server, us).removal) == Some("5")
  {
    assert Dec(5) == "5";
    assert SlotsOf([ANN]) == [Slot("Ann", "5")];
    assert SlotSet([Slot("Ann", "5")]) == {Slot("Ann", "5")};
    assert Ids(y.board.table) == {"5"};
    assert AddedIds(y.server, us) == {"5"};
  }

  /** Whoever leaves and speaks again in the same poll ends up on the server and off the board, although the
      board mirrored the server before. */
  lemma {:induction false} ReturnIsLost(lastUpdate: int, now: int) returns (y: System, us: seq<Update>)
    ensures IsHealthy(y) && InSync(y) && IsMirrored(y) && IsOrderlyCycle(y, us)
    ensures var next := Cycle(y, us, now);
      5 in next.server.chats && Ids(next.board.table) == {} && !IsCovered(next) && !LastDepartureIsClean(y.server, us)
  {
    y := AnnAlone(lastUpdate);
    us := [Said("remove me", ANN, lastUpdate), Said("hi", ANN, lastUpdate)];
    AnnIsMirrored(lastUpdate);
    ReturnFold(lastUpdate);
    ReturnIsOrderly(y, us);
    CycleConserves(y, us, now);
    var next := Cycle(y, us, now);
    assert RemovedIds(y.server, us) == {"5"} && Ids(y.board.table) == {"5"};
    assert next.server.chats == PutAll(map[], [ANN]) == map[5 := "Ann"];
    assert Dec(5) in ChatIds(next.server);
    CoverageKept(y, us, now);
  }

  // ----- two chats that leave -----

  function AnnAndBob(lastUpdate: int): System {
    Start(lastUpdate, map[5 := "Ann", 6 := "Bob"], [Slot("Ann", "5"), Slot("Bob", "6")])
  }

  lemma {:induction false} BothAreMirrored(lastUpdate: int)
    ensures var y := AnnAndBob(lastUpdate);
      IsHealthy(y) && InSync(y) && Entries(y.board.table) == {Slot("Ann", "5"), Slot("Bob", "6")}
  {
    var y, slots := AnnAndBob(lastUpdate), [Slot("Ann", "5"), Slot("Bob", "6")];
    assert "Ann"[0] == 'A' && "Bob"[0] == 'B';
    StartTable(slots);
    assert Dec(5) == "5" && Dec(6) == "6";
    assert SlotSet(slots) == {Slot("Ann", "5"), Slot("Bob", "6")};
    assert ChatSlots(y.server) == {Slot("Ann", "5"), Slot("Bob", "6")};
    MirrorInSync(y);
  }

  lemma {:induction false} LeaveFold(lastUpdate: int)
    ensures var s := AnnAndBob(lastUpdate).server;
      Fold(s, [Said("remove me", ANN, lastUpdate), Said("remove me", BOB, lastUpdate)]) ==
      Tally(map[], None, None, [], Some(6))
  {
    var s := AnnAndBob(lastUpdate).server;
    FoldOfTwo(s, Said("remove me", ANN, lastUpdate), Said("remove me", BOB, lastUpdate));
    RemoveMeLeaves(s, Tally(s.chats, None, None, [], None), ANN);
    assert s.chats - {5} == map[6 := "Bob"];
    RemoveMeLeaves(s, Tally(map[6 := "Bob"], None, None, [], Some(5)), BOB);
    assert map[6 := "Bob"] - {6} == map[];
  }

  /** When two chats leave in one poll the first of them stays on the board, although the poll is clean enough
      to keep every registered chat there. */
  lemma {:induction false} FirstOfTwoRemovalsIsLost(lastUpdate: int, now: int) returns (y: System, us: seq<Update>)
    ensures IsHealthy(y) && InSync(y) && IsOrderlyCycle(y, us) && LastDepartureIsClean(y.server, us)
    ensures var next := Cycle(y, us, now);
      next.server.chats == map[] && Ids(next.board.table) == {"5"} && !InSync(next) && !RemovalsAreClean(y.server, us)
  {
    y := AnnAndBob(lastUpdate);
    us := [Said("remove me", ANN, lastUpdate), Said("remove me", BOB, lastUpdate)];
    BothAreMirrored(lastUpdate);
    LeaveFold(lastUpdate);
    LeaveIsOrderly(y, us);
    AfterLeave(y, us, now);
    SyncKept(y, us, now);
    CoverageKept(y, us, now);
  }

  lemma {:induction false} AfterLeave(y: System, us: seq<Update>, now: int)
    requires IsHealthy(y) && IsOrderlyCycle(y, us)
    requires Fold(y.server, us) == Tally(map[], None, None, [], Some(6))
    requires Ids(y.board.table) == {"5", "6"} && Dec(6) == "6"
    ensures var next := Cycle(y, us, now);
      next.server.chats == map[] && Ids(next.board.table) == {"5"} && IsCovered(next) && !InSync(next)
  {
    var next := Cycle(y, us, now);
    CycleConserves(y, us, now);
    assert RemovedIds(y.server, us) == {"6"} && AddedIds(y.server, us) == {};
    assert next.server.chats == PutAll(map[], []) == map[];
    assert "5" in Ids(next.board.table) && ChatIds(next.server) == {};
  }

  lemma {:induction false} LeaveIsOrderly(y: System, us: seq<Update>)
    requires Entries(y.board.table) == {Slot("Ann", "5"), Slot("Bob", "6")} && |y.board.table| == MAX_CHAT_IDS
    requires Fold(y.server, us) == Tally(map[], None, None, [], Some(6))
    ensures IsOrderlyCycle(y, us) && Ids(y.board.table) == {"5", "6"} && Dec(6) == "6"
  {
    var slots := AddedSlots(y.server, us);
    assert Dec(6) == "6" && slots == [];
    assert Entries(y.board.table) + SlotSet(slots) == {Slot("Ann", "5"), Slot("Bob", "6")};
    NamesDiffer();
    TwoIds(y.board.table);
    assert Ids(y.board.table) + AddedIds(y.server, us) == {"5", "6"};
  }

  lemma {:induction false} NamesDiffer()
    ensures "Ann" != "Bob" && "Ann" != "6" && "Bob" != "6"
  {
    assert "Ann"[0] == 'A' && "Bob"[0] == 'B';
  }

  lemma {:induction false} TwoIds(t: seq<Slot>)
    requires Entries(t) == {Slot("Ann", "5"), Slot("Bob", "6")}
    ensures Ids(t) == {"5", "6"}
  {
  }

  // ----- more chats than a message can carry -----

  function Hellos(chats: seq<Chat<int>>, lastUpdate: int): seq<Update> {
    seq(|chats|, i requires 0 <= i < |chats| => Said("hi", chats[i], lastUpdate))
  }

  /** Nothing limits how many chats a poll adds: any list of new chats that say hello is added whole. */
  lemma {:induction false} HellosAreAdded(s: ServerState, chats: seq<Chat<int>>)
    requires s.chats == map[] && DistinctKeys(chats)
    requires forall i :: 0 <= i < |chats| ==> chats[i].id != 0 && chats[i].name != ""
    ensures Fold(s, Hellos(chats, s.lastUpdate)) == Tally(map[], None, None, chats, None)
  {
    if chats != [] {
      var front, c := chats[..|chats| - 1], chats[|chats| - 1];
      var us := Hellos(chats, s.lastUpdate);
      HellosAreAdded(s, front);
      assert us[..|us| - 1] == Hellos(front, s.lastUpdate);
      HiJoins(s, Tally(map[], None, None, front, None), c);
      PutNew(front, c);
      assert front + [c] == chats;
    }
  }

  /** A fresh message of the chat that was added first, with a setting for the server. */
  function Setting(s: ServerState, c: Chat<int>, name: string, value: string): Update {
    Said("config " + s.password + " " + name + " " + value, c, s.lastUpdate)
  }

  lemma {:induction false} SettingJoins(s: ServerState, t: Tally, c: Chat<int>, name: string, value: string)
    requires ' ' !in s.password && ' ' !in name && value != "" && !IsSpace(value[|value| - 1])
    requires t.chats == map[] && t.added != [] && t.added[0] == c
    ensures var u := Setting(s, c, name, value);
      Step(s, t, u) == t.(interval := Or(NewInterval(s, u), t.interval), feedback := Or(NewFeedback(s, u), t.feedback))
  {
    var u := Setting(s, c, name, value);
    ConfigIsRead(s.password, name, value);
    if IsRemoval(s, u) {
      RemovalIsNoConfig(s, u);
    }
    assert Put(t.added, c) == t.added;
  }

  /** A hello from each chat, and then two settings from the first one. */
  function CrowdUpdates(s: ServerState, chats: seq<Chat<int>>): seq<Update>
    requires chats != []
  {
    Hellos(chats, s.lastUpdate) + [Setting(s, chats[0], "interval", "120")] + [Setting(s, chats[0], "feedback", "1")]
  }

  lemma {:induction false} IntervalSetting(s: ServerState, c: Chat<int>)
    requires ' ' !in s.password && s.interval == 2
    ensures NewInterval(s, Setting(s, c, "interval", "120")) == Some(120)
    ensures NewFeedback(s, Setting(s, c, "interval", "120")) == None
  {
    assert Dec(120) == "120";
    IntervalIsRead(s, Setting(s, c, "interval", "120"), 120);
    ConfigIsRead(s.password, "interval", "120");
    assert "interval"[0] == 'i' && "feedback"[0] == 'f';
  }

  lemma {:induction false} FeedbackSetting(s: ServerState, c: Chat<int>)
    requires ' ' !in s.password && s.feedback == None
    ensures NewInterval(s, Setting(s, c, "feedback", "1")) == None
    ensures NewFeedback(s, Setting(s, c, "feedback", "1")) == Some("1")
  {
    FeedbackIsRead(s, Setting(s, c, "feedback", "1"), "1");
    ConfigIsRead(s.password, "feedback", "1");
    assert "interval"[0] == 'i' && "feedback"[0] == 'f';
  }

  lemma {:induction false} FoldSnoc(s: ServerState, us: seq<Update>, u: Update)
    ensures Fold(s, us + [u]) == Step(s, Fold(s, us), u)
  {
    assert (us + [u])[..|us|] == us;
  }

  ghost predicate AreNew(s: ServerState, chats: seq<Chat<int>>) {
    && s.chats == map[] && chats != [] && DistinctKeys(chats)
    && forall i :: 0 <= i < |chats| ==> chats[i].id != 0 && chats[i].name != ""
  }

  lemma {:induction false} CrowdInterval(s: ServerState, chats: seq<Chat<int>>)
    requires ' ' !in s.password && s.interval == 2 && AreNew(s, chats)
    ensures Fold(s, Hellos(chats, s.lastUpdate) + [Setting(s, chats[0], "interval", "120")]) ==
      Tally(map[], Some(120), None, chats, None)
  {
    var u := Setting(s, chats[0], "interval", "120");
    HellosAreAdded(s, chats);
    FoldSnoc(s, Hellos(chats, s.lastUpdate), u);
    IntervalSetting(s, chats[0]);
    SettingJoins(s, Tally(map[], None, None, chats, None), chats[0], "interval", "120");
  }

  lemma {:induction false} CrowdFold(s: ServerState, chats: seq<Chat<int>>)
    requires ' ' !in s.password && s.interval == 2 && s.feedback == None && AreNew(s, chats)
    ensures Fold(s, CrowdUpdates(s, chats)) == Tally(map[], Some(120), Some("1"), chats, None)
  {
    var u := Setting(s, chats[0], "feedback", "1");
    CrowdInterval(s, chats);
    FoldSnoc(s, Hellos(chats, s.lastUpdate) + [Setting(s, chats[0], "interval", "120")], u);
    FeedbackSetting(s, chats[0]);
    SettingJoins(s, Tally(map[], Some(120), None, chats, None), chats[0], "feedback", "1");
  }

  /** For every number of chats from eleven on, and every board next to a fresh server: one poll registers them all
      and takes two settings, its answer does not fit, and the board stays as it was. */
  lemma {:induction false} CrowdIsLost(s: ServerState, b: Settings, n: nat, now: int) returns (us: seq<Update>)
    requires ' ' !in s.password && s.chats == map[] && s.interval == 2 && s.feedback == None
    requires 11 <= n < 90_000_000_000
    ensures |Fold(s, us).added| == n && DistinctKeys(Fold(s, us).added) && AllWellFormed(Fold(s, us).added)
    ensures |Answer(Poll(s, us, now).changes)| >= COAP_UPDATE_SIZE
    ensures var next := Cycle(System(s, b), us, now);
      && next.board == b && next.server.interval == 120 && next.server.feedback == Some("1")
      && forall x :: x in Fold(s, us).added ==> x.id in next.server.chats
  {
    us := CrowdUpdates(s, LongestChats(n));
    LongestChatsAreWellFormed(n);
    CrowdFold(s, LongestChats(n));
    CrowdLength(n);
    forall x | x in LongestChats(n) ensures x.id in Cycle(System(s, b), us, now).server.chats {
      PutAllLookup(map[], LongestChats(n), x.id);
      LookupIsMember(LongestChats(n), x.id);
    }
  }

  lemma {:induction false} CrowdLength(n: nat)
    requires n < 90_000_000_000
    ensures |Encode(Changes(Some(120), Some("1"), LongestChats(n), None))| == 27 * n + 7
  {
    LongestChatsLength(n);
    LongestParts();
    EncodedLengthIsSum(Changes(Some(120), Some("1"), LongestChats(n), None));
  }

  // ----- a request that is not sent -----

  /** A fresh server stores 2 minutes and the firmware starts with 5. Whoever asks for 2 has it accepted, and the
      board stays at 5. */
  lemma {:induction false} DefaultIsNotSent(s: ServerState, now: int) returns (us: seq<Update>)
    requires ' ' !in s.password && s.chats == map[] && s.interval == 2 && s.feedback == None
    ensures |us| == 1 && IntervalRequest(s, us[0]) == Some(2)
    ensures var y := System(s, Settings(5, false, EmptyTable()));
      AnswerIsRead(s, us) && Cycle(y, us, now).server.interval == 2 && Cycle(y, us, now).board.interval == 5
  {
    us := [Setting(s, ANN, "interval", "2")];
    assert Dec(2) == "2";
    IntervalIsRead(s, us[0], 2);
    ConfigIsRead(s.password, "interval", "2");
    OneSetting(s, us[0]);
    CycleOnBoard(System(s, Settings(5, false, EmptyTable())), us, now);
  }

  lemma {:induction false} OneSetting(s: ServerState, u: Update)
    requires s.chats == map[] && u.chatId == 5 && u.firstName == "Ann" && ConfigOf(u.text).Some?
    requires NewInterval(s, u) == None && NewFeedback(s, u) == None
    ensures Fold(s, [u]) == Tally(map[], None, None, [ANN], None) && AnswerIsRead(s, [u])
  {
    assert [u][..0] == [];
    if IsRemoval(s, u) {
      RemovalIsNoConfig(s, u);
    }
    assert Strip(u.text) != "";
    var c := Changes(None, None, [ANN], None);
    assert IsWellFormedChat(ANN);
    EncodedLength(c);
  }

  // ----- a name that is no name -----

  lemma {:induction false} IntervalText(name: string, id: string)
    requires name == "i999" && id == "5"
    ensures IsPiece(name + ":" + id) && ParseCommand(name + ":" + id) == SetInterval(999)
  {
    var token, rest := name + ":" + id, "999:5";
    assert token[1..] == rest;
    AtoiOfDec(999);
    assert Dec(999) == "999";
    assert DigitsEnd(rest, 3) == 3 && DigitsEnd(rest, 2) == 3 && DigitsEnd(rest, 1) == 3;
    assert DigitsEnd("999", 3) == 3 && DigitsEnd("999", 2) == 3 && DigitsEnd("999", 1) == 3;
    ValueOfPrefix("999", rest, 3);
  }

  /** Why names have to be clean: somebody called "i999" says hello, nobody asks for an interval, and the board's
      interval becomes 999. */
  lemma {:induction false} NameIsReadAsInterval(s: ServerState, b: Settings, now: int) returns (us: seq<Update>)
    requires s.chats == map[]
    ensures forall i :: 0 <= i < |us| ==> IntervalRequest(s, us[i]) == None
    ensures Cycle(System(s, b), us, now).board.interval == 999
  {
    var c := Chat(5, "i999");
    us := Hellos([c], s.lastUpdate);
    HellosAreAdded(s, [c]);
    HiJoins(s, Tally(map[], None, None, [], None), c);
    HiAsksNothing(s, c);
    IntervalText(c.name, "5");
    assert Dec(5) == "5";
    var changes := Changes(None, None, [c], None);
    OneChatMessage(c);
    TokenOfPiece(Encode(changes));
    assert NO_UPDATES[0] == 'N' && MESSAGES_SENT[0] == 'M' && Encode(changes)[0] == 'i';
    assert CString(Encode(changes)) == Encode(changes);
    OneCommand(b, Encode(changes));
  }

  lemma {:induction false} OneChatMessage(c: Chat<int>)
    ensures Encode(Changes(None, None, [c], None)) == c.name + ":" + Dec(c.id)
  {
    var text := c.name + ":" + Dec(c.id);
    EncodeIsJoin(Changes(None, None, [c], None));
    assert [c][1..] == [] && ChatTexts([c]) == [text] + ChatTexts([]) == [text];
    assert Pieces(Changes(None, None, [c], None)) == [text];
  }

  lemma {:induction false} HiAsksNothing(s: ServerState, c: Chat<int>)
    ensures IntervalRequest(s, Said("hi", c, s.lastUpdate)) == None
  {
    StripIsIdentity("hi");
    assert Lower("hi")[0] == 'h' && "config "[0] == 'c';
  }
}
