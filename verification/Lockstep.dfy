/** Runs in which every answer is applied before the next poll: the board follows the server. */
module Lockstep {
  import opened Text
  import opened Decimal
  import opened ChatTable
  import opened Commands
  import opened Delivery
  import opened Codec
  import opened Dictionaries
  import opened UpdateServer
  import opened PollProperties
  import opened PollRuns
  import opened Replication

  datatype System = System(server: ServerState, board: Settings)

  /** One cycle of `coap_thread`: a poll, and its answer applied to the board. */
  function Cycle(y: System, us: seq<Update>, now: int): System {
    var o := Poll(y.server, us, now);
    System(o.state, Deliver(y.board, Answer(o.changes)))
  }

  // ----- the hypotheses -----

  /** The chats of the poll's answer, as the board stores them. */
  function AddedSlots(s: ServerState, us: seq<Update>): seq<Slot> {
    SlotsOf(Fold(s, us).added)
  }

  ghost function AddedIds(s: ServerState, us: seq<Update>): set<string> {
    IdsOf(AddedSlots(s, us))
  }

  ghost function RemovedIds(s: ServerState, us: seq<Update>): set<string> {
    var r := Fold(s, us).removal;
    if r.Some? then {Dec(r.value)} else {}
  }

  /** The live slots and the newly added ids fit the table. */
  ghost predicate HasRoom(y: System, us: seq<Update>) {
    |Ids(y.board.table) + AddedIds(y.server, us)| <= |y.board.table|
  }

  /** What one cycle needs: the chats it adds are well-formed and fit, no name among them and the live slots
      belongs to two ids, and none is the id it removes. */
  ghost predicate IsOrderlyCycle(y: System, us: seq<Update>) {
    && AllWellFormed(Fold(y.server, us).added)
    && AreCompatible(y.board.table, AddedSlots(y.server, us), KeyOf(Fold(y.server, us).removal))
    && HasRoom(y, us)
  }

  /** The board reads the answer: its names are clean and it fits. */
  predicate AnswerIsRead(s: ServerState, us: seq<Update>) {
    var t := Fold(s, us);
    var c := Changes(t.interval, t.feedback, t.added, t.removal);
    AllClean(c.added) && |Encode(c)| < COAP_UPDATE_SIZE
  }

  /** Nothing said later in the poll registers the chat again. */
  ghost predicate StaysAway(s: ServerState, us: seq<Update>, i: nat)
    requires i < |us|
  {
    forall j :: i < j < |us| && us[j].chatId == us[i].chatId ==> !Registers(s, us[j])
  }

  /** The chat whose departure is sent does not come back in the same poll. */
  ghost predicate LastDepartureIsClean(s: ServerState, us: seq<Update>) {
    forall i :: IsLast(Departures(s, us), i) ==> StaysAway(s, us, i)
  }

  /** Of the chats that leave in the poll, the last one stays away and every other one comes back. */
  ghost predicate RemovalsAreClean(s: ServerState, us: seq<Update>) {
    forall i :: 0 <= i < |us| && Departure(s, us, i).Some? ==> (IsLast(Departures(s, us), i) <==> StaysAway(s, us, i))
  }

  // ----- one cycle -----

  /** The table is a bijection of ten slots that fit, and every registered id is well-formed. */
  ghost predicate IsHealthy(y: System) {
    IsSound(y.board.table) && |y.board.table| == MAX_CHAT_IDS && HasWellFormedChats(y.server)
  }

  lemma {:induction false} AddedAreDistinct(s: ServerState, us: seq<Update>)
    requires AllWellFormed(Fold(s, us).added)
    ensures DistinctIds(AddedSlots(s, us))
  {
    var added := Fold(s, us).added;
    AddedWereSaid(s, us);
    forall i, j | 0 <= i < j < |added| ensures SlotsOf(added)[i].id != SlotsOf(added)[j].id {
      if SlotsOf(added)[i].id == SlotsOf(added)[j].id {
        DecIsInjective(added[i].id, added[j].id);
      }
    }
  }

  lemma {:induction false} DistinctCount(slots: seq<Slot>)
    requires DistinctIds(slots)
    ensures |IdsOf(slots)| == |slots|
  {
    if slots == [] {
      assert IdsOf(slots) == {};
    } else {
      DistinctCount(slots[1..]);
      IdsOfCons(slots);
      assert slots[0].id !in IdsOf(slots[1..]);
    }
  }

  /** In an orderly cycle there are at most ten added chats, so the answer fits and is read. */
  lemma {:induction false} OrderlyIsRead(y: System, us: seq<Update>)
    requires IsHealthy(y) && IsOrderlyCycle(y, us)
    ensures AnswerIsRead(y.server, us)
  {
    var t := Fold(y.server, us);
    PollEmitsLegal(y.server, us, 0);
    AddedAreDistinct(y.server, us);
    DistinctCount(AddedSlots(y.server, us));
    CardinalityOfSubset(AddedIds(y.server, us), Ids(y.board.table) + AddedIds(y.server, us));
    EncodedLength(Changes(t.interval, t.feedback, t.added, t.removal));
  }

  /** What the answer to a poll does to any board is exactly what the poll recorded, if it is read. */
  lemma {:induction false} AnswerEffect(b: Settings, s: ServerState, us: seq<Update>, now: int)
    requires AnswerIsRead(s, us)
    ensures var t := Fold(s, us);
      Deliver(b, Answer(Poll(s, us, now).changes)) == Settings(
        if t.interval.Some? then t.interval.value else b.interval,
        if t.feedback.Some? then t.feedback.value == "1" else b.feedback,
        Apply(b.table, AddedSlots(s, us), KeyOf(t.removal)))
  {
    var t := Fold(s, us);
    EmittedSettingsAreLegal(s, us);
    if IsChange(t) {
      DeliverEffect(b, Changes(t.interval, t.feedback, t.added, t.removal));
    } else {
      StatusIsHarmless(b);
    }
  }

  lemma {:induction false} CycleOnBoard(y: System, us: seq<Update>, now: int)
    requires AnswerIsRead(y.server, us)
    ensures var t := Fold(y.server, us);
      Cycle(y, us, now).board == Settings(
        if t.interval.Some? then t.interval.value else y.board.interval,
        if t.feedback.Some? then t.feedback.value == "1" else y.board.feedback,
        Apply(y.board.table, AddedSlots(y.server, us), KeyOf(t.removal)))
  {
    AnswerEffect(y.board, y.server, us, now);
  }

  /** Conservation: the board's ids become its old ids and the added ones, without the removed one. */
  lemma {:induction false} CycleConserves(y: System, us: seq<Update>, now: int)
    requires IsHealthy(y) && IsOrderlyCycle(y, us)
    ensures IsHealthy(Cycle(y, us, now))
    ensures Ids(Cycle(y, us, now).board.table) ==
      Ids(y.board.table) + AddedIds(y.server, us) - RemovedIds(y.server, us)
  {
    OrderlyIsRead(y, us);
    CycleOnBoard(y, us, now);
    PollEmitsLegal(y.server, us, now);
    ApplyExact(y.board.table, AddedSlots(y.server, us), KeyOf(Fold(y.server, us).removal));
  }

  /** Applying a delivered message a second time changes nothing at all. */
  lemma {:induction false} DuplicateIsHarmless(y: System, us: seq<Update>, now: int)
    requires IsHealthy(y) && IsOrderlyCycle(y, us)
    ensures var answer := Answer(Poll(y.server, us, now).changes);
      Deliver(Cycle(y, us, now).board, answer) == Cycle(y, us, now).board
  {
    OrderlyIsRead(y, us);
    CycleOnBoard(y, us, now);
    AddedAreDistinct(y.server, us);
    ApplyTwice(y.board.table, AddedSlots(y.server, us), KeyOf(Fold(y.server, us).removal));
    AnswerEffect(Cycle(y, us, now).board, y.server, us, now);
  }

  // ----- does the board follow the server? -----

  ghost function ChatIds(s: ServerState): set<string> {
    set c | c in s.chats :: Dec(c)
  }

  /** Every registered chat is on the board. */
  ghost predicate IsCovered(y: System) {
    ChatIds(y.server) <= Ids(y.board.table)
  }

  /** The board holds exactly the registered chats. */
  ghost predicate InSync(y: System) {
    Ids(y.board.table) == ChatIds(y.server)
  }

  lemma {:induction false} IdAmongSlots(chats: seq<Chat<int>>, c: nat)
    requires forall i :: 0 <= i < |chats| ==> 0 < chats[i].id
    ensures Dec(c) in IdsOf(SlotsOf(chats)) <==> exists x :: x in chats && x.id == c
  {
    if Dec(c) in IdsOf(SlotsOf(chats)) {
      var i :| 0 <= i < |chats| && SlotsOf(chats)[i].id == Dec(c);
      DecIsInjective(chats[i].id, c);
      assert chats[i] in chats;
    }
    forall i | 0 <= i < |chats| && chats[i].id == c ensures Dec(c) in IdsOf(SlotsOf(chats)) {
      assert SlotsOf(chats)[i].id == Dec(c);
    }
  }

  lemma {:induction false} AddedIdsAreJoined(s: ServerState, us: seq<Update>, c: nat)
    requires AllWellFormed(Fold(s, us).added)
    ensures Dec(c) in AddedIds(s, us) <==> Joined(s, us, c)
  {
    LookupIsJoin(s, us, c);
    LookupIsMember(Fold(s, us).added, c);
    IdAmongSlots(Fold(s, us).added, c);
  }

  /** Where one chat is after the cycle: on the board, and on the server. */
  lemma {:induction false} ChatAfterCycle(y: System, us: seq<Update>, now: int, c: int)
    requires IsHealthy(y) && IsOrderlyCycle(y, us) && 0 < c
    ensures Dec(c) in Ids(Cycle(y, us, now).board.table) <==>
      (Dec(c) in Ids(y.board.table) || Joined(y.server, us, c)) && Fold(y.server, us).removal != Some(c)
    ensures c in Cycle(y, us, now).server.chats <==>
      (c in y.server.chats && !AskedToLeave(y.server, us, |us|, c)) || Joined(y.server, us, c)
  {
    CycleConserves(y, us, now);
    AddedIdsAreJoined(y.server, us, c);
    RemovedIdsAre(y.server, us, c);
    Members(y.server, us, now, c);
  }

  lemma {:induction false} RemovedIdsAre(s: ServerState, us: seq<Update>, c: nat)
    requires HasWellFormedChats(s)
    ensures Dec(c) in RemovedIds(s, us) <==> Fold(s, us).removal == Some(c)
  {
    var r := Fold(s, us).removal;
    EmittedSettingsAreLegal(s, us);
    if r.Some? && Dec(r.value) == Dec(c) {
      DecIsInjective(r.value, c);
    }
  }

  lemma {:induction false} FirstAsk(s: ServerState, us: seq<Update>, n: nat, c: int) returns (i: nat)
    requires AskedToLeave(s, us, n, c)
    ensures i < n && i < |us| && IsRemoval(s, us[i]) && us[i].chatId == c && !AskedToLeave(s, us, i, c)
  {
    i :| i < n && i < |us| && IsRemoval(s, us[i]) && us[i].chatId == c;
    if AskedToLeave(s, us, i, c) {
      i := FirstAsk(s, us, i, c);
    }
  }

  /** A registered chat that asked to leave has one departure; it comes back exactly when something later
      registers it, and it is the removal that is sent exactly when its departure is the last. */
  lemma {:induction false} DepartureOf(s: ServerState, us: seq<Update>, c: int) returns (i: nat)
    requires c in s.chats && AskedToLeave(s, us, |us|, c)
    ensures i < |us| && us[i].chatId == c && Departure(s, us, i) == Some(c)
    ensures forall j :: 0 <= j < |us| && us[j].chatId == c && Departure(s, us, j).Some? ==> j == i
    ensures Joined(s, us, c) <==> !StaysAway(s, us, i)
    ensures Fold(s, us).removal == Some(c) <==> IsLast(Departures(s, us), i)
  {
    i := FirstAsk(s, us, |us|, c);
    forall j | 0 <= j < |us| && us[j].chatId == c
      ensures Joins(s, us, j) <==> i < j && Registers(s, us[j])
      ensures Departure(s, us, j).Some? ==> j == i
    {
      assert i < j ==> AskedToLeave(s, us, j, c);
      assert AskedToLeave(s, us, j, c) ==> j > i || AskedToLeave(s, us, i, c);
    }
    RemovalIsLastDeparture(s, us);
    LastSomeIsLast(Departures(s, us));
  }

  lemma {:induction false} CoveredExceptRemoval(y: System, us: seq<Update>, now: int, c: int)
    requires IsHealthy(y) && IsOrderlyCycle(y, us) && IsCovered(y)
    requires c in Cycle(y, us, now).server.chats
    ensures Dec(c) in Ids(Cycle(y, us, now).board.table) <==> Fold(y.server, us).removal != Some(c)
  {
    PollEmitsLegal(y.server, us, now);
    ChatAfterCycle(y, us, now, c);
  }

  /** The removal that is sent comes back in the same poll exactly when the last departure is not clean. */
  lemma {:induction false} RemovalComesBack(s: ServerState, us: seq<Update>)
    ensures LastDepartureIsClean(s, us) <==>
      (Fold(s, us).removal.Some? ==> !Joined(s, us, Fold(s, us).removal.value))
  {
    RemovalIsLastDeparture(s, us);
    LastSomeIsLast(Departures(s, us));
    if Fold(s, us).removal.Some? {
      var k :| IsLast(Departures(s, us), k);
      var i := DepartureOf(s, us, us[k].chatId);
      assert i == k;
      assert forall m :: IsLast(Departures(s, us), m) ==> m == k;
    }
  }

  /** A covered board stays covered exactly when the chat whose removal is sent does not come back in the
      same poll: the message adds before it removes. */
  lemma {:induction false} CoverageKept(y: System, us: seq<Update>, now: int)
    requires IsHealthy(y) && IsOrderlyCycle(y, us) && IsCovered(y)
    ensures IsCovered(Cycle(y, us, now)) <==> LastDepartureIsClean(y.server, us)
  {
    var next, r := Cycle(y, us, now), Fold(y.server, us).removal;
    forall c | c in next.server.chats ensures Dec(c) in Ids(next.board.table) <==> r != Some(c) {
      CoveredExceptRemoval(y, us, now, c);
    }
    RemovalComesBack(y.server, us);
    if r.Some? {
      EmittedSettingsAreLegal(y.server, us);
      ChatAfterCycle(y, us, now, r.value);
      RemovedHadAsked(y.server, us);
    }
  }

  lemma {:induction false} RemovedHadAsked(s: ServerState, us: seq<Update>)
    requires Fold(s, us).removal.Some?
    ensures AskedToLeave(s, us, |us|, Fold(s, us).removal.value)
  {
    RemovalIsLastDeparture(s, us);
    LastSomeIsLast(Departures(s, us));
    var k :| IsLast(Departures(s, us), k);
    assert IsRemoval(s, us[k]);
  }

  /** Sync is kept exactly when, of the chats that leave in the poll, the last one stays away and every other
      one comes back: only one removal is sent, and adds are sent before it. */
  lemma {:induction false} SyncKept(y: System, us: seq<Update>, now: int)
    requires IsHealthy(y) && IsOrderlyCycle(y, us) && InSync(y)
    ensures InSync(Cycle(y, us, now)) <==> RemovalsAreClean(y.server, us)
  {
    var s, next := y.server, Cycle(y, us, now);
    if InSync(next) {
      forall i | 0 <= i < |us| && Departure(s, us, i).Some?
        ensures IsLast(Departures(s, us), i) <==> StaysAway(s, us, i)
      {
        DepartureInSync(y, us, now, i);
      }
    }
    if RemovalsAreClean(s, us) {
      CleanCycleInSync(y, us, now);
    }
  }

  lemma {:induction false} InSyncAt(y: System, c: int)
    requires HasWellFormedChats(y.server) && 0 < c
    ensures Dec(c) in ChatIds(y.server) <==> c in y.server.chats
  {
    if Dec(c) in ChatIds(y.server) {
      var d :| d in y.server.chats && Dec(d) == Dec(c);
      DecIsInjective(c, d);
    }
  }

  lemma {:induction false} DepartureInSync(y: System, us: seq<Update>, now: int, i: nat)
    requires IsHealthy(y) && IsOrderlyCycle(y, us) && InSync(y)
    requires i < |us| && Departure(y.server, us, i).Some?
    ensures var next := Cycle(y, us, now);
            var c := us[i].chatId;
      (Dec(c) in Ids(next.board.table) <==> Dec(c) in ChatIds(next.server)) <==>
      (IsLast(Departures(y.server, us), i) <==> StaysAway(y.server, us, i))
  {
    var s, c := y.server, us[i].chatId;
    CycleConserves(y, us, now);
    assert AskedToLeave(s, us, |us|, c);
    var k := DepartureOf(s, us, c);
    ChatAfterCycle(y, us, now, c);
    InSyncAt(Cycle(y, us, now), c);
  }

  lemma {:induction false} CleanCycleInSync(y: System, us: seq<Update>, now: int)
    requires IsHealthy(y) && IsOrderlyCycle(y, us) && InSync(y)
    requires RemovalsAreClean(y.server, us)
    ensures InSync(Cycle(y, us, now))
  {
    var s, next := y.server, Cycle(y, us, now);
    CycleConserves(y, us, now);
    forall c | 0 < c ensures Dec(c) in Ids(next.board.table) <==> Dec(c) in ChatIds(next.server) {
      ChatAfterCycle(y, us, now, c);
      InSyncAt(y, c);
      InSyncAt(next, c);
      if c in s.chats && AskedToLeave(s, us, |us|, c) {
        var i := DepartureOf(s, us, c);
      } else {
        NotRemoved(s, us, c);
      }
    }
    forall id | id in Ids(next.board.table) ensures id in ChatIds(next.server) {
      var c := IdOnBoard(y, us, now, id);
    }
  }

  /** A chat that was not registered, or did not ask to leave, is not the removal that is sent. */
  lemma {:induction false} NotRemoved(s: ServerState, us: seq<Update>, c: int)
    requires c !in s.chats || !AskedToLeave(s, us, |us|, c)
    ensures Fold(s, us).removal != Some(c)
  {
    RemovalIsLastDeparture(s, us);
    LastSomeIsLast(Departures(s, us));
  }

  lemma {:induction false} IdOnBoard(y: System, us: seq<Update>, now: int, id: string)
    returns (c: int)
    requires IsHealthy(y) && IsOrderlyCycle(y, us) && InSync(y)
    requires id in Ids(Cycle(y, us, now).board.table)
    ensures 0 < c && Dec(c) == id
  {
    CycleConserves(y, us, now);
    if id in ChatIds(y.server) {
      c :| c in y.server.chats && Dec(c) == id;
    } else {
      c := AddedId(y.server, us, id);
    }
  }

  lemma {:induction false} AddedId(s: ServerState, us: seq<Update>, id: string) returns (c: int)
    requires AllWellFormed(Fold(s, us).added) && id in AddedIds(s, us)
    ensures 0 < c && Dec(c) == id
  {
    var added := Fold(s, us).added;
    var i :| 0 <= i < |added| && SlotsOf(added)[i].id == id;
    c := added[i].id;
  }

  // ----- whole runs -----

  function AfterRun(y: System, run: seq<PollInput>): System
    decreases |run|
  {
    if run == [] then y else AfterRun(Cycle(y, run[0].updates, run[0].now), run[1..])
  }

  /** Every cycle of the run is orderly. */
  ghost predicate IsOrderly(y: System, run: seq<PollInput>)
    decreases |run|
  {
    run == [] ||
    (IsOrderlyCycle(y, run[0].updates) && IsOrderly(Cycle(y, run[0].updates, run[0].now), run[1..]))
  }

  /** Every answer of the run is read. */
  predicate AnswersAreRead(y: System, run: seq<PollInput>)
    decreases |run|
  {
    run == [] ||
    (AnswerIsRead(y.server, run[0].updates) && AnswersAreRead(Cycle(y, run[0].updates, run[0].now), run[1..]))
  }

  /** In every poll, the chat whose departure is sent stays away. */
  ghost predicate LastDeparturesAreClean(y: System, run: seq<PollInput>)
    decreases |run|
  {
    run == [] ||
    (LastDepartureIsClean(y.server, run[0].updates) &&
     LastDeparturesAreClean(Cycle(y, run[0].updates, run[0].now), run[1..]))
  }

  /** In every poll, the removals are clean. */
  ghost predicate AllRemovalsAreClean(y: System, run: seq<PollInput>)
    decreases |run|
  {
    run == [] ||
    (RemovalsAreClean(y.server, run[0].updates) &&
     AllRemovalsAreClean(Cycle(y, run[0].updates, run[0].now), run[1..]))
  }

  /** Covered at every point of the run. */
  ghost predicate StaysCovered(y: System, run: seq<PollInput>)
    decreases |run|
  {
    IsCovered(y) && (run == [] || StaysCovered(Cycle(y, run[0].updates, run[0].now), run[1..]))
  }

  /** In sync at every point of the run. */
  ghost predicate StaysInSync(y: System, run: seq<PollInput>)
    decreases |run|
  {
    InSync(y) && (run == [] || StaysInSync(Cycle(y, run[0].updates, run[0].now), run[1..]))
  }

  /** Every cycle moves the board's ids by exactly what its poll added and removed. */
  ghost predicate ConservesIds(y: System, run: seq<PollInput>)
    decreases |run|
  {
    run == [] ||
    var next := Cycle(y, run[0].updates, run[0].now);
    Ids(next.board.table) ==
      Ids(y.board.table) + AddedIds(y.server, run[0].updates) - RemovedIds(y.server, run[0].updates) &&
    ConservesIds(next, run[1..])
  }

  /** Every orderly run conserves ids and keeps the system healthy. */
  lemma {:induction false} ConservingRun(y: System, run: seq<PollInput>)
    requires IsHealthy(y) && IsOrderly(y, run)
    ensures ConservesIds(y, run) && IsHealthy(AfterRun(y, run))
    decreases |run|
  {
    if run != [] {
      CycleConserves(y, run[0].updates, run[0].now);
      ConservingRun(Cycle(y, run[0].updates, run[0].now), run[1..]);
    }
  }

  /** Lossless lockstep: started with every registered chat on the board, an orderly run keeps every registered
      chat on the board throughout exactly when no sent removal comes back in its own poll. */
  lemma {:induction false} CoveredRun(y: System, run: seq<PollInput>)
    requires IsHealthy(y) && IsCovered(y) && IsOrderly(y, run)
    ensures StaysCovered(y, run) <==> LastDeparturesAreClean(y, run)
    decreases |run|
  {
    if run != [] {
      var next := Cycle(y, run[0].updates, run[0].now);
      CycleConserves(y, run[0].updates, run[0].now);
      CoverageKept(y, run[0].updates, run[0].now);
      if IsCovered(next) {
        CoveredRun(next, run[1..]);
      }
    }
  }

  /** Started in sync, an orderly run stays in sync throughout exactly when the removals of every poll are clean. */
  lemma {:induction false} SyncRun(y: System, run: seq<PollInput>)
    requires IsHealthy(y) && InSync(y) && IsOrderly(y, run)
    ensures StaysInSync(y, run) <==> AllRemovalsAreClean(y, run)
    decreases |run|
  {
    if run != [] {
      var next := Cycle(y, run[0].updates, run[0].now);
      CycleConserves(y, run[0].updates, run[0].now);
      SyncKept(y, run[0].updates, run[0].now);
      if InSync(next) {
        SyncRun(next, run[1..]);
      }
    }
  }

  // ----- settings over whole runs -----

  predicate EmitsInterval(y: System, run: seq<PollInput>)
    decreases |run|
  {
    run != [] && (Fold(y.server, run[0].updates).interval.Some? ||
                  EmitsInterval(Cycle(y, run[0].updates, run[0].now), run[1..]))
  }

  predicate EmitsFeedback(y: System, run: seq<PollInput>)
    decreases |run|
  {
    run != [] && (Fold(y.server, run[0].updates).feedback.Some? ||
                  EmitsFeedback(Cycle(y, run[0].updates, run[0].now), run[1..]))
  }

  /** The board's interval is the server's, or neither has changed since the start. */
  predicate IntervalFollows(start: System, y: System, emitted: bool) {
    if emitted then y.board.interval == y.server.interval
    else y.board.interval == start.board.interval && y.server.interval == start.server.interval
  }

  predicate FeedbackFollows(start: System, y: System, emitted: bool) {
    if emitted then y.server.feedback.Some? && y.board.feedback == (y.server.feedback.value == "1")
    else y.board.feedback == start.board.feedback && y.server.feedback == start.server.feedback
  }

  /** After any run whose answers are read, the board's settings are the server's latest, once one has been
      emitted; until then both keep the values they had. The chats play no part in it. */
  lemma {:induction false} SettingsFollow(y: System, run: seq<PollInput>)
    requires AnswersAreRead(y, run)
    ensures IntervalFollows(y, AfterRun(y, run), EmitsInterval(y, run))
    ensures FeedbackFollows(y, AfterRun(y, run), EmitsFeedback(y, run))
  {
    SettingsFollowFrom(y, y, run, false, false);
  }

  lemma {:induction false} SettingsFollowFrom(start: System, y: System, run: seq<PollInput>, interval: bool,
                                              feedback: bool)
    requires AnswersAreRead(y, run)
    requires IntervalFollows(start, y, interval) && FeedbackFollows(start, y, feedback)
    ensures IntervalFollows(start, AfterRun(y, run), interval || EmitsInterval(y, run))
    ensures FeedbackFollows(start, AfterRun(y, run), feedback || EmitsFeedback(y, run))
    decreases |run|
  {
    if run != [] {
      var next, t := Cycle(y, run[0].updates, run[0].now), Fold(y.server, run[0].updates);
      CycleOnBoard(y, run[0].updates, run[0].now);
      SettingsFollowFrom(start, next, run[1..], interval || t.interval.Some?, feedback || t.feedback.Some?);
    }
  }

  /** The answers of an orderly run are read. */
  lemma {:induction false} OrderlyRunIsRead(y: System, run: seq<PollInput>)
    requires IsHealthy(y) && IsOrderly(y, run)
    ensures AnswersAreRead(y, run)
    decreases |run|
  {
    if run != [] {
      OrderlyIsRead(y, run[0].updates);
      CycleConserves(y, run[0].updates, run[0].now);
      OrderlyRunIsRead(Cycle(y, run[0].updates, run[0].now), run[1..]);
    }
  }

  // ----- when a request reaches the board -----

  /** The last interval request of a poll is on the board after the cycle exactly when it differs from what the
      server has stored, or every request is for that and the board has it already: what is stored is not sent. */
  lemma {:induction false} IntervalReaches(y: System, us: seq<Update>, now: int, i: int)
    requires AnswerIsRead(y.server, us) && IsLast(IntervalRequests(y.server, us), i)
    ensures IntervalRequest(y.server, us[i]) == Some(Cycle(y, us, now).board.interval) <==>
      || IntervalRequest(y.server, us[i]) != Some(y.server.interval)
      || (y.board.interval == y.server.interval &&
          forall j :: 0 <= j < |us| ==> IntervalRequests(y.server, us)[j] in {None, Some(y.server.interval)})
  {
    CycleOnBoard(y, us, now);
    LastRequestWins(y.server, us, now, i);
    EmittedInterval(y.server, us);
    EmittedIsNew(y.server, us);
  }

  lemma {:induction false} EmittedIsNew(s: ServerState, us: seq<Update>)
    ensures Fold(s, us).interval != Some(s.interval)
    ensures Fold(s, us).feedback.Some? ==> Fold(s, us).feedback != s.feedback
  {
    SettingsAreLast(s, us);
    LastSomeIsLast(NewIntervals(s, us));
    LastSomeIsLast(NewFeedbacks(s, us));
  }

  function FeedbackText(b: Settings): string {
    if b.feedback then "1" else "0"
  }

  /** The same for the feedback. */
  lemma {:induction false} FeedbackReaches(y: System, us: seq<Update>, now: int, i: int)
    requires AnswerIsRead(y.server, us) && IsLast(FeedbackRequests(y.server, us), i)
    ensures FeedbackRequest(y.server, us[i]) == Some(FeedbackText(Cycle(y, us, now).board)) <==>
      || FeedbackRequest(y.server, us[i]) != y.server.feedback
      || (Some(FeedbackText(y.board)) == y.server.feedback &&
          forall j :: 0 <= j < |us| ==> FeedbackRequests(y.server, us)[j] in {None, y.server.feedback})
  {
    FeedbackOnBoard(y, us, now);
    EmittedIsNew(y.server, us);
    LastFeedbackWins(y.server, us, now, i);
    EmittedFeedback(y.server, us);
  }

  lemma {:induction false} FeedbackOnBoard(y: System, us: seq<Update>, now: int)
    requires AnswerIsRead(y.server, us)
    ensures Some(FeedbackText(Cycle(y, us, now).board)) == Or(Fold(y.server, us).feedback, Some(FeedbackText(y.board)))
  {
    CycleOnBoard(y, us, now);
    EmittedSettingsAreLegal(y.server, us);
  }

  // ----- repeated delivery -----

  function DeliverTimes(b: Settings, payload: string, times: nat): Settings {
    if times == 0 then b else Deliver(DeliverTimes(b, payload, times - 1), payload)
  }

  /** The run in which the answer of cycle `k` is delivered `1 + extra[k]` times before the next poll. */
  function AfterRepeats(y: System, run: seq<PollInput>, extra: seq<nat>): System
    requires |extra| == |run|
    decreases |run|
  {
    if run == [] then y
    else
      var o := Poll(y.server, run[0].updates, run[0].now);
      AfterRepeats(System(o.state, DeliverTimes(y.board, Answer(o.changes), 1 + extra[0])), run[1..], extra[1..])
  }

  lemma {:induction false} RepeatsOfOne(y: System, us: seq<Update>, now: int, extra: nat)
    requires IsHealthy(y) && IsOrderlyCycle(y, us)
    ensures DeliverTimes(y.board, Answer(Poll(y.server, us, now).changes), 1 + extra) == Cycle(y, us, now).board
  {
    if extra > 0 {
      RepeatsOfOne(y, us, now, extra - 1);
      DuplicateIsHarmless(y, us, now);
    } else {
      assert DeliverTimes(y.board, Answer(Poll(y.server, us, now).changes), 0) == y.board;
    }
  }

  /** However often each answer is repeated before the next poll, an orderly run ends as if each had been delivered
      once. */
  lemma {:induction false} RepeatsAreHarmless(y: System, run: seq<PollInput>, extra: seq<nat>)
    requires |extra| == |run| && IsHealthy(y) && IsOrderly(y, run)
    ensures AfterRepeats(y, run, extra) == AfterRun(y, run)
    decreases |run|
  {
    if run != [] {
      RepeatsOfOne(y, run[0].updates, run[0].now, extra[0]);
      CycleConserves(y, run[0].updates, run[0].now);
      RepeatsAreHarmless(Cycle(y, run[0].updates, run[0].now), run[1..], extra[1..]);
    }
  }

  // ----- the sleep -----

  /** When a request for `n` minutes is the last one of a poll, the thread then sleeps `n` minutes exactly when the
      request reaches the board. */
  lemma {:induction false} SleepFollows(y: System, us: seq<Update>, now: int, i: int, n: int)
    requires AnswerIsRead(y.server, us) && IsLast(IntervalRequests(y.server, us), i)
    requires IntervalRequest(y.server, us[i]) == Some(n)
    ensures SleepMilliseconds(Cycle(y, us, now).board) == n * 60000 <==>
      || n != y.server.interval
      || (y.board.interval == y.server.interval &&
          forall j :: 0 <= j < |us| ==> IntervalRequests(y.server, us)[j] in {None, Some(y.server.interval)})
  {
    IntervalReaches(y, us, now, i);
    SameSleep(Cycle(y, us, now).board, n);
  }

  lemma {:induction false} SameSleep(b: Settings, n: int)
    ensures SleepMilliseconds(b) == n * 60000 <==> b.interval == n
  {
  }

  /** A poll that sends no interval leaves the sleep as it was. */
  lemma {:induction false} SleepStays(y: System, us: seq<Update>, now: int)
    requires AnswerIsRead(y.server, us) && Fold(y.server, us).interval == None
    ensures SleepMilliseconds(Cycle(y, us, now).board) == SleepMilliseconds(y.board)
  {
    CycleOnBoard(y, us, now);
  }
}
