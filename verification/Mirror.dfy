/** Lockstep with names: the board holds every registered chat under the name the server has for it. */
module Mirror {
  import opened Text
  import opened Decimal
  import opened ChatTable
  import opened Delivery
  import opened Codec
  import opened Dictionaries
  import opened UpdateServer
  import opened PollProperties
  import opened PollRuns
  import opened Replication
  import opened Lockstep

  /** The registered chats, as the board would store them. */
  ghost function ChatSlots(s: ServerState): set<Slot> {
    set c | c in s.chats :: Slot(s.chats[c], Dec(c))
  }

  /** The board holds every registered chat, under its name. */
  ghost predicate IsMirrored(y: System) {
    ChatSlots(y.server) <= Entries(y.board.table)
  }

  /** Conservation with names: the live slots become the added chats, and the old ones with other ids, without
      the removed one. */
  lemma {:induction false} CycleEntries(y: System, us: seq<Update>, now: int)
    requires IsHealthy(y) && IsOrderlyCycle(y, us)
    ensures Entries(Cycle(y, us, now).board.table) ==
      Merged(Entries(y.board.table), AddedSlots(y.server, us), KeyOf(Fold(y.server, us).removal))
  {
    OrderlyIsRead(y, us);
    CycleOnBoard(y, us, now);
    AddedAreDistinct(y.server, us);
    ApplyEntries(y.board.table, AddedSlots(y.server, us), KeyOf(Fold(y.server, us).removal));
  }

  lemma {:induction false} MirroredIsCovered(y: System)
    requires IsMirrored(y)
    ensures IsCovered(y)
  {
    forall c | c in y.server.chats ensures Dec(c) in Ids(y.board.table) {
      assert Slot(y.server.chats[c], Dec(c)) in Entries(y.board.table);
    }
  }

  /** A board in sync that mirrors the server holds exactly the registered chats under their names. */
  lemma {:induction false} MirrorInSync(y: System)
    requires IsHealthy(y)
    ensures Entries(y.board.table) == ChatSlots(y.server) <==> InSync(y) && IsMirrored(y)
  {
    if InSync(y) && IsMirrored(y) {
      forall e | e in Entries(y.board.table) ensures e in ChatSlots(y.server) {
        assert e.id in Ids(y.board.table);
        var c :| c in y.server.chats && Dec(c) == e.id;
        SameIdIsSame(y.board.table, e, Slot(y.server.chats[c], Dec(c)));
      }
    }
    if Entries(y.board.table) == ChatSlots(y.server) {
      SlotIds(y.server);
    }
  }

  lemma {:induction false} SlotIds(s: ServerState)
    ensures (set e | e in ChatSlots(s) :: e.id) == ChatIds(s)
  {
    forall c | c in s.chats ensures Dec(c) in (set e | e in ChatSlots(s) :: e.id) {
      assert Slot(s.chats[c], Dec(c)) in ChatSlots(s);
    }
  }

  /** The name the server has for a registered chat after the poll: the last one it joined with, or its old one. */
  lemma {:induction false} NameAfterPoll(s: ServerState, us: seq<Update>, now: int, c: int)
    requires c in Poll(s, us, now).state.chats
    ensures var found := Lookup(Fold(s, us).added, c);
      if found.Some? then Poll(s, us, now).state.chats[c] == found.value
      else c in s.chats && Poll(s, us, now).state.chats[c] == s.chats[c]
  {
    var t := Fold(s, us);
    ChatsAfterFold(s, us);
    LookupIsJoin(s, us, c);
    PutAllLookup(t.chats, t.added, c);
  }

  lemma {:induction false} SlotAmongAdded(added: seq<Chat<int>>, c: int)
    requires DistinctKeys(added) && 0 < c && forall i :: 0 <= i < |added| ==> 0 < added[i].id
    ensures Lookup(added, c).Some? ==> Slot(Lookup(added, c).value, Dec(c)) in SlotsOf(added)
    ensures Lookup(added, c).None? ==> Dec(c) !in IdsOf(SlotsOf(added))
  {
    IdAmongSlots(added, c);
    LookupIsMember(added, c);
    LookupIsItem(added, c);
    if Lookup(added, c).Some? {
      var i :| 0 <= i < |added| && added[i] == Chat(c, Lookup(added, c).value);
      assert SlotsOf(added)[i] == Slot(added[i].name, Dec(c));
    }
  }

  /** The slot of a chat registered after the poll is an added one, or the one the board held before. */
  lemma {:induction false} SlotAfterPoll(y: System, us: seq<Update>, now: int, c: int)
    requires IsHealthy(y) && AllWellFormed(Fold(y.server, us).added) && IsMirrored(y)
    requires c in Poll(y.server, us, now).state.chats
    ensures 0 < c
    ensures var slot := Slot(Poll(y.server, us, now).state.chats[c], Dec(c));
      slot in AddedSlots(y.server, us) ||
      (slot in Entries(y.board.table) && Dec(c) !in IdsOf(AddedSlots(y.server, us)))
  {
    var t := Fold(y.server, us);
    PollEmitsLegal(y.server, us, now);
    NameAfterPoll(y.server, us, now, c);
    SlotAmongAdded(t.added, c);
    if Lookup(t.added, c).None? {
      assert Slot(y.server.chats[c], Dec(c)) in ChatSlots(y.server);
    }
  }

  /** One registered chat after the cycle: if it was held under its name before, it is held under its name now,
      unless its removal was sent. */
  lemma {:induction false} NameIsKept(y: System, us: seq<Update>, now: int, c: int)
    requires IsHealthy(y) && IsOrderlyCycle(y, us) && IsMirrored(y)
    requires c in Cycle(y, us, now).server.chats && Fold(y.server, us).removal != Some(c)
    ensures Slot(Cycle(y, us, now).server.chats[c], Dec(c)) in Entries(Cycle(y, us, now).board.table)
  {
    CycleEntries(y, us, now);
    SlotAfterPoll(y, us, now, c);
    RemovedIdsAre(y.server, us, c);
  }

  /** A mirrored board stays mirrored exactly when the chat whose removal is sent does not come back in the
      same poll. */
  lemma {:induction false} MirrorKept(y: System, us: seq<Update>, now: int)
    requires IsHealthy(y) && IsOrderlyCycle(y, us) && IsMirrored(y)
    ensures IsMirrored(Cycle(y, us, now)) <==> LastDepartureIsClean(y.server, us)
  {
    var next := Cycle(y, us, now);
    MirroredIsCovered(y);
    CoverageKept(y, us, now);
    if IsMirrored(next) {
      MirroredIsCovered(next);
    } else if LastDepartureIsClean(y.server, us) {
      forall c | c in next.server.chats ensures Slot(next.server.chats[c], Dec(c)) in Entries(next.board.table) {
        CoveredExceptRemoval(y, us, now, c);
        assert Dec(c) in Ids(next.board.table);
        NameIsKept(y, us, now, c);
      }
    }
  }

  /** Mirrored at every point of the run. */
  ghost predicate StaysMirrored(y: System, run: seq<PollInput>)
    decreases |run|
  {
    IsMirrored(y) && (run == [] || StaysMirrored(Cycle(y, run[0].updates, run[0].now), run[1..]))
  }

  /** Over a whole orderly run the board holds every registered chat under its name throughout exactly when no
      sent removal comes back in its own poll. */
  lemma {:induction false} MirroredRun(y: System, run: seq<PollInput>)
    requires IsHealthy(y) && IsMirrored(y) && IsOrderly(y, run)
    ensures StaysMirrored(y, run) <==> LastDeparturesAreClean(y, run)
    decreases |run|
  {
    if run != [] {
      var next := Cycle(y, run[0].updates, run[0].now);
      CycleConserves(y, run[0].updates, run[0].now);
      MirrorKept(y, run[0].updates, run[0].now);
      if IsMirrored(next) {
        MirroredRun(next, run[1..]);
      }
    }
  }
}
