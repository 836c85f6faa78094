/** Repeated polls: what survives when Telegram keeps returning the same updates. */
module PollRuns {
  import opened Text
  import opened PythonText
  import opened Codec
  import opened Dictionaries
  import opened UpdateServer
  import opened PollProperties

  // ----- the registered chats after a poll -----

  lemma {:induction false} PutAllLookup(chats: map<int, string>, added: seq<Chat<int>>, c: int)
    requires DistinctKeys(added)
    ensures c in PutAll(chats, added) <==> c in chats || Lookup(added, c).Some?
    ensures Lookup(added, c).Some? ==> PutAll(chats, added)[c] == Lookup(added, c).value
    ensures Lookup(added, c).None? && c in chats ==> PutAll(chats, added)[c] == chats[c]
    decreases |added|
  {
    if added != [] {
      PutAllLookup(chats[added[0].id := added[0].name], added[1..], c);
      LookupIsMember(added[1..], c);
      assert forall x :: x in added[1..] ==> x.id != added[0].id;
    }
  }

  /** After the poll a chat is registered exactly when it was and did not freshly ask to leave, or it joined. */
  ghost predicate StaysOrJoins(s: ServerState, us: seq<Update>, c: int) {
    (c in s.chats && !AskedToLeave(s, us, |us|, c)) || Joined(s, us, c)
  }

  lemma {:induction false} LookupIsJoin(s: ServerState, us: seq<Update>, c: int)
    ensures Lookup(Fold(s, us).added, c).Some? <==> Joined(s, us, c)
    ensures DistinctKeys(Fold(s, us).added)
  {
    AddedAreJoined(s, us, c);
    LastSomeIsLast(NamesJoined(s, us, c));
    assert forall i :: 0 <= i < |us| ==> (NamesJoined(s, us, c)[i].Some? <==> us[i].chatId == c && Joins(s, us, i));
  }

  lemma {:induction false} NoRemovalKeepsChats(s: ServerState, us: seq<Update>)
    ensures Fold(s, us).removal == None ==> Fold(s, us).chats == s.chats
  {
    if us != [] {
      NoRemovalKeepsChats(s, us[..|us| - 1]);
    }
  }

  lemma {:induction false} Members(s: ServerState, us: seq<Update>, now: int, c: int)
    ensures c in Poll(s, us, now).state.chats <==> StaysOrJoins(s, us, c)
  {
    var t := Fold(s, us);
    ChatsAfterFold(s, us);
    LookupIsJoin(s, us, c);
    PutAllLookup(t.chats, t.added, c);
    if !IsChange(t) {
      assert Lookup(t.added, c).None?;
    }
  }

  lemma {:induction false} QuietPoll(s: ServerState, us: seq<Update>, now: int)
    ensures Poll(s, us, now).changes == None ==> Poll(s, us, now).state == s
  {
    NoRemovalKeepsChats(s, us);
  }

  // ----- polling the same list again -----

  /** When nothing is fresh, the poll changes something exactly when an unregistered chat once said something. */
  lemma {:induction false} StalePoll(s: ServerState, us: seq<Update>, now: int)
    requires forall i :: 0 <= i < |us| ==> us[i].date <= s.lastUpdate
    ensures Poll(s, us, now).changes == None <==>
      forall i :: 0 <= i < |us| && CanRegister(us[i]) ==> us[i].chatId in s.chats
  {
    var t := Fold(s, us);
    EmittedInterval(s, us);
    EmittedFeedback(s, us);
    assert forall i :: 0 <= i < |us| ==> IntervalRequest(s, us[i]) == None && FeedbackRequest(s, us[i]) == None;
    RemovalIsLastDeparture(s, us);
    LastSomeIsLast(Departures(s, us));
    assert t.removal == None;
    if t.added != [] {
      LookupIsJoin(s, us, t.added[0].id);
      var i :| 0 <= i < |us| && us[i].chatId == t.added[0].id && Joins(s, us, i);
    } else {
      forall i | 0 <= i < |us| && CanRegister(us[i]) ensures us[i].chatId in s.chats {
        LookupIsJoin(s, us, us[i].chatId);
        assert !Joins(s, us, i);
      }
    }
  }

  /** Polling the same list again, no message being from the future: the second poll answers "No Updates" and
      changes nothing exactly when the first one did, or every chat that ever said something is registered
      after the first one. */
  lemma {:induction false} RePoll(s: ServerState, us: seq<Update>, now: int, later: int)
    requires forall i :: 0 <= i < |us| ==> us[i].date <= now
    ensures var first := Poll(s, us, now);
            var second := Poll(first.state, us, later);
            (second.changes == None && second.state == first.state <==>
              || first.changes == None
              || forall i :: 0 <= i < |us| && CanRegister(us[i]) ==> StaysOrJoins(s, us, us[i].chatId))
  {
    var first := Poll(s, us, now);
    QuietPoll(s, us, now);
    QuietPoll(first.state, us, later);
    if first.changes.Some? {
      StalePoll(first.state, us, later);
      forall i | 0 <= i < |us| ensures us[i].chatId in first.state.chats <==> StaysOrJoins(s, us, us[i].chatId) {
        Members(s, us, now, us[i].chatId);
      }
    } else {
      assert Poll(s, us, later).changes == None;
    }
  }

  /** Without a "remove me", polling again is idempotent. */
  lemma {:induction false} RePollWithoutRemovals(s: ServerState, us: seq<Update>, now: int, later: int)
    requires forall i :: 0 <= i < |us| ==> us[i].date <= now && Lower(Strip(us[i].text)) != "remove me"
    ensures var first := Poll(s, us, now);
            Poll(first.state, us, later) == Outcome(first.state, None)
  {
    RePoll(s, us, now, later);
    forall i | 0 <= i < |us| && CanRegister(us[i]) ensures StaysOrJoins(s, us, us[i].chatId) {
      assert us[i].chatId in s.chats || Joins(s, us, i);
    }
  }

  /** A removed user comes back by itself: the next poll of the same list registers the chat again, because
      its "remove me" is no longer fresh and counts as something said. */
  lemma {:induction false} RemovedUserReturns(s: ServerState, us: seq<Update>, now: int, later: int, i: nat)
    requires forall j :: 0 <= j < |us| ==> us[j].date <= now
    requires i < |us| && Departure(s, us, i).Some? && us[i].chatId != 0 && us[i].firstName != ""
    requires forall j :: i < j < |us| && us[j].chatId == us[i].chatId ==> !Registers(s, us[j])
    ensures us[i].chatId !in Poll(s, us, now).state.chats
    ensures us[i].chatId in Poll(Poll(s, us, now).state, us, later).state.chats
  {
    var c := us[i].chatId;
    var first := Poll(s, us, now);
    assert AskedToLeave(s, us, |us|, c);
    forall j | 0 <= j < |us| && us[j].chatId == c ensures !Joins(s, us, j) {
    }
    Members(s, us, now, c);
    RemovalIsLastDeparture(s, us);
    LastSomeIsLast(Departures(s, us));
    assert Departures(s, us)[i].Some?;
    assert first.state.lastUpdate == now;
    assert Joins(first.state, us, i);
    Members(first.state, us, later, c);
  }

  // ----- whole runs -----

  datatype PollInput = PollInput(updates: seq<Update>, now: int)

  /** The server's state before poll number `k`. */
  function StateAt(s: ServerState, run: seq<PollInput>, k: nat): ServerState
    requires k <= |run|
  {
    if k == 0 then s else Poll(StateAt(s, run, k - 1), run[k - 1].updates, run[k - 1].now).state
  }

  function OutcomeAt(s: ServerState, run: seq<PollInput>, k: nat): Outcome
    requires k < |run|
  {
    Poll(StateAt(s, run, k), run[k].updates, run[k].now)
  }

  /** The clock does not run backwards and no message is from the future. */
  ghost predicate IsTimely(s: ServerState, run: seq<PollInput>) {
    && (run != [] ==> s.lastUpdate <= run[0].now)
    && (forall j, k :: 0 <= j < k < |run| ==> run[j].now <= run[k].now)
    && (forall k, i :: 0 <= k < |run| && 0 <= i < |run[k].updates| ==> run[k].updates[i].date <= run[k].now)
  }

  lemma {:induction false} PollTime(s: ServerState, us: seq<Update>, now: int)
    requires s.lastUpdate <= now
    ensures s.lastUpdate <= Poll(s, us, now).state.lastUpdate <= now
  {
  }

  lemma {:induction false} LastUpdateGrows(s: ServerState, run: seq<PollInput>, j: nat, k: nat)
    requires IsTimely(s, run) && j <= k <= |run|
    ensures StateAt(s, run, j).lastUpdate <= StateAt(s, run, k).lastUpdate
    ensures k < |run| ==> StateAt(s, run, k).lastUpdate <= run[k].now
    decreases k
  {
    if k > 0 {
      LastUpdateGrows(s, run, if j < k then j else k - 1, k - 1);
      PollTime(StateAt(s, run, k - 1), run[k - 1].updates, run[k - 1].now);
    }
  }

  /** Some poll before number `k` emitted something at or after this date. */
  ghost predicate EmittedSince(s: ServerState, run: seq<PollInput>, k: nat, date: int) {
    exists j :: 0 <= j < k && j < |run| && OutcomeAt(s, run, j).changes.Some? && date <= run[j].now
  }

  lemma {:induction false} EmittedSinceStep(s: ServerState, run: seq<PollInput>, k: nat, date: int)
    requires k < |run|
    ensures EmittedSince(s, run, k + 1, date) <==>
      EmittedSince(s, run, k, date) || (OutcomeAt(s, run, k).changes.Some? && date <= run[k].now)
  {
  }

  /** In a timely run a dated message is fresh at a poll exactly when it is later than the start and no earlier poll
      emitted anything at or after its date, whenever it is first listed. */
  lemma {:induction false} FreshExactly(s: ServerState, run: seq<PollInput>, k: nat, u: Update)
    requires IsTimely(s, run) && k <= |run|
    ensures IsFresh(StateAt(s, run, k), u) <==>
      u.date != 0 && u.date > s.lastUpdate && !EmittedSince(s, run, k, u.date)
  {
    if k > 0 {
      FreshExactly(s, run, k - 1, u);
      EmittedSinceStep(s, run, k - 1, u.date);
      LastUpdateGrows(s, run, k - 1, k);
      LastUpdateGrows(s, run, 0, k);
      StampOfPoll(StateAt(s, run, k - 1), run[k - 1].updates, run[k - 1].now);
    }
  }

  lemma {:induction false} StampOfPoll(s: ServerState, us: seq<Update>, now: int)
    ensures Poll(s, us, now).state.lastUpdate == if Poll(s, us, now).changes.Some? then now else s.lastUpdate
  {
  }

  /** A message dated no later than an emitting poll and listed only after it comes too late: its config is ignored,
      and its "remove me" registers the chat. */
  lemma {:induction false} LateMessage(s: ServerState, run: seq<PollInput>, k: nat, u: Update)
    requires IsTimely(s, run) && k < |run| && EmittedSince(s, run, k, u.date)
    ensures var state := StateAt(s, run, k);
      && !IsFresh(state, u) && !IsRemoval(state, u) && Authorised(state, u) == None
      && (u in run[k].updates && CanRegister(u) && u.chatId !in state.chats ==>
            u.chatId in StateAt(s, run, k + 1).chats)
  {
    var state, us := StateAt(s, run, k), run[k].updates;
    FreshExactly(s, run, k, u);
    if u in us && CanRegister(u) && u.chatId !in state.chats {
      var i :| 0 <= i < |us| && us[i] == u;
      assert Joins(state, us, i);
      Members(state, us, run[k].now, u.chatId);
    }
  }

  lemma {:induction false} SeenBefore(s: ServerState, run: seq<PollInput>, j: nat, k: nat, u: Update)
    requires IsTimely(s, run) && j < k < |run| && OutcomeAt(s, run, j).changes.Some? && u in run[j].updates
    ensures EmittedSince(s, run, k, u.date)
  {
    var i :| 0 <= i < |run[j].updates| && run[j].updates[i] == u;
    assert u.date <= run[j].now;
  }

  /** Once a poll has emitted something, no message it saw has any effect on settings or removals in a later
      poll: each configuration message and each "remove me" takes effect in at most one poll. */
  lemma {:induction false} AtMostOnce(s: ServerState, run: seq<PollInput>, j: nat, k: nat, u: Update)
    requires IsTimely(s, run) && j < k < |run| && OutcomeAt(s, run, j).changes.Some?
    requires u in run[j].updates
    ensures var later := StateAt(s, run, k);
      !IsFresh(later, u) && !IsRemoval(later, u) && Authorised(later, u) == None
  {
    SeenBefore(s, run, j, k, u);
    LateMessage(s, run, k, u);
  }

  /** Every change of a stored setting traces to a fresh message with the right password asking for it. */
  lemma {:induction false} SettingsProvenance(s: ServerState, run: seq<PollInput>, k: nat)
    requires k < |run|
    ensures var before, after := StateAt(s, run, k), StateAt(s, run, k + 1);
      && (after.interval != before.interval ==>
            exists u :: u in run[k].updates && IntervalRequest(before, u) == Some(after.interval))
      && (after.feedback != before.feedback ==>
            exists u :: u in run[k].updates && FeedbackRequest(before, u) == after.feedback)
  {
    var before, us := StateAt(s, run, k), run[k].updates;
    SettingsAreLast(before, us);
    LastSomeIsLast(NewIntervals(before, us));
    LastSomeIsLast(NewFeedbacks(before, us));
    assert StateAt(s, run, k + 1) == Poll(before, us, run[k].now).state;
    if StateAt(s, run, k + 1).interval != before.interval {
      var i :| IsLast(NewIntervals(before, us), i);
      assert us[i] in us;
    }
    if StateAt(s, run, k + 1).feedback != before.feedback {
      var i :| IsLast(NewFeedbacks(before, us), i);
      assert us[i] in us;
    }
  }

  /** A chat leaves only in a poll that holds a fresh "remove me" from that same chat. */
  lemma {:induction false} DepartureProvenance(s: ServerState, run: seq<PollInput>, k: nat, c: int)
    requires k < |run| && c in StateAt(s, run, k).chats && c !in StateAt(s, run, k + 1).chats
    ensures AskedToLeave(StateAt(s, run, k), run[k].updates, |run[k].updates|, c)
  {
    Members(StateAt(s, run, k), run[k].updates, run[k].now, c);
  }

  /** Some poll before number `k` holds a non-empty text from the chat under a non-empty name. */
  ghost predicate Spoke(run: seq<PollInput>, k: nat, c: int) {
    exists j, i :: 0 <= j < k && j < |run| && 0 <= i < |run[j].updates| &&
      CanRegister(run[j].updates[i]) && run[j].updates[i].chatId == c
  }

  /** Every registered chat was registered from the start or once said something under a name. */
  lemma {:induction false} MembershipProvenance(s: ServerState, run: seq<PollInput>, k: nat, c: int)
    requires k <= |run| && c in StateAt(s, run, k).chats
    ensures c in s.chats || Spoke(run, k, c)
  {
    if k > 0 {
      var before := StateAt(s, run, k - 1);
      Members(before, run[k - 1].updates, run[k - 1].now, c);
      if c in before.chats {
        MembershipProvenance(s, run, k - 1, c);
      } else {
        var us := run[k - 1].updates;
        var i :| 0 <= i < |us| && us[i].chatId == c && Joins(before, us, i);
        assert CanRegister(run[k - 1].updates[i]);
      }
    }
  }

  /** None of the first `k` polls holds a fresh "remove me" from the chat. */
  ghost predicate NeverAsks(s: ServerState, run: seq<PollInput>, k: nat, c: int)
    requires k <= |run|
  {
    k == 0 || (NeverAsks(s, run, k - 1, c) &&
               !AskedToLeave(StateAt(s, run, k - 1), run[k - 1].updates, |run[k - 1].updates|, c))
  }

  lemma {:induction false} StaysUnemitted(s: ServerState, us: seq<Update>, now: int, c: int)
    requires c in s.chats && !AskedToLeave(s, us, |us|, c)
    ensures c in Poll(s, us, now).state.chats && Lookup(Fold(s, us).added, c).None?
  {
    Members(s, us, now, c);
    LookupIsJoin(s, us, c);
    forall i | 0 <= i < |us| && us[i].chatId == c ensures !Joins(s, us, i) {
      assert !AskedToLeave(s, us, i, c);
    }
  }

  /** A registered chat that does not ask to leave stays registered and is never emitted again. */
  lemma {:induction false} NeverEmittedAgain(s: ServerState, run: seq<PollInput>, k: nat, c: int)
    requires k < |run| && c in s.chats && NeverAsks(s, run, k + 1, c)
    ensures c in StateAt(s, run, k).chats && c in StateAt(s, run, k + 1).chats
    ensures OutcomeAt(s, run, k).changes.Some? ==> Lookup(OutcomeAt(s, run, k).changes.value.added, c).None?
  {
    if k > 0 {
      NeverEmittedAgain(s, run, k - 1, c);
    }
    StaysUnemitted(StateAt(s, run, k), run[k].updates, run[k].now, c);
  }
}
