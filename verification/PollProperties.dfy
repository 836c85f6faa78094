/** What one poll does, said without the loop: which request wins, who leaves, who joins, what is sent. */
module PollProperties {
  import opened Text
  import opened Decimal
  import opened PythonText
  import opened Codec
  import opened Dictionaries
  import opened UpdateServer

  // ----- settings -----

  function IntervalRequests(s: ServerState, us: seq<Update>): seq<Option<int>> {
    seq(|us|, i requires 0 <= i < |us| => IntervalRequest(s, us[i]))
  }

  function FeedbackRequests(s: ServerState, us: seq<Update>): seq<Option<string>> {
    seq(|us|, i requires 0 <= i < |us| => FeedbackRequest(s, us[i]))
  }

  function NewIntervals(s: ServerState, us: seq<Update>): seq<Option<int>> {
    seq(|us|, i requires 0 <= i < |us| => NewInterval(s, us[i]))
  }

  function NewFeedbacks(s: ServerState, us: seq<Update>): seq<Option<string>> {
    seq(|us|, i requires 0 <= i < |us| => NewFeedback(s, us[i]))
  }

  lemma {:induction false} RemovalIsNoConfig(s: ServerState, u: Update)
    requires IsRemoval(s, u)
    ensures ConfigOf(u.text).None?
  {
    assert "config "[0] != "remove me"[0];
  }

  lemma {:induction false} SettingsOfStep(s: ServerState, t: Tally, u: Update)
    ensures Step(s, t, u).interval == Or(NewInterval(s, u), t.interval)
    ensures Step(s, t, u).feedback == Or(NewFeedback(s, u), t.feedback)
  {
    if IsRemoval(s, u) {
      RemovalIsNoConfig(s, u);
    }
  }

  lemma {:induction false} SettingsAreLast(s: ServerState, us: seq<Update>)
    ensures Fold(s, us).interval == LastSome(NewIntervals(s, us))
    ensures Fold(s, us).feedback == LastSome(NewFeedbacks(s, us))
  {
    if us != [] {
      var front, u := us[..|us| - 1], us[|us| - 1];
      SettingsAreLast(s, front);
      assert NewIntervals(s, us)[..|us| - 1] == NewIntervals(s, front);
      assert NewFeedbacks(s, us)[..|us| - 1] == NewFeedbacks(s, front);
      SettingsOfStep(s, Fold(s, front), u);
    }
  }

  /** The emitted interval is the last accepted request that differs from the stored one; none is emitted
      exactly when there is no such request. */
  lemma {:induction false} EmittedInterval(s: ServerState, us: seq<Update>)
    ensures forall i :: IsLast(NewIntervals(s, us), i) ==> Fold(s, us).interval == IntervalRequest(s, us[i])
    ensures Fold(s, us).interval == None <==>
      forall i :: 0 <= i < |us| ==> IntervalRequest(s, us[i]) in {None, Some(s.interval)}
  {
    SettingsAreLast(s, us);
    LastSomeIsLast(NewIntervals(s, us));
  }

  /** The same for the emitted feedback. */
  lemma {:induction false} EmittedFeedback(s: ServerState, us: seq<Update>)
    ensures forall i :: IsLast(NewFeedbacks(s, us), i) ==> Fold(s, us).feedback == FeedbackRequest(s, us[i])
    ensures Fold(s, us).feedback == None <==>
      forall i :: 0 <= i < |us| ==> FeedbackRequest(s, us[i]) in {None, s.feedback}
  {
    SettingsAreLast(s, us);
    LastSomeIsLast(NewFeedbacks(s, us));
  }

  function Others<T(==)>(requests: seq<Option<T>>, stored: Option<T>): seq<Option<T>> {
    seq(|requests|, i requires 0 <= i < |requests| => if requests[i] == stored then None else requests[i])
  }

  lemma {:induction false} LastOfOthers<T>(requests: seq<Option<T>>, stored: Option<T>, i: int)
    requires IsLast(requests, i)
    ensures Or(LastSome(Others(requests, stored)), stored) == requests[i] <==>
      requests[i] != stored || forall j :: 0 <= j < |requests| ==> requests[j] in {None, stored}
  {
    var others := Others(requests, stored);
    LastSomeIsLast(others);
    assert forall j :: 0 <= j < |requests| ==> (others[j].None? <==> requests[j] in {None, stored});
    if requests[i] != stored {
      assert IsLast(others, i);
    }
  }

  /** "The last request wins" holds exactly when that request differs from the stored interval or every
      request is for it: a last request for the stored value does not cancel an earlier one. */
  lemma {:induction false} LastRequestWins(s: ServerState, us: seq<Update>, now: int, i: int)
    requires IsLast(IntervalRequests(s, us), i)
    ensures Some(Poll(s, us, now).state.interval) == IntervalRequest(s, us[i]) <==>
      || IntervalRequest(s, us[i]) != Some(s.interval)
      || forall j :: 0 <= j < |us| ==> IntervalRequests(s, us)[j] in {None, Some(s.interval)}
  {
    SettingsAreLast(s, us);
    assert NewIntervals(s, us) == Others(IntervalRequests(s, us), Some(s.interval));
    LastOfOthers(IntervalRequests(s, us), Some(s.interval), i);
  }

  /** The same for the feedback. */
  lemma {:induction false} LastFeedbackWins(s: ServerState, us: seq<Update>, now: int, i: int)
    requires IsLast(FeedbackRequests(s, us), i)
    ensures Poll(s, us, now).state.feedback == FeedbackRequest(s, us[i]) <==>
      || FeedbackRequest(s, us[i]) != s.feedback
      || forall j :: 0 <= j < |us| ==> FeedbackRequests(s, us)[j] in {None, s.feedback}
  {
    SettingsAreLast(s, us);
    assert NewFeedbacks(s, us) == Others(FeedbackRequests(s, us), s.feedback);
    LastOfOthers(FeedbackRequests(s, us), s.feedback, i);
  }

  lemma {:induction false} FirstPart(head: string, rest: string, limit: nat)
    requires ' ' !in head && limit > 0
    ensures SplitAtMost(head + " " + rest, ' ', limit) == [head] + SplitAtMost(rest, ' ', limit - 1)
  {
    var s := head + " " + rest;
    assert s[|head|] == ' ';
    assert Find(s, ' ') == |head|;
    assert s[..|head|] == head && s[|head| + 1..] == rest;
  }

  lemma {:induction false} FourParts(a: string, b: string, c: string, d: string)
    requires ' ' !in a && ' ' !in b && ' ' !in c
    ensures SplitAtMost(a + " " + (b + " " + (c + " " + d)), ' ', 3) == [a, b, c, d]
  {
    FirstPart(c, d, 1);
    FirstPart(b, c + " " + d, 2);
    FirstPart(a, b + " " + (c + " " + d), 3);
    assert SplitAtMost(d, ' ', 0) == [d];
  }

  lemma {:induction false} Regroup(head: string, a: string, b: string, c: string)
    ensures head + a + " " + b + " " + c == head + (a + " " + (b + " " + c))
  {
  }

  lemma {:induction false} PrefixIsRead(rest: string)
    ensures "config " <= Lower("config " + rest)
  {
    var text := "config " + rest;
    assert forall i :: 0 <= i < 7 ==> Lower(text)[i] == LowerChar("config "[i]) == "config "[i];
  }

  /** The documented format is read: "config <password> <key> <value>" for any password and key without spaces
      and any value that does not end in whitespace. */
  lemma {:induction false} ConfigIsRead(password: string, name: string, value: string)
    requires ' ' !in password && ' ' !in name && value != "" && !IsSpace(value[|value| - 1])
    ensures ConfigOf("config " + password + " " + name + " " + value) == Some(ConfigText(password, name, value))
  {
    var rest := password + " " + (name + " " + value);
    var text := "config " + rest;
    Regroup("config ", password, name, value);
    assert text[0] == 'c' && text[|text| - 1] == value[|value| - 1];
    StripIsIdentity(text);
    PrefixIsRead(rest);
    assert "config " == "config" + " ";
    FourParts("config", password, name, value);
  }

  /** A fresh message in that format with the right password is an accepted interval request. */
  lemma {:induction false} IntervalIsRead(s: ServerState, u: Update, n: int)
    requires IsFresh(s, u) && ' ' !in s.password && 1 <= n <= 120
    requires u.text == "config " + s.password + " " + "interval" + " " + Dec(n)
    ensures IntervalRequest(s, u) == Some(n)
  {
    OfNatDigits(n);
    ConfigIsRead(s.password, "interval", Dec(n));
    ToIntOfDec(n);
  }

  /** The same for the feedback. */
  lemma {:induction false} FeedbackIsRead(s: ServerState, u: Update, value: string)
    requires IsFresh(s, u) && ' ' !in s.password && (value == "0" || value == "1")
    requires u.text == "config " + s.password + " " + "feedback" + " " + value
    ensures FeedbackRequest(s, u) == Some(value)
  {
    ConfigIsRead(s.password, "feedback", value);
  }

  function Configure(s: ServerState, n: int): Update {
    Update("config " + s.password + " " + "interval" + " " + Dec(n), 5, "Ann",
           if s.lastUpdate < 0 then 1 else s.lastUpdate + 1)
  }

  /** A last request that loses: whoever asks for a new interval and then for the stored one gets the new one. */
  lemma {:induction false} LastRequestLoses(s: ServerState, now: int, n: int)
    requires ' ' !in s.password && 1 <= n <= 120 && 1 <= s.interval <= 120 && n != s.interval
    ensures var us := [Configure(s, n), Configure(s, s.interval)];
      IsLast(IntervalRequests(s, us), 1) && IntervalRequest(s, us[1]) == Some(s.interval) &&
      Poll(s, us, now).state.interval == n
  {
    var us := [Configure(s, n), Configure(s, s.interval)];
    IntervalIsRead(s, us[0], n);
    IntervalIsRead(s, us[1], s.interval);
    EmittedInterval(s, us);
    assert IsLast(NewIntervals(s, us), 0);
  }

  // ----- who leaves -----

  /** One of the first `n` updates is a fresh "remove me" from the chat. */
  ghost predicate AskedToLeave(s: ServerState, us: seq<Update>, n: nat, c: int) {
    exists i :: 0 <= i < n && i < |us| && IsRemoval(s, us[i]) && us[i].chatId == c
  }

  /** The chat that leaves with this update: its first fresh "remove me" while registered. */
  ghost function Departure(s: ServerState, us: seq<Update>, i: nat): Option<int>
    requires i < |us|
  {
    var c := us[i].chatId;
    if IsRemoval(s, us[i]) && c in s.chats && !AskedToLeave(s, us, i, c) then Some(c) else None
  }

  ghost function Departures(s: ServerState, us: seq<Update>): seq<Option<int>> {
    seq(|us|, i requires 0 <= i < |us| => Departure(s, us, i))
  }

  lemma {:induction false} AskedInFront(s: ServerState, us: seq<Update>, n: nat, c: int)
    requires n < |us|
    ensures AskedToLeave(s, us, n, c) <==> AskedToLeave(s, us[..|us| - 1], n, c)
    ensures AskedToLeave(s, us, n + 1, c) <==> AskedToLeave(s, us, n, c) || (IsRemoval(s, us[n]) && us[n].chatId == c)
  {
    var front := us[..|us| - 1];
    assert forall i :: 0 <= i < |front| ==> front[i] == us[i];
  }

  /** The loop deletes exactly the registered chats that freshly asked to leave, and changes no name. */
  lemma {:induction false} ChatsAfterFold(s: ServerState, us: seq<Update>)
    ensures forall c :: c in Fold(s, us).chats <==> c in s.chats && !AskedToLeave(s, us, |us|, c)
    ensures forall c :: c in Fold(s, us).chats ==> Fold(s, us).chats[c] == s.chats[c]
  {
    if us != [] {
      ChatsAfterFold(s, us[..|us| - 1]);
      forall c ensures AskedToLeave(s, us, |us|, c) <==>
        AskedToLeave(s, us[..|us| - 1], |us| - 1, c) || (IsRemoval(s, us[|us| - 1]) && us[|us| - 1].chatId == c)
      {
        AskedInFront(s, us, |us| - 1, c);
      }
    }
  }

  /** The one removal that is sent is the last departure; there is one exactly when somebody left. */
  lemma {:induction false} RemovalIsLastDeparture(s: ServerState, us: seq<Update>)
    ensures Fold(s, us).removal == LastSome(Departures(s, us))
  {
    if us != [] {
      var n := |us| - 1;
      var front := us[..n];
      RemovalIsLastDeparture(s, front);
      ChatsAfterFold(s, front);
      forall i, c | 0 <= i <= n ensures AskedToLeave(s, us, i, c) <==> AskedToLeave(s, front, i, c) {
        AskedInFront(s, us, i, c);
      }
      assert Departures(s, us)[..n] == Departures(s, front);
    }
  }

  // ----- who joins -----

  /** The update registers its chat: it says something under a name, is no fresh "remove me", and the chat
      is not registered or has just left. Its date does not matter. */
  ghost predicate Joins(s: ServerState, us: seq<Update>, i: nat)
    requires i < |us|
  {
    Registers(s, us[i]) && (us[i].chatId in s.chats ==> AskedToLeave(s, us, i, us[i].chatId))
  }

  /** Some update of the poll registers chat `c`. */
  ghost predicate Joined(s: ServerState, us: seq<Update>, c: int) {
    exists i :: 0 <= i < |us| && us[i].chatId == c && Joins(s, us, i)
  }

  /** The name under which the update registers chat `c`. */
  ghost function NameJoined(s: ServerState, us: seq<Update>, i: nat, c: int): Option<string>
    requires i < |us|
  {
    if us[i].chatId == c && Joins(s, us, i) then Some(us[i].firstName) else None
  }

  ghost function NamesJoined(s: ServerState, us: seq<Update>, c: int): seq<Option<string>> {
    seq(|us|, i requires 0 <= i < |us| => NameJoined(s, us, i, c))
  }

  lemma {:induction false} NamesInFront(s: ServerState, us: seq<Update>, c: int)
    requires us != []
    ensures NamesJoined(s, us, c)[..|us| - 1] == NamesJoined(s, us[..|us| - 1], c)
  {
    var n := |us| - 1;
    var front := us[..n];
    forall i, d | 0 <= i <= n ensures AskedToLeave(s, us, i, d) <==> AskedToLeave(s, front, i, d) {
      AskedInFront(s, us, i, d);
    }
  }

  /** The added chats are exactly those that joined, each under the last name it joined with. */
  lemma {:induction false} AddedAreJoined(s: ServerState, us: seq<Update>, c: int)
    ensures Lookup(Fold(s, us).added, c) == LastSome(NamesJoined(s, us, c))
    ensures DistinctKeys(Fold(s, us).added)
  {
    if us != [] {
      var n := |us| - 1;
      var front, u := us[..n], us[n];
      AddedAreJoined(s, front, c);
      ChatsAfterFold(s, front);
      NamesInFront(s, us, c);
      AskedInFront(s, us, n, u.chatId);
      PutLookup(Fold(s, front).added, Chat(u.chatId, u.firstName), c);
      PutDistinct(Fold(s, front).added, Chat(u.chatId, u.firstName));
    }
  }

  /** The update is the first that registers chat `c`. */
  ghost predicate IsFirstJoin(s: ServerState, us: seq<Update>, c: int, k: nat) {
    && k < |us| && us[k].chatId == c && Joins(s, us, k)
    && forall m :: 0 <= m < k && us[m].chatId == c ==> !Joins(s, us, m)
  }

  lemma {:induction false} JoinsInFront(s: ServerState, us: seq<Update>, k: nat)
    requires k + 1 < |us|
    ensures Joins(s, us, k) <==> Joins(s, us[..|us| - 1], k)
  {
    AskedInFront(s, us, k, us[k].chatId);
  }

  lemma {:induction false} FirstJoinInFront(s: ServerState, us: seq<Update>, c: int, k: nat)
    requires us != [] && IsFirstJoin(s, us[..|us| - 1], c, k)
    ensures IsFirstJoin(s, us, c, k)
  {
    forall m | 0 <= m <= k ensures Joins(s, us, m) <==> Joins(s, us[..|us| - 1], m) {
      JoinsInFront(s, us, m);
    }
  }

  /** A chat that is not added yet has not joined yet. */
  lemma {:induction false} NotAdded(s: ServerState, us: seq<Update>, c: int)
    requires forall x :: x in Fold(s, us).added ==> x.id != c
    ensures forall m :: 0 <= m < |us| && us[m].chatId == c ==> !Joins(s, us, m)
  {
    AddedAreJoined(s, us, c);
    LookupIsMember(Fold(s, us).added, c);
    LastSomeIsLast(NamesJoined(s, us, c));
    forall m | 0 <= m < |us| && us[m].chatId == c ensures !Joins(s, us, m) {
      assert NamesJoined(s, us, c)[m].None?;
    }
  }

  lemma {:induction false} LastIsFirstJoin(s: ServerState, us: seq<Update>)
    requires us != [] && Joins(s, us, |us| - 1)
    requires forall x :: x in Fold(s, us[..|us| - 1]).added ==> x.id != us[|us| - 1].chatId
    ensures IsFirstJoin(s, us, us[|us| - 1].chatId, |us| - 1)
  {
    var n := |us| - 1;
    NotAdded(s, us[..n], us[n].chatId);
    forall m | 0 <= m < n && us[m].chatId == us[n].chatId ensures !Joins(s, us, m) {
      JoinsInFront(s, us, m);
      assert us[..n][m] == us[m];
    }
  }

  /** The updates at which the added chats joined first, in the order of the added chats. */
  ghost predicate AreFirstJoins(s: ServerState, us: seq<Update>, at: seq<nat>) {
    && |at| == |Fold(s, us).added|
    && (forall i :: 0 <= i < |at| ==> IsFirstJoin(s, us, Fold(s, us).added[i].id, at[i]))
    && forall i, j :: 0 <= i < j < |at| ==> at[i] < at[j]
  }

  /** Whether the last update adds its chat, in terms of the loop and of who joins. */
  lemma {:induction false} LastStep(s: ServerState, us: seq<Update>)
    requires us != []
    ensures var n := |us| - 1; var t := Fold(s, us[..n]);
      Fold(s, us).added == if Joins(s, us, n) then Put(t.added, Chat(us[n].chatId, us[n].firstName)) else t.added
  {
    var n := |us| - 1;
    ChatsAfterFold(s, us[..n]);
    AskedInFront(s, us, n, us[n].chatId);
  }

  lemma {:induction false} StillFirstJoins(s: ServerState, us: seq<Update>, at: seq<nat>)
    requires us != [] && AreFirstJoins(s, us[..|us| - 1], at)
    requires |Fold(s, us).added| >= |at|
    requires forall i :: 0 <= i < |at| ==> Fold(s, us).added[i].id == Fold(s, us[..|us| - 1]).added[i].id
    ensures forall i :: 0 <= i < |at| ==> IsFirstJoin(s, us, Fold(s, us).added[i].id, at[i])
  {
    forall i | 0 <= i < |at| ensures IsFirstJoin(s, us, Fold(s, us).added[i].id, at[i]) {
      FirstJoinInFront(s, us, Fold(s, us).added[i].id, at[i]);
    }
  }

  lemma {:induction false} ExistingKeys(before: seq<Chat<int>>, chat: Chat<int>)
    requires DistinctKeys(before) && exists x :: x in before && x.id == chat.id
    ensures |Put(before, chat)| == |before|
    ensures forall i :: 0 <= i < |before| ==> Put(before, chat)[i].id == before[i].id
  {
    var x :| x in before && x.id == chat.id;
    var k :| 0 <= k < |before| && before[k] == x;
    PutExisting(before, chat, k);
  }

  /** The added chats stand in the order in which they joined first, although a later text can change the name. */
  lemma {:induction false} AddedInOrder(s: ServerState, us: seq<Update>) returns (at: seq<nat>)
    ensures AreFirstJoins(s, us, at)
  {
    at := [];
    if us != [] {
      var n := |us| - 1;
      at := AddedInOrder(s, us[..n]);
      LastStep(s, us);
      if Joins(s, us, n) {
        at := JoinInOrder(s, us, at);
      } else {
        StillFirstJoins(s, us, at);
      }
    }
  }

  lemma {:induction false} JoinInOrder(s: ServerState, us: seq<Update>, at: seq<nat>) returns (now: seq<nat>)
    requires us != [] && AreFirstJoins(s, us[..|us| - 1], at) && Joins(s, us, |us| - 1)
    ensures AreFirstJoins(s, us, now)
  {
    var before, c := Fold(s, us[..|us| - 1]).added, us[|us| - 1].chatId;
    if exists x :: x in before && x.id == c {
      OldJoinInOrder(s, us, at);
      now := at;
    } else {
      NewJoinInOrder(s, us, at);
      now := at + [|us| - 1];
    }
  }

  lemma {:induction false} OldJoinInOrder(s: ServerState, us: seq<Update>, at: seq<nat>)
    requires us != [] && AreFirstJoins(s, us[..|us| - 1], at) && Joins(s, us, |us| - 1)
    requires exists x :: x in Fold(s, us[..|us| - 1]).added && x.id == us[|us| - 1].chatId
    ensures AreFirstJoins(s, us, at)
  {
    var n := |us| - 1;
    LastStep(s, us);
    AddedAreJoined(s, us[..n], us[n].chatId);
    ExistingKeys(Fold(s, us[..n]).added, Chat(us[n].chatId, us[n].firstName));
    StillFirstJoins(s, us, at);
  }

  lemma {:induction false} BeforeLast(s: ServerState, us: seq<Update>, at: seq<nat>)
    requires us != [] && AreFirstJoins(s, us[..|us| - 1], at)
    ensures forall i :: 0 <= i < |at| ==> at[i] < |us| - 1
  {
    assert forall i :: 0 <= i < |at| ==> IsFirstJoin(s, us[..|us| - 1], Fold(s, us[..|us| - 1]).added[i].id, at[i]);
  }

  lemma {:induction false} AppendInOrder(s: ServerState, us: seq<Update>, before: seq<Chat<int>>, chat: Chat<int>,
                                         at: seq<nat>, n: nat)
    requires Fold(s, us).added == before + [chat] && |at| == |before|
    requires forall i :: 0 <= i < |at| ==> IsFirstJoin(s, us, before[i].id, at[i]) && at[i] < n
    requires IsFirstJoin(s, us, chat.id, n) && forall i, j :: 0 <= i < j < |at| ==> at[i] < at[j]
    ensures AreFirstJoins(s, us, at + [n])
  {
    var now, added := at + [n], before + [chat];
    forall i | 0 <= i < |now| ensures IsFirstJoin(s, us, added[i].id, now[i]) {
    }
  }

  lemma {:induction false} NewJoinInOrder(s: ServerState, us: seq<Update>, at: seq<nat>)
    requires us != [] && AreFirstJoins(s, us[..|us| - 1], at) && Joins(s, us, |us| - 1)
    requires forall x :: x in Fold(s, us[..|us| - 1]).added ==> x.id != us[|us| - 1].chatId
    ensures AreFirstJoins(s, us, at + [|us| - 1])
  {
    var n := |us| - 1;
    var before, chat := Fold(s, us[..n]).added, Chat(us[n].chatId, us[n].firstName);
    LastStep(s, us);
    PutNew(before, chat);
    StillFirstJoins(s, us, at);
    BeforeLast(s, us, at);
    LastIsFirstJoin(s, us);
    AppendInOrder(s, us, before, chat, at, n);
  }
}
