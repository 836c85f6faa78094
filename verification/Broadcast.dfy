/** Both directions together: whom a message of the board reaches when the board follows the server. */
module Broadcast {
  import opened Text
  import opened Decimal
  import opened ChatTable
  import opened Commands
  import opened Delivery
  import opened UpdateServer
  import opened PollRuns
  import opened Replication
  import opened Requests
  import opened Client
  import opened Lockstep
  import opened Mirror

  /** The ids the server sends the message to. */
  function Reached(m: Option<Message>): seq<string> {
    if m.Some? && m.value.Send? then m.value.chatIds else []
  }

  /** What the server makes of the board's message to everyone. */
  function BroadcastOf(t: seq<Slot>, url: string, token: string, message: string, header: string): Option<Message>
    requires |header| <= COAP_BUF_SIZE
  {
    Delivered(header, url, token, Join(LiveIds(t), ','), message)
  }

  /** Settings, text and header with which a broadcast of this table arrives. */
  predicate CanBroadcast(t: seq<Slot>, url: string, token: string, message: string, header: string) {
    AreCarried(url, token, message) && header != "" &&
    Fits(header, MessageForm(url, token, Join(LiveIds(t), ','), message))
  }

  lemma {:induction false} ReachedIds(t: seq<Slot>, url: string, token: string, message: string, header: string)
    requires Bijective(t) && IsIdList(LiveIds(t)) && CanBroadcast(t, url, token, message, header)
    ensures var reached := Reached(BroadcastOf(t, url, token, message, header));
      |reached| == |Ids(t)| && forall id :: id in reached <==> id in Ids(t)
  {
    BroadcastArrives(t, url, token, message, header);
    LiveIdsAreIds(t);
  }

  /** A broadcast reaches every registered chat exactly when the board is covered, and the registered chats alone,
      each once, exactly when it is in sync. */
  lemma {:induction false} BroadcastReaches(y: System, url: string, token: string, message: string, header: string)
    requires IsHealthy(y) && IsIdList(LiveIds(y.board.table))
    requires CanBroadcast(y.board.table, url, token, message, header)
    ensures var reached := Reached(BroadcastOf(y.board.table, url, token, message, header));
      && ((forall c :: c in y.server.chats ==> Dec(c) in reached) <==> IsCovered(y))
      && (|reached| == |y.server.chats| && (forall id :: id in reached <==> id in ChatIds(y.server)) <==> InSync(y))
  {
    var reached := Reached(BroadcastOf(y.board.table, url, token, message, header));
    ReachedIds(y.board.table, url, token, message, header);
    ListedIds(y, reached);
  }

  lemma {:induction false} ListedIds(y: System, ids: seq<string>)
    requires HasWellFormedChats(y.server)
    requires |ids| == |Ids(y.board.table)| && forall id :: id in ids <==> id in Ids(y.board.table)
    ensures (forall c :: c in y.server.chats ==> Dec(c) in ids) <==> IsCovered(y)
    ensures |ids| == |y.server.chats| && (forall id :: id in ids <==> id in ChatIds(y.server)) <==> InSync(y)
  {
    CountOfIds(y.server.chats.Keys);
    assert ChatIds(y.server) == set c | c in y.server.chats.Keys :: Dec(c);
  }

  lemma {:induction false} AnyOf<T>(s: set<T>) returns (x: T)
    requires s != {}
    ensures x in s
  {
    x :| x in s;
  }

  lemma {:induction false} CountOfIds(chats: set<int>)
    requires forall c :: c in chats ==> 0 < c
    ensures |set c | c in chats :: Dec(c)| == |chats|
  {
    if chats != {} {
      var c := AnyOf(chats);
      var rest := set d | d in chats - {c} :: Dec(d);
      CountOfIds(chats - {c});
      forall d | d in chats - {c} ensures Dec(d) != Dec(c) {
        if Dec(d) == Dec(c) {
          DecIsInjective(d, c);
        }
      }
      assert (set d | d in chats :: Dec(d)) == rest + {Dec(c)};
    }
  }

  lemma {:induction false} InSyncIdsAreCarried(y: System)
    requires IsHealthy(y) && InSync(y)
    ensures IsIdList(LiveIds(y.board.table))
  {
    var ids := LiveIds(y.board.table);
    LiveIdsAreIds(y.board.table);
    forall i | 0 <= i < |ids| ensures IsId(ids[i]) {
      assert ids[i] in Ids(y.board.table);
      var c :| c in y.server.chats && Dec(c) == ids[i];
      DecIsId(c);
    }
  }

  /** After any orderly run with clean removals, started in sync, a broadcast reaches exactly the chats then
      registered, each once. */
  lemma {:induction false} BroadcastAfterRun(y: System, run: seq<PollInput>, url: string, token: string,
                                             message: string, header: string)
    requires IsHealthy(y) && InSync(y) && IsOrderly(y, run) && AllRemovalsAreClean(y, run)
    requires CanBroadcast(AfterRun(y, run).board.table, url, token, message, header)
    ensures var chats := AfterRun(y, run).server.chats;
            var reached := Reached(BroadcastOf(AfterRun(y, run).board.table, url, token, message, header));
      |reached| == |chats| && forall id :: id in reached <==> exists c :: c in chats && Dec(c) == id
  {
    var last := AfterRun(y, run);
    ConservingRun(y, run);
    SyncRun(y, run);
    EndsInSync(y, run);
    InSyncIdsAreCarried(last);
    BroadcastReaches(last, url, token, message, header);
  }

  lemma {:induction false} EndsInSync(y: System, run: seq<PollInput>)
    requires StaysInSync(y, run)
    ensures InSync(AfterRun(y, run))
    decreases |run|
  {
    if run != [] {
      EndsInSync(Cycle(y, run[0].updates, run[0].now), run[1..]);
    }
  }

  /** After any orderly run in which no sent removal comes back, started mirrored, a message to a registered chat's
      name reaches that chat and no other. */
  lemma {:induction false} NamedMessageAfterRun(y: System, run: seq<PollInput>, c: int, url: string, token: string,
                                                message: string, header: string)
    requires IsHealthy(y) && IsMirrored(y) && IsOrderly(y, run) && LastDeparturesAreClean(y, run)
    requires c in AfterRun(y, run).server.chats && AfterRun(y, run).server.chats[c] != "all"
    requires AreCarried(url, token, message) && header != "" && Fits(header, MessageForm(url, token, Dec(c), message))
    ensures var ids := Recipients(AfterRun(y, run).board.table, AfterRun(y, run).server.chats[c]);
      ids.Some? && Reached(Delivered(header, url, token, ids.value, message)) == [Dec(c)]
  {
    var last := AfterRun(y, run);
    ConservingRun(y, run);
    MirroredRun(y, run);
    EndsMirrored(y, run);
    assert Slot(last.server.chats[c], Dec(c)) in ChatSlots(last.server);
    DecIsId(c);
    NamedMessageArrives(last.board.table, Slot(last.server.chats[c], Dec(c)), url, token, message, header);
  }

  lemma {:induction false} EndsMirrored(y: System, run: seq<PollInput>)
    requires StaysMirrored(y, run)
    ensures IsMirrored(AfterRun(y, run))
    decreases |run|
  {
    if run != [] {
      EndsMirrored(Cycle(y, run[0].updates, run[0].now), run[1..]);
    }
  }
}
