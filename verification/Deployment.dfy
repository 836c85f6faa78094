/** From the saved list to the running board: the list written by the script is what the firmware starts with. */
module Deployment {
  import opened Text
  import opened ChatTable
  import opened Commands
  import opened Delivery
  import opened Dictionaries
  import opened ChatList
  import UpdateServer
  import Lockstep

  /** The chats in the first slots, in order, and holes behind them. */
  function TableWith(chats: seq<Chat<string>>): (t: seq<Slot>)
    ensures |t| == MAX_CHAT_IDS
  {
    seq(MAX_CHAT_IDS, i requires 0 <= i => if i < |chats| then Slot(chats[i].name, chats[i].id) else HOLE)
  }

  /** The table holds these chats whole, from slot zero on, each of them live, and nothing else. */
  predicate Holds(t: seq<Slot>, chats: seq<Chat<string>>) {
    |chats| <= MAX_CHAT_IDS && t == TableWith(chats) && forall i :: 0 <= i < |chats| ==> chats[i].id != ""
  }

  /** The list's chats fit the table's fields. */
  predicate FitFields(d: seq<Chat<string>>) {
    forall i :: 0 <= i < |d| ==> |d[i].name| <= 14 && 0 < |d[i].id| <= 11
  }

  /** The chats fit the table, and their list fits the firmware's copy of it. */
  predicate FitsBoard(d: seq<Chat<string>>) {
    |d| <= 10 && FitFields(d) && |Save(d)| <= 129
  }

  ghost predicate IsList(d: seq<Chat<string>>) {
    DistinctKeys(d) && HaveListIds(d) && HaveListNames(d)
  }

  function SavedChats(d: seq<Chat<string>>): seq<Chat<string>> {
    ParseChats(Sort(Format(d)))
  }

  lemma {:induction false} SameFields(a: seq<Chat<string>>, b: seq<Chat<string>>)
    requires FitFields(a) && forall c :: c in b ==> c in a
    ensures FitFields(b)
  {
    forall i | 0 <= i < |b| ensures |b[i].name| < CHAT_NAME_LENGTH && 0 < |b[i].id| < CHAT_ID_LENGTH {
      assert b[i] in a;
      var k :| 0 <= k < |a| && a[k] == b[i];
    }
  }

  lemma {:induction false} SavedFields(d: seq<Chat<string>>)
    requires IsList(d)
    ensures FitFields(SavedChats(d)) <==> FitFields(d)
  {
    SavedOrder(d);
    if FitFields(d) {
      SameFields(d, SavedChats(d));
    } else if FitFields(SavedChats(d)) {
      SameFields(SavedChats(d), d);
    }
  }

  // ----- a list that is not cut -----

  lemma {:induction false} EntryIsStored(c: Chat<string>)
    requires ',' !in c.id && ',' !in c.name && ':' !in c.name
    ensures InitialSlot(c.name + ":" + c.id) == Slot(Fit(c.name, CHAT_NAME_LENGTH), Fit(c.id, CHAT_ID_LENGTH))
  {
    EntryParses(c);
  }

  lemma {:induction false} EntriesAreStored(l: seq<Chat<string>>)
    requires HaveListIds(l) && HaveListNames(l)
    ensures AllFree(Format(l), ',') && "" !in Format(l) && |Format(l)| == |l|
    ensures forall i :: 0 <= i < |l| ==>
      InitialSlot(Format(l)[i]) == Slot(Fit(l[i].name, CHAT_NAME_LENGTH), Fit(l[i].id, CHAT_ID_LENGTH))
  {
    FormatMembers(l);
    forall i | 0 <= i < |l|
      ensures ',' !in Format(l)[i] && Format(l)[i] != ""
      ensures InitialSlot(Format(l)[i]) == Slot(Fit(l[i].name, CHAT_NAME_LENGTH), Fit(l[i].id, CHAT_ID_LENGTH))
    {
      EntryParses(l[i]);
      EntryIsStored(l[i]);
    }
  }

  lemma {:induction false} ShortListIsRead(l: seq<Chat<string>>)
    requires HaveListIds(l) && HaveListNames(l) && |Join(Format(l), ',')| < CHAT_IDS_COPY_SIZE
    ensures Holds(InitialTable(Join(Format(l), ',')), l) <==> |l| <= MAX_CHAT_IDS && FitFields(l)
  {
    var entries := Format(l);
    EntriesAreStored(l);
    TokensOfJoin(entries, ',');
    if |l| <= MAX_CHAT_IDS {
      assert EntriesRead(Join(entries, ',')) == entries;
      TableHolds(entries, l);
    }
  }

  lemma {:induction false} TableHolds(entries: seq<string>, l: seq<Chat<string>>)
    requires |entries| == |l| <= MAX_CHAT_IDS
    requires forall i :: 0 <= i < |l| ==>
      InitialSlot(entries[i]) == Slot(Fit(l[i].name, CHAT_NAME_LENGTH), Fit(l[i].id, CHAT_ID_LENGTH))
    ensures Holds(TableOf(entries), l) <==> FitFields(l)
  {
    assert forall i :: 0 <= i < |l| ==> TableOf(entries)[i] == InitialSlot(entries[i]);
    assert forall i :: 0 <= i < |l| ==> TableWith(l)[i] == Slot(l[i].name, l[i].id);
  }

  // ----- a list that is cut -----

  lemma {:induction false} TokensOfFree(s: string, c: char)
    requires c !in s
    ensures Tokens(s, c) == if s == "" then [] else [s]
  {
    TokensAreNonEmptyPieces(s, c);
  }

  /** A join cut short has fewer tokens, or its last one is cut short. */
  lemma {:induction false} CutJoin(parts: seq<string>, c: char, k: nat)
    requires AllFree(parts, c) && "" !in parts && k < |Join(parts, c)|
    ensures var tokens := Tokens(Join(parts, c)[..k], c);
      |tokens| < |parts| ||
      (|tokens| == |parts| && var n := |parts| - 1; tokens[n] != "" && tokens[n] < parts[n])
  {
    var s := Join(parts, c)[..k];
    var first := |parts[0]|;
    if |parts| == 1 || k <= first {
      assert s == parts[0][..k];
      TokensOfFree(s, c);
    } else {
      var rest := Join(parts[1..], c)[..k - first - 1];
      CutJoin(parts[1..], c, k - first - 1);
      assert s == parts[0] + [c] + rest;
      TokensOfCons(parts[0], rest, c);
    }
  }

  lemma {:induction false} TokensOfCons(first: string, rest: string, c: char)
    requires first != "" && c !in first
    ensures Tokens(first + [c] + rest, c) == [first] + Tokens(rest, c)
  {
    var s := first + [c] + rest;
    assert s[|first|] == c;
    assert Find(s, c) == |first|;
    assert s[..|first|] == first && s[|first|..] == [c] + rest;
    assert s[|first|..][1..] == rest;
  }

  /** An entry cut short is not stored as its chat. */
  lemma {:induction false} CutEntry(token: string, chat: Chat<string>)
    requires token != "" && token < chat.name + ":" + chat.id && ':' !in chat.name
    ensures InitialSlot(token) != Slot(chat.name, chat.id)
  {
    var entry := chat.name + ":" + chat.id;
    assert entry[|chat.name|] == ':';
    var colon := Find(token, ':');
    assert forall i :: 0 <= i < |token| ==> token[i] == entry[i];
    if colon < |token| {
      assert colon == |chat.name|;
      assert |token[colon + 1..]| < |chat.id|;
    } else {
      assert |token| <= |chat.name|;
    }
  }

  lemma {:induction false} CutListIsNotRead(l: seq<Chat<string>>)
    requires HaveListIds(l) && HaveListNames(l) && |Join(Format(l), ',')| >= CHAT_IDS_COPY_SIZE
    ensures !Holds(InitialTable(Join(Format(l), ',')), l)
  {
    var entries, n := Format(l), |l| - 1;
    var list := Join(entries, ',');
    FormatMembers(l);
    forall i | 0 <= i < |l| ensures ',' !in entries[i] && entries[i] != "" {
      EntryParses(l[i]);
    }
    CutJoin(entries, ',', CHAT_IDS_COPY_SIZE - 1);
    if Holds(InitialTable(list), l) {
      var tokens := Tokens(Fit(list, CHAT_IDS_COPY_SIZE), ',');
      assert InitialTable(list)[n] == Slot(l[n].name, l[n].id);
      if |tokens| == |l| {
        CutEntry(tokens[n], l[n]);
      }
      assert false;
    }
  }

  /** The list the script saves is read back by `config_init` as exactly its chats, in sorted order from slot
      zero with holes behind, if and only if it has at most ten chats, each fits the fields of a slot, and the
      whole list fits the 129 characters of the firmware's copy. */
  lemma {:induction false} ListIsRead(d: seq<Chat<string>>)
    requires IsList(d)
    ensures Holds(InitialTable(Save(d)), SavedChats(d)) <==> FitsBoard(d)
  {
    SavedOrder(d);
    SavedFields(d);
    var l := SavedChats(d);
    assert forall i :: 0 <= i < |l| ==> l[i] in d;
    if |Save(d)| < CHAT_IDS_COPY_SIZE {
      ShortListIsRead(l);
    } else {
      CutListIsNotRead(l);
    }
  }

  // ----- the length of a saved list -----

  lemma {:induction false} InsertLength(x: string, xs: seq<string>)
    ensures TotalLength(Insert(x, xs)) == |x| + TotalLength(xs) && |Insert(x, xs)| == |xs| + 1
  {
    if xs != [] && !Leq(x, xs[0]) {
      InsertLength(x, xs[1..]);
    }
  }

  lemma {:induction false} SortLength(xs: seq<string>)
    ensures TotalLength(Sort(xs)) == TotalLength(xs) && |Sort(xs)| == |xs|
  {
    if xs != [] {
      SortLength(xs[1..]);
      InsertLength(xs[0], Sort(xs[1..]));
    }
  }

  function LongNamed(i: nat): Chat<string>
    requires i < 5
  {
    Chat(seq(11, _ => '1' + i as char), seq(14, _ => 'a' + i as char))
  }

  /** Five chats with long first names: each fits a slot, and yet the list is too long for the copy. */
  lemma {:induction false} FiveLongNamesAreCut() returns (d: seq<Chat<string>>)
    ensures IsList(d) && |d| == 5 && FitFields(d)
    ensures !Holds(InitialTable(Save(d)), SavedChats(d))
  {
    d := seq(5, i requires 0 <= i < 5 => LongNamed(i));
    forall i, j | 0 <= i < j < 5 ensures d[i].id != d[j].id {
      assert LongNamed(i).id[0] != LongNamed(j).id[0];
    }
    SavedLength(d, 26);
    ListIsRead(d);
  }

  lemma {:induction false} SavedLength(d: seq<Chat<string>>, n: nat)
    requires d != [] && forall i :: 0 <= i < |d| ==> |d[i].name| + 1 + |d[i].id| == n
    ensures |Save(d)| == n * |d| + |d| - 1
  {
    FormatMembers(d);
    EqualLengths(Format(d), n);
    SortLength(Format(d));
    JoinLength(Sort(Format(d)), ',');
  }

  lemma {:induction false} EqualLengths(xs: seq<string>, n: nat)
    requires forall i :: 0 <= i < |xs| ==> |xs[i]| == n
    ensures TotalLength(xs) == n * |xs|
  {
    if xs != [] {
      EqualLengths(xs[1..], n);
    }
  }

  // ----- a healthy start -----

  ghost predicate HaveDistinctNames(d: seq<Chat<string>>) {
    forall a, b :: a in d && b in d && a.name == b.name ==> a.id == b.id
  }

  predicate AreNamed(d: seq<Chat<string>>) {
    forall i :: 0 <= i < |d| ==> d[i].name != ""
  }

  lemma {:induction false} TableEntries(l: seq<Chat<string>>)
    requires |l| <= MAX_CHAT_IDS && FitFields(l)
    ensures forall e :: e in Entries(TableWith(l)) <==> Chat(e.id, e.name) in l
  {
    var t := TableWith(l);
    forall e: Slot | Chat(e.id, e.name) in l ensures e in Entries(t) {
      var k :| 0 <= k < |l| && l[k] == Chat(e.id, e.name);
      assert t[k] == e;
    }
    forall e: Slot | e in Entries(t) ensures Chat(e.id, e.name) in l {
      var k :| 0 <= k < |t| && t[k] == e;
    }
  }

  lemma {:induction false} NamedIsSound(l: seq<Chat<string>>)
    requires |l| <= MAX_CHAT_IDS && FitFields(l) && DistinctKeys(l) && AreNamed(l) && HaveDistinctNames(l)
    ensures IsSound(TableWith(l))
  {
    var t := TableWith(l);
    TableEntries(l);
    forall j, k | 0 <= j < k < |t| && t[j].id != "" ensures t[j].id != t[k].id && t[j].name != t[k].name {
      if k < |l| {
        assert l[j] in l && l[k] in l;
      }
    }
    forall e | e in Entries(t) ensures WellSized(e.name, e.id) {
      var k :| 0 <= k < |t| && t[k] == e;
    }
  }

  lemma {:induction false} SoundIsNamed(l: seq<Chat<string>>)
    requires |l| <= MAX_CHAT_IDS && FitFields(l) && IsSound(TableWith(l))
    ensures AreNamed(l) && HaveDistinctNames(l)
  {
    var t := TableWith(l);
    assert forall i :: 0 <= i < |l| ==> t[i] == Slot(l[i].name, l[i].id);
    TableEntries(l);
    forall a, b | a in l && b in l && a.name == b.name ensures a.id == b.id {
      SameNameIsSame(t, Slot(a.name, a.id), Slot(b.name, b.id));
    }
  }

  lemma {:induction false} SameNameIsSame(t: seq<Slot>, a: Slot, b: Slot)
    requires Bijective(t) && a in Entries(t) && b in Entries(t) && a.name == b.name
    ensures a == b
  {
  }

  /** A board built with a list that fits, next to a freshly started server, which knows no chat yet, covers it
      and holds exactly the list's chats; the system is healthy, as the whole-run results need it, exactly when
      every chat of the list has a first name of its own. */
  lemma {:induction false} StartIsHealthy(d: seq<Chat<string>>, minutes: int, feedback: bool, password: string,
                                          startTime: int)
    requires IsList(d) && FitsBoard(d)
    ensures var y := Lockstep.System(
              UpdateServer.ServerState(password, startTime, map[], 2, None),
              Settings(minutes, feedback, InitialTable(Save(d))));
      && (Lockstep.IsHealthy(y) <==> AreNamed(d) && HaveDistinctNames(d))
      && Lockstep.IsCovered(y)
      && forall e :: e in Entries(y.board.table) <==> Chat(e.id, e.name) in d
  {
    var l := SavedChats(d);
    ListIsRead(d);
    SavedOrder(d);
    SavedFields(d);
    TableEntries(l);
    SameNames(d, l);
    if AreNamed(d) && HaveDistinctNames(d) {
      NamedIsSound(l);
    } else if IsSound(TableWith(l)) {
      SoundIsNamed(l);
    }
  }

  lemma {:induction false} SameNames(a: seq<Chat<string>>, b: seq<Chat<string>>)
    requires forall c :: c in a <==> c in b
    ensures AreNamed(a) && HaveDistinctNames(a) <==> AreNamed(b) && HaveDistinctNames(b)
  {
    assert forall i :: 0 <= i < |a| ==> a[i] in b;
    assert forall i :: 0 <= i < |b| ==> b[i] in a;
  }
}
