/** What the chats and the removal of one server message do to the board's table. */
module Delivery {
  import opened Text
  import opened ChatTable

  function SetAll(t: seq<Slot>, chats: seq<Slot>): seq<Slot>
    decreases |chats|
  {
    if chats == [] then t else SetAll(SetChat(t, chats[0].name, chats[0].id), chats[1..])
  }

  function DropAny(t: seq<Slot>, removal: Option<string>): seq<Slot> {
    if removal.Some? then RemoveChat(t, removal.value) else t
  }

  function Apply(t: seq<Slot>, chats: seq<Slot>, removal: Option<string>): seq<Slot> {
    DropAny(SetAll(t, chats), removal)
  }

  // ----- the hypothesis on names -----

  ghost function SlotSet(chats: seq<Slot>): set<Slot> {
    set s | s in chats
  }

  /** No name belongs to two ids. */
  ghost predicate NoSharedNames(slots: set<Slot>) {
    forall a, b :: a in slots && b in slots && a.name == b.name ==> a.id == b.id
  }

  /** A bijective table whose live slots fit their fields. */
  ghost predicate IsSound(t: seq<Slot>) {
    Bijective(t) && forall e :: e in Entries(t) ==> WellSized(e.name, e.id)
  }

  /** Between the live slots and the chats of one message no name belongs to two ids, and none is the removed id. */
  ghost predicate AreCompatible(t: seq<Slot>, chats: seq<Slot>, removal: Option<string>) {
    var all := Entries(t) + SlotSet(chats);
    && (forall s :: s in chats ==> WellSized(s.name, s.id))
    && NoSharedNames(all)
    && (removal.Some? ==> removal.value != "" && forall s :: s in all ==> s.name != removal.value)
  }

  /** The same hypothesis with a witness: the one id each name belongs to. */
  ghost predicate OwnedSlot(s: Slot, owner: map<string, string>) {
    WellSized(s.name, s.id) && s.name in owner && owner[s.name] == s.id
  }

  ghost predicate Owned(t: seq<Slot>, owner: map<string, string>) {
    Bijective(t) && forall k :: 0 <= k < |t| && t[k].id != "" ==> OwnedSlot(t[k], owner)
  }

  ghost predicate AllOwned(chats: seq<Slot>, owner: map<string, string>) {
    forall i :: 0 <= i < |chats| ==> OwnedSlot(chats[i], owner)
  }

  lemma {:induction false} HasOwners(t: seq<Slot>, chats: seq<Slot>, removal: Option<string>)
    returns (owner: map<string, string>)
    requires IsSound(t) && AreCompatible(t, chats, removal)
    ensures Owned(t, owner) && AllOwned(chats, owner)
  {
    var all := Entries(t) + SlotSet(chats);
    owner := map s | s in all :: s.name := s.id;
    assert forall s :: s in all ==> s.name in owner && owner[s.name] == s.id;
    assert forall k :: 0 <= k < |t| && t[k].id != "" ==> t[k] in all;
    assert forall i :: 0 <= i < |chats| ==> chats[i] in all;
  }

  lemma {:induction false} OwnedIsSound(t: seq<Slot>, owner: map<string, string>)
    requires Owned(t, owner)
    ensures IsSound(t)
  {
    forall e | e in Entries(t) ensures WellSized(e.name, e.id) {
      var k :| 0 <= k < |t| && t[k] == e;
    }
  }

  ghost function IdsOf(chats: seq<Slot>): set<string> {
    set i | 0 <= i < |chats| :: chats[i].id
  }

  ghost predicate DistinctIds(chats: seq<Slot>) {
    forall i, j :: 0 <= i < j < |chats| ==> chats[i].id != chats[j].id
  }

  // ----- one chat, one removal -----

  ghost function WithoutId(entries: set<Slot>, id: string): set<Slot> {
    set e | e in entries && e.id != id
  }

  lemma {:induction false} SetOwned(t: seq<Slot>, s: Slot, owner: map<string, string>)
    requires Owned(t, owner) && OwnedSlot(s, owner)
    ensures Owned(SetChat(t, s.name, s.id), owner)
    ensures s.id in Ids(t) || |Ids(t)| < |t| ==>
      Entries(SetChat(t, s.name, s.id)) == WithoutId(Entries(t), s.id) + {s}
    ensures s.id in Ids(t) || |Ids(t)| < |t| ==> Ids(SetChat(t, s.name, s.id)) == Ids(t) + {s.id}
    ensures s.id !in Ids(t) && |Ids(t)| == |t| ==> SetChat(t, s.name, s.id) == t
  {
    var u := SetChat(t, s.name, s.id);
    SetRefines(t, s.name, s.id);
    LiveCount(t);
    OwnedIsUncrossed(t, s, owner);
    assert forall k :: 0 <= k < |u| && u[k].id != "" ==> u[k] in Entries(u);
    SetEntryIds(t, s);
  }

  lemma {:induction false} OwnedIsUncrossed(t: seq<Slot>, s: Slot, owner: map<string, string>)
    requires Owned(t, owner) && OwnedSlot(s, owner)
    ensures Uncrossed(t, s.name, s.id)
    ensures (set e | e in Entries(t) && e.name != s.name && e.id != s.id) == WithoutId(Entries(t), s.id)
    ensures forall e :: e in Entries(t) ==> OwnedSlot(e, owner)
  {
    assert forall e :: e in Entries(t) ==> OwnedSlot(e, owner);
  }

  lemma {:induction false} SetEntryIds(t: seq<Slot>, s: Slot)
    ensures (set e | e in WithoutId(Entries(t), s.id) + {s} :: e.id) == Ids(t) + {s.id}
    ensures s.id in Ids(t) <==> WithoutId(Entries(t), s.id) != Entries(t)
  {
  }

  lemma {:induction false} SetWithRoom(t: seq<Slot>, s: Slot, owner: map<string, string>)
    requires Owned(t, owner) && OwnedSlot(s, owner)
    requires s.id in Ids(t) || |Ids(t)| < |t|
    ensures Owned(SetChat(t, s.name, s.id), owner) && Ids(SetChat(t, s.name, s.id)) == Ids(t) + {s.id}
    ensures s in Entries(SetChat(t, s.name, s.id))
    ensures forall e :: e in Entries(t) && e.id != s.id ==> e in Entries(SetChat(t, s.name, s.id))
  {
    SetOwned(t, s, owner);
    assert forall e :: e in Entries(t) && e.id != s.id ==> e in WithoutId(Entries(t), s.id);
  }

  lemma {:induction false} RemoveOwned(t: seq<Slot>, id: string, owner: map<string, string>)
    requires Owned(t, owner) && id != "" && forall e :: e in Entries(t) ==> e.name != id
    ensures Owned(RemoveChat(t, id), owner)
    ensures Entries(RemoveChat(t, id)) == WithoutId(Entries(t), id)
    ensures Ids(RemoveChat(t, id)) == Ids(t) - {id}
  {
    var u := RemoveChat(t, id);
    assert forall k :: 0 <= k < |t| && t[k].id != "" ==> t[k] in Entries(t);
    RemoveRefines(t, id);
    assert forall k :: 0 <= k < |u| && u[k].id != "" ==> u[k] in Entries(u);
  }

  // ----- all the chats of a message -----

  lemma {:induction false} IdsOfCons(chats: seq<Slot>)
    requires chats != []
    ensures IdsOf(chats) == {chats[0].id} + IdsOf(chats[1..])
  {
    assert forall i :: 1 <= i < |chats| ==> chats[i] == chats[1..][i - 1];
  }

  lemma {:induction false} SetAddsAtMost(t: seq<Slot>, s: Slot, owner: map<string, string>)
    requires Owned(t, owner) && OwnedSlot(s, owner)
    ensures Owned(SetChat(t, s.name, s.id), owner) && Entries(SetChat(t, s.name, s.id)) <= Entries(t) + {s}
  {
    LiveCount(t);
    SetOwned(t, s, owner);
  }

  lemma {:induction false} SetAllOwned(t: seq<Slot>, chats: seq<Slot>, owner: map<string, string>)
    requires Owned(t, owner) && AllOwned(chats, owner)
    ensures Owned(SetAll(t, chats), owner) && |SetAll(t, chats)| == |t|
    ensures Entries(SetAll(t, chats)) <= Entries(t) + SlotSet(chats)
    decreases |chats|
  {
    if chats != [] {
      SetAddsAtMost(t, chats[0], owner);
      SetAllOwned(SetChat(t, chats[0].name, chats[0].id), chats[1..], owner);
      assert forall s :: s in chats[1..] ==> s in chats;
    }
  }

  lemma {:induction false} SetAllWithRoom(t: seq<Slot>, chats: seq<Slot>, owner: map<string, string>, all: set<string>)
    requires Owned(t, owner) && AllOwned(chats, owner)
    requires all == Ids(t) + IdsOf(chats) && |all| <= |t|
    ensures Ids(SetAll(t, chats)) == all
    decreases |chats|
  {
    if chats != [] {
      SetFirst(t, chats, owner, all);
      SetAllWithRoom(SetChat(t, chats[0].name, chats[0].id), chats[1..], owner, all);
    }
  }

  lemma {:induction false} SetFirst(t: seq<Slot>, chats: seq<Slot>, owner: map<string, string>, all: set<string>)
    requires Owned(t, owner) && AllOwned(chats, owner) && chats != []
    requires all == Ids(t) + IdsOf(chats) && |all| <= |t|
    ensures var u := SetChat(t, chats[0].name, chats[0].id);
            Owned(u, owner) && all == Ids(u) + IdsOf(chats[1..]) && chats[0] in Entries(u) &&
            forall e :: e in Entries(t) && e.id != chats[0].id ==> e in Entries(u)
  {
    IdsOfCons(chats);
    HasRoomFor(t, chats[0].id, all);
    SetWithRoom(t, chats[0], owner);
  }

  lemma {:induction false} HasRoomFor(t: seq<Slot>, id: string, all: set<string>)
    requires Bijective(t) && Ids(t) + {id} <= all && |all| <= |t|
    ensures id in Ids(t) || |Ids(t)| < |t|
  {
    CardinalityOfSubset(Ids(t) + {id}, all);
  }

  /** When no name is shared, the table ends with exactly the old and the new ids if and only if they fit. */
  lemma {:induction false} SetAllExact(t: seq<Slot>, chats: seq<Slot>)
    requires IsSound(t) && AreCompatible(t, chats, None)
    ensures Ids(SetAll(t, chats)) == Ids(t) + IdsOf(chats) <==> |Ids(t) + IdsOf(chats)| <= |t|
  {
    var owner := HasOwners(t, chats, None);
    SetAllOwned(t, chats, owner);
    LiveCount(SetAll(t, chats));
    if |Ids(t) + IdsOf(chats)| <= |t| {
      SetAllWithRoom(t, chats, owner, Ids(t) + IdsOf(chats));
    }
  }

  /** Applying a message with room: the ids afterwards are the old and the new ones without the removed one. */
  lemma {:induction false} ApplyExact(t: seq<Slot>, chats: seq<Slot>, removal: Option<string>)
    requires IsSound(t) && AreCompatible(t, chats, removal)
    requires |Ids(t) + IdsOf(chats)| <= |t|
    ensures IsSound(Apply(t, chats, removal)) && |Apply(t, chats, removal)| == |t|
    ensures Ids(Apply(t, chats, removal)) ==
      Ids(t) + IdsOf(chats) - (if removal.Some? then {removal.value} else {})
  {
    var owner := HasOwners(t, chats, removal);
    SetAllOwned(t, chats, owner);
    SetAllWithRoom(t, chats, owner, Ids(t) + IdsOf(chats));
    if removal.Some? {
      RemoveOwned(SetAll(t, chats), removal.value, owner);
    }
    OwnedIsSound(Apply(t, chats, removal), owner);
  }

  // ----- applying a message twice -----

  lemma {:induction false} SetPresent(t: seq<Slot>, s: Slot)
    requires Bijective(t) && s in Entries(t) && WellSized(s.name, s.id)
    ensures SetChat(t, s.name, s.id) == t
  {
    var k :| 0 <= k < |t| && t[k] == s;
    assert s.name != "";
    assert FirstMatch(t, s.name, s.id) == k;
  }

  lemma {:induction false} SetAllPresent(t: seq<Slot>, chats: seq<Slot>)
    requires Bijective(t)
    requires forall i :: 0 <= i < |chats| ==> chats[i] in Entries(t) && WellSized(chats[i].name, chats[i].id)
    ensures SetAll(t, chats) == t
    decreases |chats|
  {
    if chats != [] {
      SetPresent(t, chats[0]);
      SetAllPresent(t, chats[1..]);
    }
  }

  /** After a message with room, every chat it carries sits in the table under the name it carries. */
  lemma {:induction false} AllPresent(t: seq<Slot>, chats: seq<Slot>, owner: map<string, string>)
    requires Owned(t, owner) && AllOwned(chats, owner) && DistinctIds(chats)
    requires |Ids(t) + IdsOf(chats)| <= |t|
    ensures forall i :: 0 <= i < |chats| ==> chats[i] in Entries(SetAll(t, chats))
    ensures forall e :: e in Entries(t) && e.id !in IdsOf(chats) ==> e in Entries(SetAll(t, chats))
    decreases |chats|
  {
    if chats != [] {
      var u, rest := SetChat(t, chats[0].name, chats[0].id), chats[1..];
      SetFirst(t, chats, owner, Ids(t) + IdsOf(chats));
      IdsOfCons(chats);
      FirstIdIsNew(chats);
      AllPresent(u, rest, owner);
      forall i | 0 <= i < |chats| ensures chats[i] in Entries(SetAll(t, chats)) {
        assert i > 0 ==> chats[i] == rest[i - 1];
      }
    }
  }

  /** The live slots after a message: the chats it carries, the old ones with other ids, without the removed. */
  ghost function Merged(entries: set<Slot>, chats: seq<Slot>, removal: Option<string>): set<Slot> {
    set e | e in entries + SlotSet(chats) && (e in chats || e.id !in IdsOf(chats)) && removal != Some(e.id)
  }

  lemma {:induction false} SetAllEntries(t: seq<Slot>, chats: seq<Slot>, owner: map<string, string>)
    requires Owned(t, owner) && AllOwned(chats, owner) && DistinctIds(chats)
    requires |Ids(t) + IdsOf(chats)| <= |t|
    ensures Entries(SetAll(t, chats)) == Merged(Entries(t), chats, None)
  {
    var u := SetAll(t, chats);
    AllPresent(t, chats, owner);
    SetAllOwned(t, chats, owner);
    forall e | e in Entries(u) && e.id in IdsOf(chats) ensures e in chats {
      var i :| 0 <= i < |chats| && chats[i].id == e.id;
      SameIdIsSame(u, e, chats[i]);
    }
    forall e | e in chats ensures e in Entries(u) {
      var i :| 0 <= i < |chats| && chats[i] == e;
    }
  }

  lemma {:induction false} SameIdIsSame(t: seq<Slot>, a: Slot, b: Slot)
    requires Bijective(t) && a in Entries(t) && b in Entries(t) && a.id == b.id
    ensures a == b
  {
  }

  /** Applying a message with room: the live slots afterwards, names and ids. */
  lemma {:induction false} ApplyEntries(t: seq<Slot>, chats: seq<Slot>, removal: Option<string>)
    requires IsSound(t) && AreCompatible(t, chats, removal) && DistinctIds(chats)
    requires |Ids(t) + IdsOf(chats)| <= |t|
    ensures Entries(Apply(t, chats, removal)) == Merged(Entries(t), chats, removal)
  {
    var owner := HasOwners(t, chats, removal);
    SetAllOwned(t, chats, owner);
    SetAllEntries(t, chats, owner);
    if removal.Some? {
      RemoveOwned(SetAll(t, chats), removal.value, owner);
    }
  }

  lemma {:induction false} FirstIdIsNew(chats: seq<Slot>)
    requires chats != [] && DistinctIds(chats)
    ensures chats[0].id !in IdsOf(chats[1..])
  {
  }

  /** Re-adding the removed chat and removing it again ends in the same slots. */
  lemma {:induction false} ReAdded(t: seq<Slot>, chats: seq<Slot>, id: string, owner: map<string, string>)
    requires Owned(t, owner) && AllOwned(chats, owner) && DistinctIds(chats)
    requires forall i :: 0 <= i < |chats| ==> chats[i] in Entries(t) || chats[i].id == id
    requires id != "" && id !in Ids(t) && |Ids(t)| < |t| && forall e :: e in Entries(t) ==> e.name != id
    ensures RemoveChat(SetAll(t, chats), id) == t
    decreases |chats|
  {
    if chats == [] {
      Absent(t, id);
    } else if chats[0].id != id {
      SetPresent(t, chats[0]);
      ReAdded(t, chats[1..], id, owner);
    } else {
      forall i | 1 <= i < |chats| ensures chats[i] in Entries(t) {
        assert chats[i].id != chats[0].id;
      }
      InsertThenRemove(t, chats[0], chats[1..], owner);
    }
  }

  lemma {:induction false} InsertThenRemove(t: seq<Slot>, s: Slot, rest: seq<Slot>, owner: map<string, string>)
    requires Owned(t, owner) && OwnedSlot(s, owner) && s.id !in Ids(t) && |Ids(t)| < |t|
    requires forall e :: e in Entries(t) ==> e.name != s.id
    requires AllOwned(rest, owner) && forall i :: 0 <= i < |rest| ==> rest[i] in Entries(t)
    ensures RemoveChat(SetAll(SetChat(t, s.name, s.id), rest), s.id) == t
  {
    var u := SetChat(t, s.name, s.id);
    SetWithRoom(t, s, owner);
    assert forall i :: 0 <= i < |rest| ==> rest[i].id in Ids(t);
    SetAllPresent(u, rest);
    InsertedAtHole(t, s, owner);
  }

  lemma {:induction false} Absent(t: seq<Slot>, id: string)
    requires Bijective(t) && id != "" && id !in Ids(t) && forall e :: e in Entries(t) ==> e.name != id
    ensures forall k :: 0 <= k < |t| ==> t[k].name != id && t[k].id != id
    ensures RemoveChat(t, id) == t
  {
    assert forall k :: 0 <= k < |t| && t[k].id != "" ==> t[k] in Entries(t) && t[k].id in Ids(t);
  }

  lemma {:induction false} InsertedAtHole(t: seq<Slot>, s: Slot, owner: map<string, string>)
    requires Owned(t, owner) && OwnedSlot(s, owner) && s.id !in Ids(t) && |Ids(t)| < |t|
    requires forall e :: e in Entries(t) ==> e.name != s.id
    ensures RemoveChat(SetChat(t, s.name, s.id), s.id) == t
  {
    var h := FirstHole(t);
    LiveCount(t);
    Absent(t, s.id);
    assert forall k :: 0 <= k < |t| && t[k].id != "" ==> t[k].name != s.name;
    assert FirstMatch(t, s.name, s.id) == |t|;
    var u := t[h := s];
    var k := FirstMatch(u, s.id, s.id);
    assert u[h] == s && k <= h;
    assert t[k] == u[k] || k == h;
    assert u[h := HOLE] == t;
  }

  /** Duplicate delivery is harmless, slot by slot: given room and no shared names, applying a message twice
      is applying it once, even when the removed chat is among the added ones. */
  lemma {:induction false} ApplyTwice(t: seq<Slot>, chats: seq<Slot>, removal: Option<string>)
    requires IsSound(t) && AreCompatible(t, chats, removal) && DistinctIds(chats)
    requires |Ids(t) + IdsOf(chats)| <= |t|
    ensures Apply(Apply(t, chats, removal), chats, removal) == Apply(t, chats, removal)
  {
    var u := SetAll(t, chats);
    var owner := HasOwners(t, chats, removal);
    SetAllOwned(t, chats, owner);
    AllPresent(t, chats, owner);
    if removal.None? {
      SetAllPresent(u, chats);
    } else {
      RemovedTwice(u, chats, removal.value, owner);
    }
  }

  lemma {:induction false} RemovedTwice(u: seq<Slot>, chats: seq<Slot>, id: string, owner: map<string, string>)
    requires Owned(u, owner) && AllOwned(chats, owner) && DistinctIds(chats)
    requires forall i :: 0 <= i < |chats| ==> chats[i] in Entries(u)
    requires id != "" && forall e :: e in Entries(u) ==> e.name != id
    ensures RemoveChat(SetAll(RemoveChat(u, id), chats), id) == RemoveChat(u, id)
  {
    var r := RemoveChat(u, id);
    RemoveOwned(u, id, owner);
    if id in Ids(u) {
      LiveCount(u);
      LiveCount(r);
      assert |Ids(r)| < |r|;
      ReAdded(r, chats, id, owner);
    } else {
      Absent(u, id);
      SetAllPresent(u, chats);
    }
  }

  lemma {:induction false} CardinalityOfSubset<T>(a: set<T>, b: set<T>)
    requires a <= b
    ensures |a| <= |b|
  {
    if a != {} {
      var x :| x in a;
      CardinalityOfSubset(a - {x}, b - {x});
    }
  }
}
