/** The board's chat table as a value, and the map from ids to names it stands for. */
module ChatTable {
  import opened Text

  const MAX_CHAT_IDS: nat := 10
  const CHAT_ID_LENGTH: nat := 12
  const CHAT_NAME_LENGTH: nat := 15

  /** One slot: the C strings in its two fields. A slot without an id is a hole. */
  datatype Slot = Slot(name: string, id: string)

  const HOLE := Slot("", "")

  /** Both fields are C strings that fit their arrays. */
  ghost predicate SlotFits(s: Slot) {
    |s.name| < CHAT_NAME_LENGTH && |s.id| < CHAT_ID_LENGTH && NUL !in s.name && NUL !in s.id
  }

  ghost predicate Bounded(t: seq<Slot>) {
    forall k :: 0 <= k < |t| ==> SlotFits(t[k])
  }

  // ----- the table at start-up -----

  const CHAT_IDS_COPY_SIZE: nat := MAX_CHAT_IDS * (CHAT_ID_LENGTH + 1)

  function EmptyTable(): seq<Slot> {
    seq(MAX_CHAT_IDS, _ => HOLE)
  }

  /** One entry of the build-time list; without a colon it is an id with no name. */
  function InitialSlot(entry: string): Slot {
    var colon := Find(entry, ':');
    if colon < |entry| then Slot(Fit(entry[..colon], CHAT_NAME_LENGTH), Fit(entry[colon + 1..], CHAT_ID_LENGTH))
    else Slot("", if |entry| <= CHAT_ID_LENGTH then entry else entry[..CHAT_ID_LENGTH])
  }

  function FirstTen(entries: seq<string>): seq<string> {
    if |entries| <= MAX_CHAT_IDS then entries else entries[..MAX_CHAT_IDS]
  }

  /** The entries `config_init` reads: the first ten of what fits its copy of the list. */
  function EntriesRead(chatIds: string): seq<string> {
    FirstTen(Tokens(Fit(chatIds, CHAT_IDS_COPY_SIZE), ','))
  }

  function TableOf(entries: seq<string>): (t: seq<Slot>)
    ensures |t| == MAX_CHAT_IDS
  {
    seq(MAX_CHAT_IDS, i requires 0 <= i => if i < |entries| then InitialSlot(entries[i]) else HOLE)
  }

  /** Storing the entries from slot `index` on, as far as there are slots. */
  function StoreAll(t: seq<Slot>, index: nat, entries: seq<string>): seq<Slot>
    requires index <= |t|
    decreases |entries|
  {
    if entries == [] || index == |t| then t
    else StoreAll(t[index := InitialSlot(entries[0])], index + 1, entries[1..])
  }

  lemma {:induction false} StoreAllAt(t: seq<Slot>, index: nat, entries: seq<string>)
    requires index <= |t|
    ensures var u := StoreAll(t, index, entries);
      |u| == |t| && forall k :: 0 <= k < |t| ==>
        u[k] == if index <= k < index + |entries| then InitialSlot(entries[k - index]) else t[k]
    decreases |entries|
  {
    if entries != [] && index < |t| {
      StoreAllAt(t[index := InitialSlot(entries[0])], index + 1, entries[1..]);
    }
  }

  /** Started on an empty table, that is the table of the first ten entries. */
  lemma {:induction false} StoreAllIsTable(entries: seq<string>)
    ensures StoreAll(EmptyTable(), 0, entries) == TableOf(FirstTen(entries))
  {
    StoreAllAt(EmptyTable(), 0, entries);
  }

  function InitialTable(chatIds: string): seq<Slot> {
    TableOf(EntriesRead(chatIds))
  }

  /** An entry is a name and an id around its first colon, cut to the fields. */
  lemma {:induction false} NamedEntry(name: string, id: string)
    requires ':' !in name
    ensures InitialSlot(name + ":" + id) == Stored(name, id)
  {
    var entry := name + ":" + id;
    assert entry[|name|] == ':';
    assert Find(entry, ':') == |name|;
    assert entry[..|name|] == name && entry[|name| + 1..] == id;
    FitCuts(name, CHAT_NAME_LENGTH);
    FitCuts(id, CHAT_ID_LENGTH);
  }

  /** An entry without a colon is an id without a name. */
  lemma {:induction false} UnnamedEntry(entry: string)
    requires ':' !in entry && |entry| < CHAT_ID_LENGTH
    ensures InitialSlot(entry) == Slot("", entry)
  {
  }

  /** The first ten entries of a list that fits the copy go to the slots of their positions; behind them are holes. */
  lemma {:induction false} ListFillsSlots(entries: seq<string>)
    requires AllFree(entries, ',') && "" !in entries && |Join(entries, ',')| < 130
    ensures var t := InitialTable(Join(entries, ','));
      && |t| == 10
      && (forall k :: 0 <= k < 10 && k < |entries| ==> t[k] == InitialSlot(entries[k]))
      && (forall k :: |entries| <= k < 10 ==> t[k] == Slot("", ""))
  {
    TokensOfJoin(entries, ',');
  }

  /** So an id listed without a name is live, and nobody's name leads to it. */
  lemma {:induction false} UnnamedIdIsLive(entries: seq<string>, k: nat)
    requires AllFree(entries, ',') && "" !in entries && |Join(entries, ',')| < 130
    requires k < 10 && k < |entries| && ':' !in entries[k] && |entries[k]| < CHAT_ID_LENGTH
    ensures var t := InitialTable(Join(entries, ','));
      t[k] == Slot("", entries[k]) && entries[k] in Ids(t) && entries[k] in LiveIds(t)
  {
    var t := InitialTable(Join(entries, ','));
    ListFillsSlots(entries);
    UnnamedEntry(entries[k]);
    assert t[k] in Entries(t);
    LiveIdsInOrder(t, k, |t|);
    assert t[..|t|] == t && LiveIds(t)[LiveBefore(t, k)] == entries[k];
  }

  /** The entry's slot is made of two terminated strings. */
  ghost predicate IsStorable(entry: string) {
    ':' in entry || |entry| < CHAT_ID_LENGTH
  }

  /** Each of the first `room` entries. */
  ghost predicate AreStorable(entries: seq<string>, room: nat) {
    forall i :: 0 <= i < |entries| && i < room ==> IsStorable(entries[i])
  }

  lemma {:induction false} InitialSlotFits(entry: string)
    requires IsStorable(entry) && NUL !in entry
    ensures SlotFits(InitialSlot(entry))
  {
  }

  // ----- the operations -----

  /** The first slot holding the name or the id, or `|t|`. */
  function FirstMatch(t: seq<Slot>, name: string, id: string): (k: nat)
    ensures k <= |t|
    ensures forall j :: 0 <= j < k ==> t[j].name != name && t[j].id != id
    ensures k < |t| ==> t[k].name == name || t[k].id == id
  {
    if t == [] || t[0].name == name || t[0].id == id then 0 else 1 + FirstMatch(t[1..], name, id)
  }

  /** The first hole, or `|t|`. */
  function FirstHole(t: seq<Slot>): (k: nat)
    ensures k <= |t|
    ensures forall j :: 0 <= j < k ==> t[j].id != ""
    ensures k < |t| ==> t[k].id == ""
  {
    if t == [] || t[0].id == "" then 0 else 1 + FirstHole(t[1..])
  }

  function SetChat(t: seq<Slot>, name: string, id: string): (r: seq<Slot>)
    ensures |r| == |t|
  {
    var k, h := FirstMatch(t, name, id), FirstHole(t);
    if k < |t| && t[k].name == name then t[k := Slot(t[k].name, Fit(id, CHAT_ID_LENGTH))]
    else if k < |t| then t[k := Slot(Fit(name, CHAT_NAME_LENGTH), t[k].id)]
    else if h < |t| then t[h := Slot(Fit(name, CHAT_NAME_LENGTH), Fit(id, CHAT_ID_LENGTH))]
    else t
  }

  /** Clears the first slot whose name or id is the key. */
  function RemoveChat(t: seq<Slot>, key: string): (r: seq<Slot>)
    ensures |r| == |t|
  {
    var k := FirstMatch(t, key, key);
    if k < |t| then t[k := HOLE] else t
  }

  /** The id stored under a name; the empty string when that slot is a hole. */
  function IdByName(t: seq<Slot>, name: string): Option<string> {
    if t == [] then None else if t[0].name == name then Some(t[0].id) else IdByName(t[1..], name)
  }

  function LiveId(s: Slot): seq<string> {
    if s.id == "" then [] else [s.id]
  }

  /** The live ids in slot order. */
  function LiveIds(t: seq<Slot>): seq<string> {
    if t == [] then [] else LiveId(t[0]) + LiveIds(t[1..])
  }

  lemma {:induction false} LiveIdsSnoc(t: seq<Slot>, i: nat)
    requires i < |t|
    ensures LiveIds(t[..i + 1]) == LiveIds(t[..i]) + LiveId(t[i])
  {
    if i == 0 {
      assert t[..1][1..] == [];
    } else {
      assert t[..i][1..] == t[1..][..i - 1] && t[..i + 1][1..] == t[1..][..i];
      LiveIdsSnoc(t[1..], i - 1);
    }
  }

  // ----- the operations, slot by slot -----

  /** What is left of a pair in the fields of a slot. */
  function Stored(name: string, id: string): Slot {
    Slot(name[..Min(|name|, 14)], id[..Min(|id|, 11)])
  }

  /** The slot a pair goes to: the first that holds the name or the id, or else the first hole. */
  ghost predicate IsTarget(t: seq<Slot>, name: string, id: string, p: nat) {
    && p < |t|
    && (|| ((t[p].name == name || t[p].id == id) && forall j :: 0 <= j < p ==> t[j].name != name && t[j].id != id)
        || (&& (forall j :: 0 <= j < |t| ==> t[j].name != name && t[j].id != id)
            && t[p].id == "" && forall j :: 0 <= j < p ==> t[j].id != ""))
  }

  /** Whatever the names and ids and however long: setting a pair writes it, cut to the fields, to its slot, be it an
      insert, a rename or a rebind; where it has none the table stays as it is. */
  lemma {:induction false} SetOnTarget(t: seq<Slot>, name: string, id: string)
    requires Bounded(t)
    ensures forall p: nat :: IsTarget(t, name, id, p) ==> SetChat(t, name, id) == t[p := Stored(name, id)]
    ensures (forall p: nat :: !IsTarget(t, name, id, p)) ==> SetChat(t, name, id) == t
  {
    var k, h := FirstMatch(t, name, id), FirstHole(t);
    FitCuts(name, CHAT_NAME_LENGTH);
    FitCuts(id, CHAT_ID_LENGTH);
    if k < |t| {
      assert SlotFits(t[k]) && IsTarget(t, name, id, k);
      assert t[k].name[..|t[k].name|] == t[k].name && t[k].id[..|t[k].id|] == t[k].id;
    } else if h < |t| {
      assert IsTarget(t, name, id, h);
    }
    forall p: nat | IsTarget(t, name, id, p) ensures p == if k < |t| then k else h {
      OneTarget(t, name, id, p, if k < |t| then k else h);
    }
  }

  lemma {:induction false} OneTarget(t: seq<Slot>, name: string, id: string, p: nat, q: nat)
    requires IsTarget(t, name, id, p) && IsTarget(t, name, id, q)
    ensures p == q
  {
  }

  ghost predicate IsFirstWith(t: seq<Slot>, key: string, k: nat) {
    k < |t| && (t[k].name == key || t[k].id == key) && forall j :: 0 <= j < k ==> t[j].name != key && t[j].id != key
  }

  /** The first slot whose name or id is the key becomes empty; without one the table stays as it is. */
  lemma {:induction false} RemoveFirst(t: seq<Slot>, key: string)
    ensures forall k: nat :: IsFirstWith(t, key, k) ==> RemoveChat(t, key) == t[k := Slot("", "")]
    ensures (forall k :: 0 <= k < |t| ==> t[k].name != key && t[k].id != key) ==> RemoveChat(t, key) == t
  {
  }

  ghost predicate IsFirstNamed(t: seq<Slot>, name: string, k: nat) {
    k < |t| && t[k].name == name && forall j :: 0 <= j < k ==> t[j].name != name
  }

  /** Lookup gives the id of the first slot with the name, on any table. */
  lemma {:induction false} NameIsFirst(t: seq<Slot>, name: string)
    ensures forall k: nat :: IsFirstNamed(t, name, k) ==> IdByName(t, name) == Some(t[k].id)
    ensures IdByName(t, name) == None <==> forall k :: 0 <= k < |t| ==> t[k].name != name
  {
    if t != [] && t[0].name != name {
      var rest := t[1..];
      NameIsFirst(rest, name);
      forall k: nat | IsFirstNamed(t, name, k) ensures IdByName(t, name) == Some(t[k].id) {
        assert IsFirstNamed(rest, name, k - 1);
      }
      assert forall k :: 1 <= k < |t| ==> t[k] == rest[k - 1];
    }
  }

  /** How many of the first `k` slots are live. */
  function LiveBefore(t: seq<Slot>, k: nat): nat
    requires k <= |t|
  {
    if k == 0 then 0 else LiveBefore(t, k - 1) + (if t[k - 1].id == "" then 0 else 1)
  }

  lemma {:induction false} LiveIdsCount(t: seq<Slot>, k: nat)
    requires k <= |t|
    ensures |LiveIds(t[..k])| == LiveBefore(t, k)
  {
    if k > 0 {
      LiveIdsCount(t, k - 1);
      LiveIdsSnoc(t, k - 1);
    }
  }

  /** The live ids stand in slot order: before the id of a live slot there are as many as live slots before it. */
  lemma {:induction false} LiveIdsInOrder(t: seq<Slot>, j: nat, k: nat)
    requires j < k <= |t| && t[j].id != ""
    ensures LiveBefore(t, j) < |LiveIds(t[..k])| && LiveIds(t[..k])[LiveBefore(t, j)] == t[j].id
    decreases k
  {
    LiveIdsSnoc(t, k - 1);
    LiveIdsCount(t, k - 1);
    if j < k - 1 {
      LiveIdsInOrder(t, j, k - 1);
    }
  }

  // ----- the abstraction: a partial bijection between names and ids -----

  /** The live slots, without their order and the holes between them. */
  ghost function Entries(t: seq<Slot>): set<Slot> {
    set s | s in t && s.id != ""
  }

  ghost function Ids(t: seq<Slot>): set<string> {
    set s | s in Entries(t) :: s.id
  }

  /** Slots are live or empty, and no two live slots share a name or an id. */
  ghost predicate Bijective(t: seq<Slot>) {
    && (forall k :: 0 <= k < |t| ==> (t[k].name == "" <==> t[k].id == ""))
    && (forall j, k :: 0 <= j < k < |t| && t[j].id != "" ==> t[j].id != t[k].id && t[j].name != t[k].name)
  }

  /** The name and the id do not already sit in two different slots. */
  ghost predicate Uncrossed(t: seq<Slot>, name: string, id: string) {
    forall j, k :: 0 <= j < |t| && 0 <= k < |t| && t[j].name == name && t[k].id == id ==> j == k
  }

  ghost predicate WellSized(name: string, id: string) {
    0 < |name| < CHAT_NAME_LENGTH && 0 < |id| < CHAT_ID_LENGTH
  }

  /** Insert, rename or rebind on the abstract relation with a given capacity. */
  ghost function SetEntry(entries: set<Slot>, entry: Slot, capacity: nat): set<Slot> {
    var others := set s | s in entries && s.name != entry.name && s.id != entry.id;
    if others != entries || |entries| < capacity then others + {entry} else entries
  }

  ghost function RemoveEntry(entries: set<Slot>, key: string): set<Slot> {
    set s | s in entries && s.name != key && s.id != key
  }

  lemma {:induction false} EntriesOfUpdate(t: seq<Slot>, k: nat, s: Slot)
    requires Bijective(t) && k < |t|
    ensures Entries(t[k := s]) == Entries(t) - {t[k]} + (if s.id == "" then {} else {s})
  {
    var u := t[k := s];
    forall x | x in Entries(t) && x != t[k] ensures x in u {
      var j :| 0 <= j < |t| && t[j] == x;
      assert u[j] == x;
    }
    assert s.id != "" ==> u[k] == s;
    forall x | x in Entries(u) ensures x == s || (x in Entries(t) && x != t[k]) {
      var j :| 0 <= j < |u| && u[j] == x;
    }
  }

  lemma {:induction false} EntriesOfCons(t: seq<Slot>)
    requires t != [] && Bijective(t)
    ensures Bijective(t[1..])
    ensures t[0].id == "" ==> Entries(t) == Entries(t[1..]) && Ids(t) == Ids(t[1..])
    ensures t[0].id != "" ==> Entries(t) == Entries(t[1..]) + {t[0]} && t[0] !in Entries(t[1..])
    ensures t[0].id != "" ==> Ids(t) == Ids(t[1..]) + {t[0].id} && t[0].id !in Ids(t[1..])
  {
    var rest := t[1..];
    assert forall j :: 0 <= j < |rest| ==> rest[j] == t[j + 1];
    assert forall s :: s in t <==> s == t[0] || s in rest;
    assert Entries(t) == Entries(rest) + (if t[0].id == "" then {} else {t[0]});
  }

  lemma {:induction false} LiveCount(t: seq<Slot>)
    requires Bijective(t)
    ensures |Ids(t)| == |Entries(t)| <= |t|
    ensures |Entries(t)| == |t| <==> FirstHole(t) == |t|
  {
    if t == [] {
      assert Entries(t) == {} && Ids(t) == {};
    } else {
      EntriesOfCons(t);
      LiveCount(t[1..]);
    }
  }

  /** `config_set_chat_id` refines `SetEntry`, wherever the holes are, and keeps the table a bijection
      exactly when the pair is uncrossed. */
  lemma {:induction false} SetRefines(t: seq<Slot>, name: string, id: string)
    requires Bijective(t) && WellSized(name, id)
    ensures Bijective(SetChat(t, name, id)) <==> Uncrossed(t, name, id)
    ensures Uncrossed(t, name, id) ==>
      Entries(SetChat(t, name, id)) == SetEntry(Entries(t), Slot(name, id), |t|)
  {
    var k := FirstMatch(t, name, id);
    if k < |t| {
      SetExisting(t, name, id, k);
    } else {
      SetMissing(t, name, id);
    }
  }

  /** Overwriting one slot keeps the bijection exactly when the new pair occurs in no other slot. */
  lemma {:induction false} UpdateBijective(t: seq<Slot>, k: nat, s: Slot)
    requires Bijective(t) && k < |t| && (s.name == "" <==> s.id == "")
    ensures Bijective(t[k := s]) <==>
      s == HOLE || forall j :: 0 <= j < |t| && j != k ==> t[j].name != s.name && t[j].id != s.id
  {
    var u := t[k := s];
    if s != HOLE && exists j :: 0 <= j < |t| && j != k && (t[j].name == s.name || t[j].id == s.id) {
      var j :| 0 <= j < |t| && j != k && (t[j].name == s.name || t[j].id == s.id);
      assert u[j] == t[j] && u[k] == s;
    }
  }

  lemma {:induction false} SetExisting(t: seq<Slot>, name: string, id: string, k: nat)
    requires Bijective(t) && WellSized(name, id)
    requires k == FirstMatch(t, name, id) < |t|
    ensures SetChat(t, name, id) == t[k := Slot(name, id)]
    ensures Bijective(t[k := Slot(name, id)]) <==> Uncrossed(t, name, id)
    ensures Uncrossed(t, name, id) ==>
      Entries(t[k := Slot(name, id)]) == SetEntry(Entries(t), Slot(name, id), |t|)
  {
    UpdateBijective(t, k, Slot(name, id));
    if Uncrossed(t, name, id) {
      EntriesOfUpdate(t, k, Slot(name, id));
      assert t[k] in Entries(t);
      assert Entries(t) - {t[k]} == set s | s in Entries(t) && s.name != name && s.id != id;
    }
  }

  lemma {:induction false} SetMissing(t: seq<Slot>, name: string, id: string)
    requires Bijective(t) && WellSized(name, id) && FirstMatch(t, name, id) == |t|
    ensures Uncrossed(t, name, id) && Bijective(SetChat(t, name, id))
    ensures Entries(SetChat(t, name, id)) == SetEntry(Entries(t), Slot(name, id), |t|)
  {
    var h := FirstHole(t);
    LiveCount(t);
    assert Entries(t) == set s | s in Entries(t) && s.name != name && s.id != id;
    if h < |t| {
      UpdateBijective(t, h, Slot(name, id));
      EntriesOfUpdate(t, h, Slot(name, id));
      assert t[h] !in Entries(t);
    }
  }

  /** The same for a pair that may have to be cut: the cut pair replaces its slot, and the table stays a bijection
      exactly when no other live slot holds the cut name or the cut id. */
  lemma {:induction false} SetCutRefines(t: seq<Slot>, name: string, id: string, p: nat)
    requires Bijective(t) && Bounded(t) && name != "" && id != "" && IsTarget(t, name, id, p)
    ensures Entries(SetChat(t, name, id)) == Entries(t) - {t[p]} + {Stored(name, id)}
    ensures Bijective(SetChat(t, name, id)) <==>
      forall e :: e in Entries(t) && e != t[p] ==> e.name != Stored(name, id).name && e.id != Stored(name, id).id
  {
    var s := Stored(name, id);
    SetOnTarget(t, name, id);
    EntriesOfUpdate(t, p, s);
    UpdateBijective(t, p, s);
    forall j | 0 <= j < |t| && j != p && (t[j].name == s.name || t[j].id == s.id) ensures t[j] in Entries(t) {
    }
    forall e | e in Entries(t) && e != t[p] ensures exists j :: 0 <= j < |t| && j != p && t[j] == e {
      var j :| 0 <= j < |t| && t[j] == e;
    }
  }

  /** A crossed pair ends up in two slots: the earlier of the two is overwritten, the later one stays. */
  lemma {:induction false} SetCrossed(t: seq<Slot>, name: string, id: string, i: nat, j: nat)
    requires Bijective(t) && WellSized(name, id)
    requires i < |t| && j < |t| && i != j && t[i].name == name && t[j].id == id
    ensures SetChat(t, name, id) == t[(if i < j then i else j) := Slot(name, id)]
    ensures !Bijective(SetChat(t, name, id))
  {
    var k := FirstMatch(t, name, id);
    assert k == i || k == j;
    SetExisting(t, name, id, k);
  }

  /** Setting a pair adds its id and loses none exactly when the first slot that holds the name or the id holds the
      id, or there is no such slot and there is room. For an uncrossed pair that is: no other id goes by the name,
      and the id is there already or has room. A shared name is taken over, and a full table drops the pair. */
  lemma {:induction false} SetGainsId(t: seq<Slot>, name: string, id: string)
    requires Bijective(t) && WellSized(name, id)
    ensures Ids(SetChat(t, name, id)) == Ids(t) + {id} <==>
      var k := FirstMatch(t, name, id); if k < |t| then t[k].id == id else |Ids(t)| < |t|
    ensures Uncrossed(t, name, id) ==>
      (Ids(SetChat(t, name, id)) == Ids(t) + {id} <==>
       (forall e :: e in Entries(t) && e.name == name ==> e.id == id) && (id in Ids(t) || |Ids(t)| < |t|))
  {
    var k := FirstMatch(t, name, id);
    if k < |t| {
      MatchGainsId(t, name, id, k);
    } else {
      MissGainsId(t, name, id);
    }
    if Uncrossed(t, name, id) {
      UncrossedMatch(t, name, id);
    }
  }

  lemma {:induction false} MatchGainsId(t: seq<Slot>, name: string, id: string, k: nat)
    requires Bijective(t) && WellSized(name, id) && k == FirstMatch(t, name, id) < |t|
    ensures Ids(SetChat(t, name, id)) == Ids(t) + {id} <==> t[k].id == id
  {
    var u := SetChat(t, name, id);
    assert u == t[k := Slot(name, id)];
    assert t[k].id != "" && t[k] in Entries(t);
    if t[k].id == id {
      forall e | e in Entries(t) ensures e.id in Ids(u) {
        var j :| 0 <= j < |t| && t[j] == e;
        assert u[j] in Entries(u) && u[j].id == e.id;
      }
      forall e | e in Entries(u) ensures e.id in Ids(t) {
        var j :| 0 <= j < |u| && u[j] == e;
        assert t[j] in Entries(t);
      }
    } else {
      assert t[k].id in Ids(t);
      forall e | e in Entries(u) ensures e.id != t[k].id {
        var j :| 0 <= j < |u| && u[j] == e;
      }
    }
  }

  lemma {:induction false} MissGainsId(t: seq<Slot>, name: string, id: string)
    requires Bijective(t) && WellSized(name, id) && FirstMatch(t, name, id) == |t|
    ensures id !in Ids(t)
    ensures Ids(SetChat(t, name, id)) == Ids(t) + {id} <==> |Ids(t)| < |t|
  {
    LiveCount(t);
    if FirstHole(t) < |t| {
      FilledHole(t, FirstHole(t), Slot(name, id));
    }
  }

  lemma {:induction false} FilledHole(t: seq<Slot>, h: nat, s: Slot)
    requires h < |t| && t[h].id == "" && s.id != ""
    ensures Ids(t[h := s]) == Ids(t) + {s.id}
  {
    var u := t[h := s];
    forall e | e in Entries(t) ensures e in Entries(u) {
      var j :| 0 <= j < |t| && t[j] == e;
      assert u[j] == e;
    }
    forall e | e in Entries(u) ensures e in Entries(t) || e == s {
      var j :| 0 <= j < |u| && u[j] == e;
    }
    assert u[h] in Entries(u);
  }

  lemma {:induction false} UncrossedMatch(t: seq<Slot>, name: string, id: string)
    requires Bijective(t) && WellSized(name, id) && Uncrossed(t, name, id)
    ensures var k := FirstMatch(t, name, id);
      (if k < |t| then t[k].id == id else |Ids(t)| < |t|) <==>
      ((forall e :: e in Entries(t) && e.name == name ==> e.id == id) && (id in Ids(t) || |Ids(t)| < |t|))
  {
    var k := FirstMatch(t, name, id);
    if k < |t| {
      assert t[k] in Entries(t) && t[k].id in Ids(t);
    } else {
      MissGainsId(t, name, id);
    }
  }

  /** Removal keeps the bijection, and deletes exactly the entries with that key unless the key is one
      slot's name and another slot's id. */
  lemma {:induction false} RemoveRefines(t: seq<Slot>, key: string)
    requires Bijective(t) && key != ""
    ensures Bijective(RemoveChat(t, key))
    ensures Entries(RemoveChat(t, key)) == RemoveEntry(Entries(t), key) <==> Uncrossed(t, key, key)
  {
    var k := FirstMatch(t, key, key);
    if k == |t| {
      assert RemoveEntry(Entries(t), key) == Entries(t);
      return;
    }
    UpdateBijective(t, k, HOLE);
    EntriesOfUpdate(t, k, HOLE);
    if Uncrossed(t, key, key) {
      assert Entries(t) - {t[k]} == RemoveEntry(Entries(t), key);
    } else {
      var i, j :| 0 <= i < |t| && 0 <= j < |t| && t[i].name == key && t[j].id == key && i != j;
      var other := if k == i then j else i;
      assert t[other] in Entries(t) && t[other] != t[k];
      assert t[other] !in RemoveEntry(Entries(t), key);
    }
  }

  /** Lookup by name agrees with the relation. */
  lemma {:induction false} LookupRefines(t: seq<Slot>, name: string)
    requires Bijective(t) && name != ""
    ensures forall id :: IdByName(t, name) == Some(id) <==> Slot(name, id) in Entries(t)
  {
    if t != [] {
      LookupRefines(t[1..], name);
      assert forall s :: s in t <==> s == t[0] || s in t[1..];
    }
  }

  /** The join lists every live id once. */
  lemma {:induction false} LiveIdsAreIds(t: seq<Slot>)
    requires Bijective(t)
    ensures forall id :: id in LiveIds(t) <==> id in Ids(t)
    ensures |LiveIds(t)| == |Ids(t)|
  {
    if t == [] {
      assert Ids(t) == {};
    } else {
      EntriesOfCons(t);
      LiveIdsAreIds(t[1..]);
    }
  }
}
