/** The build-time chat list: the script that merges and saves it, and the firmware that reads it. */
module ChatList {
  import opened Text
  import opened Dictionaries

  // ----- loading -----

  function ParseChat(entry: string): Option<Chat<string>> {
    var colon := Find(entry, ':');
    if colon < |entry| then Some(Chat(entry[colon + 1..], entry[..colon])) else None
  }

  function LoadInto(d: seq<Chat<string>>, entries: seq<string>): seq<Chat<string>>
    decreases |entries|
  {
    if entries == [] then d
    else
      var item := ParseChat(entries[0]);
      LoadInto(if item.Some? then Put(d, item.value) else d, entries[1..])
  }

  /** `load_existing_chat_ids` on the saved value, None when there is no such value. */
  function Load(saved: Option<string>): seq<Chat<string>> {
    if saved.Some? then LoadInto([], SplitOn(saved.value, ',')) else []
  }

  method LoadExistingChatIds(saved: Option<string>) returns (d: seq<Chat<string>>)
    ensures d == Load(saved)
  {
    d := [];
    if saved.Some? {
      var entries := SplitOn(saved.value, ',');
      for i := 0 to |entries|
        invariant LoadInto(d, entries[i..]) == LoadInto([], entries)
      {
        assert entries[i..][1..] == entries[i + 1..];
        var colon := Find(entries[i], ':');
        if colon < |entries[i]| {
          d := Put(d, Chat(entries[i][colon + 1..], entries[i][..colon]));
        }
      }
    }
  }

  // ----- merging -----

  function Merge(existing: seq<Chat<string>>, fetched: seq<Chat<string>>): seq<Chat<string>>
    decreases |fetched|
  {
    if fetched == [] then existing
    else
      Merge(if Lookup(existing, fetched[0].id).Some? then existing else Put(existing, fetched[0]), fetched[1..])
  }

  // ----- saving -----

  function Format(d: seq<Chat<string>>): seq<string> {
    if d == [] then [] else [d[0].name + ":" + d[0].id] + Format(d[1..])
  }

  /** Python's order on strings. */
  predicate Leq(a: string, b: string) {
    if a == "" then true
    else if b == "" then false
    else a[0] < b[0] || (a[0] == b[0] && Leq(a[1..], b[1..]))
  }

  function Insert(x: string, xs: seq<string>): seq<string> {
    if xs == [] || Leq(x, xs[0]) then [x] + xs else [xs[0]] + Insert(x, xs[1..])
  }

  /** `sorted(xs)`. */
  function Sort(xs: seq<string>): seq<string> {
    if xs == [] then [] else Insert(xs[0], Sort(xs[1..]))
  }

  function Save(d: seq<Chat<string>>): string {
    Join(Sort(Format(d)), ',')
  }

  /** `update_chat_ids`: the value written, or None when nothing was fetched and nothing is written. */
  method UpdateChatIds(saved: Option<string>, fetched: seq<Chat<string>>) returns (written: Option<string>)
    ensures written == if fetched == [] then None else Some(Save(Merge(Load(saved), fetched)))
  {
    if fetched == [] {
      return None;
    }
    var d := LoadExistingChatIds(saved);
    for i := 0 to |fetched|
      invariant Merge(d, fetched[i..]) == Merge(Load(saved), fetched)
    {
      assert fetched[i..][1..] == fetched[i + 1..];
      if Lookup(d, fetched[i].id).None? {
        d := Put(d, fetched[i]);
      }
    }
    written := Some(Save(d));
  }

  // ----- dictionaries -----

  /** The merge keeps every existing name and otherwise takes the last fetched one. */
  lemma {:induction false} MergeLookup(existing: seq<Chat<string>>, fetched: seq<Chat<string>>, id: string)
    requires DistinctKeys(fetched)
    ensures Lookup(Merge(existing, fetched), id) ==
      if Lookup(existing, id).Some? then Lookup(existing, id) else Lookup(fetched, id)
    decreases |fetched|
  {
    if fetched != [] {
      var next := if Lookup(existing, fetched[0].id).Some? then existing else Put(existing, fetched[0]);
      PutLookup(existing, fetched[0], id);
      MergeLookup(next, fetched[1..], id);
    }
  }

  // ----- sorting -----

  /** The first difference, at `k`, has `a` smaller. */
  ghost predicate DifferAt(a: string, b: string, k: nat) {
    k < |a| && k < |b| && a[..k] == b[..k] && a[k] < b[k]
  }

  /** `a` comes before `b` or is `b`: it is a prefix of it, or smaller at the first difference. On UTF-8 the order
      of the bytes is the order of the code points, which is Python's. */
  ghost predicate Precedes(a: string, b: string) {
    a <= b || exists k: nat :: DifferAt(a, b, k)
  }

  lemma {:induction false} DifferLater(a: string, b: string, k: nat)
    requires a != "" && b != "" && a[0] == b[0]
    ensures DifferAt(a, b, k + 1) <==> DifferAt(a[1..], b[1..], k)
  {
    if k < |a| - 1 && k < |b| - 1 {
      assert a[..k + 1] == [a[0]] + a[1..][..k] && b[..k + 1] == [b[0]] + b[1..][..k];
      assert a[1..][..k] == a[..k + 1][1..] && b[1..][..k] == b[..k + 1][1..];
    }
  }

  lemma {:induction false} DifferAfterHead(a: string, b: string, k: nat)
    requires DifferAt(a, b, k) && k > 0
    ensures a[0] == b[0]
  {
    assert a[0] == a[..k][0] && b[0] == b[..k][0];
  }

  lemma {:induction false} DifferFirst(a: string, b: string)
    requires a != "" && b != "" && a[0] != b[0]
    ensures Precedes(a, b) <==> a[0] < b[0]
  {
    if a[0] < b[0] {
      assert DifferAt(a, b, 0);
    } else if exists k: nat :: DifferAt(a, b, k) {
      var k: nat :| DifferAt(a, b, k);
      if k > 0 {
        DifferAfterHead(a, b, k);
      }
    }
  }

  lemma {:induction false} LeqIsPrecedes(a: string, b: string)
    ensures Leq(a, b) <==> Precedes(a, b)
  {
    if a != "" && b != "" && a[0] != b[0] {
      DifferFirst(a, b);
    } else if a != "" && b != "" {
      LeqIsPrecedes(a[1..], b[1..]);
      forall k: nat ensures DifferAt(a, b, k + 1) <==> DifferAt(a[1..], b[1..], k) {
        DifferLater(a, b, k);
      }
      SameHead(a, b);
    }
  }

  lemma {:induction false} SameHead(a: string, b: string)
    requires a != "" && b != "" && a[0] == b[0]
    requires forall k: nat :: DifferAt(a, b, k + 1) <==> DifferAt(a[1..], b[1..], k)
    ensures Precedes(a, b) <==> Precedes(a[1..], b[1..])
  {
    if exists k: nat :: DifferAt(a, b, k) {
      var k: nat :| DifferAt(a, b, k);
      assert DifferAt(a, b, (k - 1) + 1) && DifferAt(a[1..], b[1..], k - 1);
    }
    if exists k: nat :: DifferAt(a[1..], b[1..], k) {
      var k: nat :| DifferAt(a[1..], b[1..], k);
      assert DifferAt(a, b, k + 1);
    }
    assert a == [a[0]] + a[1..] && b == [b[0]] + b[1..];
  }

  /** Strings that differ first at `x < y` are in that order and not in the other one. */
  lemma {:induction false} LeqAtDifference(p: string, x: char, r: string, y: char, q: string)
    requires x < y
    ensures Leq(p + [x] + r, p + [y] + q) && !Leq(p + [y] + q, p + [x] + r)
  {
    if p != "" {
      LeqAtDifference(p[1..], x, r, y, q);
      assert (p + [x] + r)[1..] == p[1..] + [x] + r && (p + [y] + q)[1..] == p[1..] + [y] + q;
    }
  }

  lemma {:induction false} LeqAntisymmetric(a: string, b: string)
    requires Leq(a, b) && Leq(b, a)
    ensures a == b
  {
    if a != "" && b != "" {
      LeqAntisymmetric(a[1..], b[1..]);
    }
  }

  ghost predicate IsSorted(xs: seq<string>) {
    forall i :: 0 < i < |xs| ==> Precedes(xs[i - 1], xs[i])
  }

  /** The same by the comparison the sort makes. */
  ghost predicate IsChain(xs: seq<string>) {
    forall i :: 0 < i < |xs| ==> Leq(xs[i - 1], xs[i])
  }

  lemma {:induction false} ChainIsSorted(xs: seq<string>)
    ensures IsChain(xs) <==> IsSorted(xs)
  {
    forall i | 0 < i < |xs| ensures Leq(xs[i - 1], xs[i]) <==> Precedes(xs[i - 1], xs[i]) {
      LeqIsPrecedes(xs[i - 1], xs[i]);
    }
  }

  lemma {:induction false} LeqTotal(a: string, b: string)
    ensures Leq(a, b) || Leq(b, a)
  {
    if a != "" && b != "" {
      LeqTotal(a[1..], b[1..]);
    }
  }

  lemma {:induction false} InsertSorted(x: string, xs: seq<string>)
    requires IsChain(xs)
    ensures IsChain(Insert(x, xs)) && multiset(Insert(x, xs)) == multiset(xs) + multiset{x}
    ensures Insert(x, xs)[0] == x || (xs != [] && Insert(x, xs)[0] == xs[0])
  {
    if xs != [] && !Leq(x, xs[0]) {
      LeqTotal(x, xs[0]);
      InsertSorted(x, xs[1..]);
      assert xs == [xs[0]] + xs[1..];
    }
  }

  /** `sorted` returns the same strings in order. */
  lemma {:induction false} SortSorts(xs: seq<string>)
    ensures IsSorted(Sort(xs)) && multiset(Sort(xs)) == multiset(xs)
  {
    SortIsChain(xs);
    ChainIsSorted(Sort(xs));
  }

  lemma {:induction false} SortIsChain(xs: seq<string>)
    ensures IsChain(Sort(xs)) && multiset(Sort(xs)) == multiset(xs)
  {
    if xs != [] {
      SortIsChain(xs[1..]);
      InsertSorted(xs[0], Sort(xs[1..]));
      assert xs == [xs[0]] + xs[1..];
    }
  }

  lemma {:induction false} SortOfSorted(xs: seq<string>)
    requires IsSorted(xs)
    ensures Sort(xs) == xs
  {
    if xs != [] {
      assert forall i :: 0 < i < |xs[1..]| ==> xs[1..][i] == xs[i + 1] && xs[1..][i - 1] == xs[i];
      SortOfSorted(xs[1..]);
      ChainIsSorted(xs);
      assert xs == [xs[0]] + xs[1..];
    }
  }

  // ----- what was saved is loaded -----

  /** No id holds the list's comma. */
  predicate HaveListIds(d: seq<Chat<string>>) {
    forall i :: 0 <= i < |d| ==> ',' !in d[i].id
  }

  /** No name holds a delimiter of the list. */
  predicate HaveListNames(d: seq<Chat<string>>) {
    forall i :: 0 <= i < |d| ==> ',' !in d[i].name && ':' !in d[i].name
  }

  ghost predicate IsEntryOf(entry: string, d: seq<Chat<string>>) {
    exists c :: c in d && entry == c.name + ":" + c.id
  }

  /** The chats the entries stand for, in the order of the entries. */
  function ParseChats(entries: seq<string>): seq<Chat<string>> {
    if entries == [] then []
    else (if ParseChat(entries[0]).Some? then [ParseChat(entries[0]).value] else []) + ParseChats(entries[1..])
  }

  lemma {:induction false} EntryParses(chat: Chat<string>)
    requires ',' !in chat.id && ':' !in chat.name && ',' !in chat.name
    ensures ParseChat(chat.name + ":" + chat.id) == Some(chat)
    ensures chat.name + ":" + chat.id != "" && ',' !in chat.name + ":" + chat.id
  {
    var s := chat.name + ":" + chat.id;
    assert s[|chat.name|] == ':';
    assert Find(s, ':') == |chat.name|;
    assert s[..|chat.name|] == chat.name && s[|chat.name| + 1..] == chat.id;
  }

  lemma {:induction false} FormatMembers(d: seq<Chat<string>>)
    ensures forall e :: e in Format(d) <==> IsEntryOf(e, d)
    ensures |Format(d)| == |d| && forall i :: 0 <= i < |d| ==> Format(d)[i] == d[i].name + ":" + d[i].id
  {
    if d != [] {
      FormatMembers(d[1..]);
      assert forall c :: c in d <==> c == d[0] || c in d[1..];
    }
  }

  lemma {:induction false} EntriesParse(entries: seq<string>, d: seq<Chat<string>>)
    requires HaveListIds(d) && HaveListNames(d)
    requires forall i :: 0 <= i < |entries| ==> IsEntryOf(entries[i], d)
    ensures var l := ParseChats(entries);
      |l| == |entries| && Format(l) == entries &&
      forall i :: 0 <= i < |entries| ==> l[i] in d && entries[i] == l[i].name + ":" + l[i].id
    ensures AllFree(entries, ',') && "" !in entries
  {
    if entries != [] {
      var c :| c in d && entries[0] == c.name + ":" + c.id;
      EntryParses(c);
      EntriesParse(entries[1..], d);
      assert ParseChats(entries) == [c] + ParseChats(entries[1..]);
    }
  }

  lemma {:induction false} DistinctHasOne(xs: seq<string>)
    requires forall i, j :: 0 <= i < j < |xs| ==> xs[i] != xs[j]
    ensures forall x :: multiset(xs)[x] <= 1
  {
    if xs != [] {
      DistinctHasOne(xs[1..]);
      assert xs == [xs[0]] + xs[1..];
      assert xs[0] !in xs[1..];
    }
  }

  lemma {:induction false} OneIsDistinct(xs: seq<string>, i: nat, j: nat)
    requires forall x :: multiset(xs)[x] <= 1
    requires i < j < |xs|
    ensures xs[i] != xs[j]
  {
    assert xs == xs[..j] + xs[j..];
    assert xs[..j][i] == xs[i] && xs[j..][0] == xs[j];
    assert multiset(xs) == multiset(xs[..j]) + multiset(xs[j..]);
    assert multiset(xs)[xs[j]] == multiset(xs[..j])[xs[j]] + multiset(xs[j..])[xs[j]];
    assert multiset(xs[..j])[xs[i]] >= 1 && multiset(xs[j..])[xs[j]] >= 1;
  }

  /** The chats in saved order: the same chats, each once. */
  lemma {:induction false} SavedOrder(d: seq<Chat<string>>)
    requires DistinctKeys(d) && HaveListIds(d) && HaveListNames(d)
    ensures var entries := Sort(Format(d));
            var l := ParseChats(entries);
      && Format(l) == entries && |l| == |d| && DistinctKeys(l)
      && (forall c :: c in l <==> c in d)
      && AllFree(entries, ',') && "" !in entries
  {
    var entries := Sort(Format(d));
    var l := ParseChats(entries);
    SortSorts(Format(d));
    FormatMembers(d);
    forall i | 0 <= i < |entries| ensures IsEntryOf(entries[i], d) {
      assert entries[i] in multiset(entries);
      assert entries[i] in Format(d);
    }
    EntriesParse(entries, d);
    assert |multiset(entries)| == |multiset(Format(d))|;
    FormatMembers(l);
    forall c | c in d ensures c in l {
      assert c.name + ":" + c.id in multiset(Format(d));
      var i :| 0 <= i < |entries| && entries[i] == c.name + ":" + c.id;
      var k :| 0 <= k < |d| && d[k] == c;
      EntryParses(c);
      SameEntry(l[i], d, c);
    }
    SavedDistinct(d, entries, l);
  }

  lemma {:induction false} SameEntry(a: Chat<string>, d: seq<Chat<string>>, c: Chat<string>)
    requires a in d && c in d && HaveListIds(d) && HaveListNames(d)
    requires a.name + ":" + a.id == c.name + ":" + c.id
    ensures a == c
  {
    EntryParses(a);
    EntryParses(c);
  }

  lemma {:induction false} SavedDistinct(d: seq<Chat<string>>, entries: seq<string>, l: seq<Chat<string>>)
    requires DistinctKeys(d) && HaveListIds(d) && HaveListNames(d)
    requires multiset(entries) == multiset(Format(d)) && |l| == |entries|
    requires forall i :: 0 <= i < |l| ==> l[i] in d && entries[i] == l[i].name + ":" + l[i].id
    ensures DistinctKeys(l)
  {
    FormatMembers(d);
    forall i, j | 0 <= i < j < |d| ensures Format(d)[i] != Format(d)[j] {
      if Format(d)[i] == Format(d)[j] {
        SameEntry(d[i], d, d[j]);
      }
    }
    DistinctHasOne(Format(d));
    forall i, j | 0 <= i < j < |l| ensures l[i].id != l[j].id {
      OneIsDistinct(entries, i, j);
    }
  }

  /** Loading fresh entries appends their chats. */
  lemma {:induction false} LoadFresh(d: seq<Chat<string>>, entries: seq<string>)
    requires DistinctKeys(d + ParseChats(entries))
    ensures LoadInto(d, entries) == d + ParseChats(entries)
    decreases |entries|
  {
    if entries == [] {
      assert d + [] == d;
    } else {
      var item, rest := ParseChat(entries[0]), ParseChats(entries[1..]);
      if item.Some? {
        assert d + ParseChats(entries) == d + [item.value] + rest;
        forall x | x in d ensures x.id != item.value.id {
          var i :| 0 <= i < |d| && d[i] == x;
          assert (d + ParseChats(entries))[i] == x && (d + ParseChats(entries))[|d|] == item.value;
        }
        PutNew(d, item.value);
        LoadFresh(d + [item.value], entries[1..]);
      } else {
        assert ParseChats(entries) == rest;
        LoadFresh(d, entries[1..]);
      }
    }
  }

  /** Loading what was saved gives the chats in saved order. */
  lemma {:induction false} LoadOfSave(d: seq<Chat<string>>)
    requires DistinctKeys(d) && HaveListIds(d) && HaveListNames(d)
    ensures Load(Some(Save(d))) == ParseChats(Sort(Format(d)))
  {
    var entries := Sort(Format(d));
    SavedOrder(d);
    if entries == [] {
      assert SplitOn("", ',') == [""];
    } else {
      SplitOfJoin(entries, ',');
      assert [] + ParseChats(entries) == ParseChats(entries);
      LoadFresh([], entries);
    }
  }

  lemma {:induction false} LoadedNames(d: seq<Chat<string>>, entries: seq<string>, x: Chat<string>)
    requires AllFree(entries, ',') && x in LoadInto(d, entries) && DistinctKeys(d)
    ensures x in d || (',' !in x.id && ',' !in x.name && ':' !in x.name)
    decreases |entries|
  {
    if entries != [] {
      var item := ParseChat(entries[0]);
      var next := if item.Some? then Put(d, item.value) else d;
      if item.Some? {
        PutDistinct(d, item.value);
      }
      LoadedNames(next, entries[1..], x);
    }
  }

  lemma {:induction false} LoadDistinct(d: seq<Chat<string>>, entries: seq<string>)
    requires DistinctKeys(d)
    ensures DistinctKeys(LoadInto(d, entries))
    decreases |entries|
  {
    if entries != [] {
      var item := ParseChat(entries[0]);
      if item.Some? {
        PutDistinct(d, item.value);
        LoadDistinct(Put(d, item.value), entries[1..]);
      } else {
        LoadDistinct(d, entries[1..]);
      }
    }
  }

  /** The same map from ids to names. */
  ghost predicate SameMap(a: seq<Chat<string>>, b: seq<Chat<string>>) {
    forall id :: Lookup(a, id) == Lookup(b, id)
  }

  /** Loading what was saved gives back the same map from ids to names, if and only if no name or id holds a
      comma and no name a colon. */
  lemma {:induction false} SaveThenLoad(d: seq<Chat<string>>)
    requires DistinctKeys(d)
    ensures SameMap(Load(Some(Save(d))), d) <==> HaveListIds(d) && HaveListNames(d)
  {
    var l := Load(Some(Save(d)));
    if HaveListIds(d) && HaveListNames(d) {
      SavedOrder(d);
      LoadOfSave(d);
      forall id ensures Lookup(l, id) == Lookup(d, id) {
        LookupIsItem(l, id);
        LookupIsItem(d, id);
        SameLookup(l, d, id);
      }
    } else if SameMap(l, d) {
      SplitIsFree(Save(d), ',');
      LoadDistinct([], SplitOn(Save(d), ','));
      forall i | 0 <= i < |d| ensures ',' !in d[i].id && ',' !in d[i].name && ':' !in d[i].name {
        LookupIsItem(d, d[i].id);
        LookupIsItem(l, d[i].id);
        assert d[i] == Chat(d[i].id, d[i].name) && d[i] in d;
        assert Lookup(l, d[i].id) == Lookup(d, d[i].id);
        LoadedNames([], SplitOn(Save(d), ','), d[i]);
      }
    }
  }

  lemma {:induction false} SameLookup(a: seq<Chat<string>>, b: seq<Chat<string>>, id: string)
    requires forall name :: Lookup(a, id) == Some(name) <==> Lookup(b, id) == Some(name)
    ensures Lookup(a, id) == Lookup(b, id)
  {
    assert Lookup(a, id).Some? ==> Lookup(b, id) == Some(Lookup(a, id).value);
    assert Lookup(b, id).Some? ==> Lookup(a, id) == Some(Lookup(b, id).value);
  }

  // ----- running the script again -----

  lemma {:induction false} MergeMembers(existing: seq<Chat<string>>, fetched: seq<Chat<string>>)
    requires DistinctKeys(existing)
    ensures DistinctKeys(Merge(existing, fetched))
    ensures forall x :: x in Merge(existing, fetched) ==> x in existing || x in fetched
    decreases |fetched|
  {
    if fetched != [] {
      PutDistinct(existing, fetched[0]);
      MergeMembers(if Lookup(existing, fetched[0].id).Some? then existing else Put(existing, fetched[0]), fetched[1..]);
    }
  }

  lemma {:induction false} MergePresent(existing: seq<Chat<string>>, fetched: seq<Chat<string>>)
    requires forall i :: 0 <= i < |fetched| ==> Lookup(existing, fetched[i].id).Some?
    ensures Merge(existing, fetched) == existing
    decreases |fetched|
  {
    if fetched != [] {
      MergePresent(existing, fetched[1..]);
    }
  }

  /** A second run with the same fetch writes the same string. */
  lemma {:induction false} SecondRunIsIdempotent(saved: Option<string>, fetched: seq<Chat<string>>)
    requires DistinctKeys(fetched) && HaveListIds(fetched) && HaveListNames(fetched)
    ensures var first := Save(Merge(Load(saved), fetched));
            Save(Merge(Load(Some(first)), fetched)) == first
  {
    var m := Merge(Load(saved), fetched);
    MergedIsSound(saved, fetched);
    SavedOrder(m);
    LoadOfSave(m);
    var l := Load(Some(Save(m)));
    forall i | 0 <= i < |fetched| ensures Lookup(l, fetched[i].id).Some? {
      MergeLookup(Load(saved), fetched, fetched[i].id);
      LookupIsMember(fetched, fetched[i].id);
      LookupIsMember(m, fetched[i].id);
      LookupIsMember(l, fetched[i].id);
    }
    MergePresent(l, fetched);
    SortSorts(Format(m));
    SortOfSorted(Format(l));
  }

  /** A first name with a comma is stored as two entries and comes back cut, so that a second run with the same
      fetch writes another string. */
  lemma {:induction false} CommaIsLost() returns (d: seq<Chat<string>>)
    ensures DistinctKeys(d) && HaveListIds(d) && !HaveListNames(d)
    ensures Lookup(d, "5") == Some("a,b") && Lookup(Load(Some(Save(d))), "5") == Some("b")
    ensures Save(Merge(Load(None), d)) == Save(d) && Save(Merge(Load(Some(Save(d))), d)) != Save(d)
  {
    d := [Chat("5", "a,b")];
    assert d[0].name[1] == ',';
    assert Save(d) == Join(["a", "b:5"], ',');
    SplitOfJoin(["a", "b:5"], ',');
    EntryParses(Chat("5", "b"));
    assert ParseChat("b:5") == Some(Chat("5", "b")) by {
      assert "b:5" == "b" + ":" + "5";
    }
    assert ["a", "b:5"][1..] == ["b:5"] && ["b:5"][1..] == [];
    assert LoadInto([], ["b:5"]) == LoadInto([Chat("5", "b")], []);
    assert Load(Some(Save(d))) == [Chat("5", "b")];
    assert Save([Chat("5", "b")]) == "b:5";
  }

  lemma {:induction false} MergedIsSound(saved: Option<string>, fetched: seq<Chat<string>>)
    requires DistinctKeys(fetched) && HaveListIds(fetched) && HaveListNames(fetched)
    ensures var m := Merge(Load(saved), fetched); DistinctKeys(m) && HaveListIds(m) && HaveListNames(m)
  {
    var e, m := Load(saved), Merge(Load(saved), fetched);
    if saved.Some? {
      SplitIsFree(saved.value, ',');
      LoadDistinct([], SplitOn(saved.value, ','));
    }
    MergeMembers(e, fetched);
    forall i | 0 <= i < |m| ensures ',' !in m[i].id && ',' !in m[i].name && ':' !in m[i].name {
      assert m[i] in m;
      if m[i] in e {
        LoadedNames([], SplitOn(saved.value, ','), m[i]);
      }
    }
  }

  // ----- any saved value, entry by entry -----

  /** The name an entry gives to an id. */
  function NameIn(entry: string, id: string): Option<string> {
    var item := ParseChat(entry);
    if item.Some? && item.value.id == id then Some(item.value.name) else None
  }

  /** An entry is split at its first colon, and one without a colon is skipped. */
  lemma {:induction false} EntryExactly(entry: string, name: string, id: string)
    ensures ParseChat(entry) == Some(Chat(id, name)) <==> entry == name + ":" + id && ':' !in name
    ensures ParseChat(entry) == None <==> ':' !in entry
  {
    var colon := Find(entry, ':');
    if entry == name + ":" + id && ':' !in name {
      assert entry[|name|] == ':' && colon == |name|;
      assert entry[..|name|] == name && entry[|name| + 1..] == id;
    }
    if colon < |entry| {
      assert entry == entry[..colon] + ":" + entry[colon + 1..];
    }
  }

  function NamesIn(entries: seq<string>, id: string): seq<Option<string>> {
    seq(|entries|, i requires 0 <= i < |entries| => NameIn(entries[i], id))
  }

  lemma {:induction false} LoadSnoc(d: seq<Chat<string>>, entries: seq<string>, entry: string)
    ensures LoadInto(d, entries + [entry]) ==
      var item := ParseChat(entry);
      if item.Some? then Put(LoadInto(d, entries), item.value) else LoadInto(d, entries)
    decreases |entries|
  {
    if entries == [] {
      assert entries + [entry] == [entry] && [entry][1..] == [];
    } else {
      var item := ParseChat(entries[0]);
      assert (entries + [entry])[1..] == entries[1..] + [entry] && (entries + [entry])[0] == entries[0];
      LoadSnoc(if item.Some? then Put(d, item.value) else d, entries[1..], entry);
    }
  }

  /** When an id is listed more than once, the last entry gives its name. */
  lemma {:induction false} LastEntryWins(entries: seq<string>, id: string)
    ensures Lookup(LoadInto([], entries), id) == LastSome(NamesIn(entries, id))
  {
    if entries != [] {
      var front, entry := entries[..|entries| - 1], entries[|entries| - 1];
      assert entries == front + [entry];
      LastEntryWins(front, id);
      LoadSnoc([], front, entry);
      assert NamesIn(entries, id)[..|entries| - 1] == NamesIn(front, id);
      if ParseChat(entry).Some? {
        PutLookup(LoadInto([], front), ParseChat(entry).value, id);
      }
    }
  }
}
