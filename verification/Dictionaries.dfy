/** Python dictionaries from chat ids to names, as their items in insertion order. */
module Dictionaries {
  import opened Text

  /** One item. The server's ids are integers, the script's are strings. */
  datatype Chat<Id> = Chat(id: Id, name: string)

  function Lookup<Id(==)>(d: seq<Chat<Id>>, id: Id): Option<string> {
    if d == [] then None else if d[0].id == id then Some(d[0].name) else Lookup(d[1..], id)
  }

  /** `d[chat.id] = chat.name`: an existing key keeps its place. */
  function Put<Id(==)>(d: seq<Chat<Id>>, chat: Chat<Id>): seq<Chat<Id>> {
    if d == [] then [chat]
    else if d[0].id == chat.id then [chat] + d[1..]
    else [d[0]] + Put(d[1..], chat)
  }

  ghost predicate DistinctKeys<Id>(d: seq<Chat<Id>>) {
    forall i, j :: 0 <= i < j < |d| ==> d[i].id != d[j].id
  }

  lemma {:induction false} PutLookup<Id>(d: seq<Chat<Id>>, chat: Chat<Id>, id: Id)
    ensures Lookup(Put(d, chat), id) == if id == chat.id then Some(chat.name) else Lookup(d, id)
  {
    if d != [] && d[0].id != chat.id {
      PutLookup(d[1..], chat, id);
    }
  }

  lemma {:induction false} PutDistinct<Id>(d: seq<Chat<Id>>, chat: Chat<Id>)
    requires DistinctKeys(d)
    ensures DistinctKeys(Put(d, chat))
    ensures forall x :: x in Put(d, chat) ==> x == chat || x in d
  {
    if d != [] && d[0].id != chat.id {
      var rest := Put(d[1..], chat);
      PutDistinct(d[1..], chat);
      assert forall x :: x in d[1..] ==> x.id != d[0].id;
      assert forall i :: 0 <= i < |rest| ==> rest[i] in rest && rest[i].id != d[0].id;
    }
  }

  lemma {:induction false} PutNew<Id>(d: seq<Chat<Id>>, chat: Chat<Id>)
    requires forall x :: x in d ==> x.id != chat.id
    ensures Put(d, chat) == d + [chat]
  {
    if d != [] {
      PutNew(d[1..], chat);
    }
  }

  /** An existing key keeps its place and takes the new name, and every other item stays as it is and where it is. */
  lemma {:induction false} PutExisting<Id>(d: seq<Chat<Id>>, chat: Chat<Id>, k: nat)
    requires DistinctKeys(d) && k < |d| && d[k].id == chat.id
    ensures |Put(d, chat)| == |d| && Put(d, chat)[k] == chat
    ensures forall i :: 0 <= i < |d| && i != k ==> Put(d, chat)[i] == d[i]
  {
    if k > 0 {
      PutExisting(d[1..], chat, k - 1);
    }
  }

  /** Looking a key up finds some name exactly when an item has that key. */
  lemma {:induction false} LookupIsMember<Id>(d: seq<Chat<Id>>, id: Id)
    ensures Lookup(d, id).Some? <==> exists x :: x in d && x.id == id
  {
    if d != [] {
      LookupIsMember(d[1..], id);
      assert forall x :: x in d <==> x == d[0] || x in d[1..];
    }
  }

  lemma {:induction false} LookupIsItem<Id>(d: seq<Chat<Id>>, id: Id)
    requires DistinctKeys(d)
    ensures forall name :: Lookup(d, id) == Some(name) <==> Chat(id, name) in d
  {
    if d != [] {
      LookupIsItem(d[1..], id);
      assert forall x :: x in d <==> x == d[0] || x in d[1..];
      assert forall x :: x in d[1..] ==> x.id != d[0].id;
    }
  }
}
