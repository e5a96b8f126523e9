/** The two MongoDB collections the service uses, as values.

    `users` is keyed by username (the service only ever looks accounts up by
    that field). `notes` is a sequence of documents in the collection's natural
    order: `find` returns matches in that order, and `find_one_and_delete` /
    `find_one_and_replace` act on the first document matching their filter. */
module NoteStore {
  import opened Base
  import opened Json
  import opened Platform

  /** An account document `{username, password, wishlist}`. */
  datatype User = User(username: string, password: Hash, wishlist: seq<Json>)

  /** Creation stamps the field `lastEdited`; replacement writes a document
      whose stamp field is `lastUpdated` instead. */
  datatype Stamp = LastEdited(at: Time) | LastUpdated(at: Time)

  /** A note document without its `_id`. */
  datatype Note = Note(title: Json, items: Json, stamp: Stamp, user: string)

  /** A stored note document together with its `_id`. */
  datatype Doc = Doc(id: Id, note: Note)

  datatype State = State(users: map<string, User>, notes: seq<Doc>)

  /** Every account is filed under its own username. */
  ghost predicate UsersKeyed(users: map<string, User>)
  {
    forall u :: u in users ==> users[u].username == u
  }

  /** No two note documents share an `_id` (the collection's primary key). */
  ghost predicate UniqueIds(s: seq<Doc>)
  {
    forall i, j :: 0 <= i < j < |s| ==> s[i].id != s[j].id
  }

  ghost predicate Valid(st: State)
  {
    UsersKeyed(st.users) && UniqueIds(st.notes)
  }

  /** Position of the first document whose `_id` is `id`: the document a
      `{'_id': id}` filter selects. */
  function IndexOf(s: seq<Doc>, id: Id): (r: Option<nat>)
    ensures r.Some? ==> r.value < |s| && s[r.value].id == id
    ensures r.Some? ==> forall j :: 0 <= j < r.value ==> s[j].id != id
    ensures r.None? ==> forall j :: 0 <= j < |s| ==> s[j].id != id
  {
    if |s| == 0 then None
    else if s[0].id == id then Some(0)
    else match IndexOf(s[1..], id)
      case None => None
      case Some(k) => Some(k + 1)
  }

  /** The collection without its `i`-th document; the others keep their order. */
  function RemoveAt(s: seq<Doc>, i: nat): (r: seq<Doc>)
    requires i < |s|
    ensures |r| == |s| - 1
    ensures forall j :: 0 <= j < i ==> r[j] == s[j]
    ensures forall j :: i <= j < |r| ==> r[j] == s[j + 1]
  {
    s[..i] + s[i + 1..]
  }

  /** Documents whose `user` field equals `user`, in collection order:
      the result of `find({"user": user})`. */
  function Owned(s: seq<Doc>, user: string): (r: seq<Doc>)
    ensures |r| <= |s|
    ensures forall d :: d in r <==> d in s && d.note.user == user
  {
    if |s| == 0 then []
    else if s[0].note.user == user then [s[0]] + Owned(s[1..], user)
    else Owned(s[1..], user)
  }

  /** The owner's documents are drawn from the collection, each at most as
      often as it is stored there. */
  lemma {:induction false} OwnedSub(s: seq<Doc>, user: string)
    ensures multiset(Owned(s, user)) <= multiset(s)
  {
    if |s| > 0 {
      OwnedSub(s[1..], user);
      assert s == [s[0]] + s[1..];
    }
  }

  /** The scan of `find({"user": user})` followed by the endpoint's cursor
      loop: the query keeps the owner's documents and the loop collects every
      one the cursor yields, in collection order. */
  method CollectOwned(s: seq<Doc>, user: string) returns (result: seq<Doc>)
    ensures result == Owned(s, user)
  {
    result := [];
    var i := 0;
    while i < |s|
      invariant 0 <= i <= |s|
      invariant Owned(s, user) == result + Owned(s[i..], user)
    {
      assert s[i..] == [s[i]] + s[i + 1..];
      if s[i].note.user == user {
        result := result + [s[i]];
      }
      i := i + 1;
    }
  }

  /** Filtering distributes over concatenation. */
  lemma {:induction false} OwnedAppend(a: seq<Doc>, b: seq<Doc>, user: string)
    ensures Owned(a + b, user) == Owned(a, user) + Owned(b, user)
  {
    if |a| == 0 {
      assert a + b == b;
    } else {
      assert (a + b)[1..] == a[1..] + b;
      OwnedAppend(a[1..], b, user);
    }
  }

  /** Appending a document with a fresh `_id` keeps the ids unique, and the
      new document is what a lookup of that id then selects. */
  lemma AppendFresh(s: seq<Doc>, d: Doc)
    requires UniqueIds(s)
    requires IndexOf(s, d.id).None?
    ensures UniqueIds(s + [d])
    ensures IndexOf(s + [d], d.id) == Some(|s|)
  {
    var t := s + [d];
    assert t[|s|].id == d.id;
    assert forall j :: 0 <= j < |s| ==> t[j] == s[j];
  }

  /** Removing the document an id selects leaves the ids unique and leaves no
      document with that id behind. */
  lemma RemoveSelected(s: seq<Doc>, id: Id)
    requires UniqueIds(s)
    requires IndexOf(s, id).Some?
    ensures UniqueIds(RemoveAt(s, IndexOf(s, id).value))
    ensures IndexOf(RemoveAt(s, IndexOf(s, id).value), id).None?
  {
  }

  /** Overwriting a document under its own id keeps the ids unique. */
  lemma ReplaceSelected(s: seq<Doc>, i: nat, n: Note)
    requires UniqueIds(s)
    requires i < |s|
    ensures UniqueIds(s[i := Doc(s[i].id, n)])
  {
  }

  /** Removing a document that was just appended restores the collection. */
  lemma RemoveAppended(s: seq<Doc>, d: Doc)
    requires IndexOf(s, d.id).None?
    ensures IndexOf(s + [d], d.id) == Some(|s|)
    ensures RemoveAt(s + [d], |s|) == s
  {
  }
}
