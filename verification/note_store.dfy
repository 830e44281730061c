/** The notes table and the service's writes to it: `save`, `updateText`
    and `updateTag`, plus the relation between the table and the
    newest-first listing the read paths work on. */
module NoteStore {
  import opened Wrappers
  import opened JavaText
  import opened Domain

  /** The table, keyed by id. */
  type Store = map<int, Note>

  /** Every row sits under its own id. */
  ghost predicate WellKeyed(store: Store)
  {
    forall k :: k in store ==> store[k].id == k
  }

  /** Every row has a creation time. */
  ghost predicate AllDated(store: Store)
  {
    forall k :: k in store ==> store[k].createdAt.Some?
  }

  /** Every row's embedding is the one the embedding call yields for its
      current text. */
  ghost predicate EmbeddingsCurrent(store: Store, embedNote: string -> string)
  {
    forall k :: k in store ==> store[k].embedding == Some(embedNote(store[k].text))
  }

  /** `listing` is what `findAll(Sort.by(DESC, "createdAt"))` may return:
      every row exactly once, dated rows newest first. Where undated rows
      land is left to the database. */
  ghost predicate IsListing(store: Store, listing: seq<Note>)
  {
    && (forall i, j :: 0 <= i < j < |listing| ==> listing[i].id != listing[j].id)
    && (forall i :: 0 <= i < |listing| ==> listing[i].id in store && store[listing[i].id] == listing[i])
    && (forall k :: k in store ==> store[k] in listing)
    && (forall i, j :: 0 <= i < j < |listing| && listing[i].createdAt.Some? && listing[j].createdAt.Some? ==>
          listing[i].createdAt.value >= listing[j].createdAt.value)
  }

  /** The listing holds exactly the stored rows, and is empty exactly when
      the table is. */
  lemma ListingMembers(store: Store, listing: seq<Note>)
    requires WellKeyed(store) && IsListing(store, listing)
    ensures forall n :: n in listing <==> n.id in store && store[n.id] == n
    ensures listing == [] <==> store == map[]
  {
    if listing == [] {
      assert forall k :: k !in store;
      assert store.Keys == {};
      assert store == map[];
    } else {
      assert listing[0].id in store;
    }
  }

  /** A note as it arrives from a form or a JSON body: the id, creation
      time and embedding may or may not be filled in. */
  datatype Draft = Draft(
    id: Option<int>,
    text: string,
    tag: Option<string>,
    createdAt: Option<int>,
    embedding: Option<string>)

  /** `save`: a missing creation time becomes `now`; the embedding is
      always recomputed from the text, whatever the draft carried; the row
      is written under the draft's id when that id is stored, and under the
      identity column's next value `nextId` otherwise. */
  function Save(store: Store, d: Draft, now: int, nextId: int, embedNote: string -> string): (r: (Store, Note))
    requires nextId !in store
    ensures var (store', saved) := r;
      && saved.text == d.text && saved.tag == d.tag
      && saved.createdAt.Some?
      && (d.createdAt.Some? ==> saved.createdAt == d.createdAt)
      && saved.embedding == Some(embedNote(d.text))
      && (d.id.Some? && d.id.value in store ==> saved.id == d.id.value)
      && (d.id.None? || d.id.value !in store ==> saved.id == nextId)
      && store'.Keys == store.Keys + {saved.id}
      && store'[saved.id] == saved
      && (forall k :: k in store && k != saved.id ==> store'[k] == store[k])
  {
    var id := if d.id.Some? && d.id.value in store then d.id.value else nextId;
    var saved := Note(id, d.text, d.tag, Some(d.createdAt.GetOr(now)), Some(embedNote(d.text)));
    (store[id := saved], saved)
  }

  /** Whatever embedding a client sends with a note is discarded. */
  lemma SaveIgnoresClientEmbedding(store: Store, d: Draft, e: Option<string>, now: int, nextId: int, embedNote: string -> string)
    requires nextId !in store
    ensures Save(store, d.(embedding := e), now, nextId, embedNote) == Save(store, d, now, nextId, embedNote)
  {
  }

  /** Saving again what a save returned calls the embedding service again,
      here `embedAgain`. The second save changes nothing exactly when that
      call yields the embedding the first one did; otherwise only the
      row's embedding changes, to the new call's result (such as "[]"
      when the call fails). */
  lemma SaveIdempotent(store: Store, d: Draft, now: int, nextId: int, now2: int, nextId2: int,
                       embedNote: string -> string, embedAgain: string -> string)
    requires nextId !in store
    requires nextId2 !in Save(store, d, now, nextId, embedNote).0
    ensures var (store', saved) := Save(store, d, now, nextId, embedNote);
      var again := Draft(Some(saved.id), saved.text, saved.tag, saved.createdAt, saved.embedding);
      var (store'', saved') := Save(store', again, now2, nextId2, embedAgain);
      && saved' == saved.(embedding := Some(embedAgain(d.text)))
      && store'' == store'[saved.id := saved']
      && ((store'', saved') == (store', saved) <==> embedAgain(d.text) == embedNote(d.text))
  {
    var (store', saved) := Save(store, d, now, nextId, embedNote);
    var again := Draft(Some(saved.id), saved.text, saved.tag, saved.createdAt, saved.embedding);
    var (store'', saved') := Save(store', again, now2, nextId2, embedAgain);
    if embedAgain(d.text) == embedNote(d.text) {
      assert store'[saved.id := saved] == store';
    } else {
      assert saved'.embedding != saved.embedding;
    }
  }

  function NotFoundMessage(id: int): string
  {
    "Note not found with ID: " + IntToString(id)
  }

  /** `updateText`: replaces the text of a stored row and recomputes its
      embedding; an unknown id throws. */
  function UpdateText(store: Store, id: int, newText: string, embedNote: string -> string): (r: Result<(Store, Note), Thrown>)
    ensures id !in store <==> r.Failure?
    ensures id !in store ==> r == Failure(RuntimeError(NotFoundMessage(id)))
    ensures r.Success? ==>
      var (store', n) := r.value;
      && n == store[id].(text := newText, embedding := Some(embedNote(newText)))
      && store' == store[id := n]
  {
    if id !in store then Failure(RuntimeError(NotFoundMessage(id)))
    else
      var n := store[id].(text := newText, embedding := Some(embedNote(newText)));
      Success((store[id := n], n))
  }

  /** `updateTag`: replaces the tag (possibly with null) of a stored row;
      an unknown id throws. */
  function UpdateTag(store: Store, id: int, newTag: Option<string>): (r: Result<(Store, Note), Thrown>)
    ensures id !in store <==> r.Failure?
    ensures id !in store ==> r == Failure(RuntimeError(NotFoundMessage(id)))
    ensures r.Success? ==>
      var (store', n) := r.value;
      && n == store[id].(tag := newTag)
      && store' == store[id := n]
  {
    if id !in store then Failure(RuntimeError(NotFoundMessage(id)))
    else
      var n := store[id].(tag := newTag);
      Success((store[id := n], n))
  }

  /** The table invariant the service's writes keep. */
  ghost predicate Consistent(store: Store, embedNote: string -> string)
  {
    WellKeyed(store) && AllDated(store) && EmbeddingsCurrent(store, embedNote)
  }

  /** `save`, `updateText` and `updateTag` keep every row under its own
      id, dated, and with an embedding of its current text. */
  lemma WritesKeepConsistent(store: Store, embedNote: string -> string,
                             d: Draft, now: int, nextId: int,
                             id: int, newText: string, newTag: Option<string>)
    requires Consistent(store, embedNote)
    requires nextId !in store
    ensures Consistent(Save(store, d, now, nextId, embedNote).0, embedNote)
    ensures UpdateText(store, id, newText, embedNote).Success? ==>
              Consistent(UpdateText(store, id, newText, embedNote).value.0, embedNote)
    ensures UpdateTag(store, id, newTag).Success? ==>
              Consistent(UpdateTag(store, id, newTag).value.0, embedNote)
  {
  }

  /** A tag update leaves the text and embedding alone, so retrieval
      scores the note exactly as before. */
  lemma TagUpdateKeepsRetrievalInputs(store: Store, id: int, newTag: Option<string>)
    requires id in store
    ensures var (store', n) := UpdateTag(store, id, newTag).value;
      n.text == store[id].text && n.embedding == store[id].embedding && n.createdAt == store[id].createdAt
  {
  }
}
