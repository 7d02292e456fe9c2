/**
 * Owner-scoped note operations. Each operation looks the note or folder up, checks that the
 * acting user owns it, and only then touches the store; every check that fails throws
 * before the store is written.
 */
module NoteService {
  import opened Common
  import opened Notes
  import opened SharedLinks
  import opened Stores

  /**
   * Creates a note in a folder the user owns. `newId` is the id the store generates for
   * the row; it is not yet in use.
   */
  method Create(store: Store, folderId: FolderId, content: string, user: User, newId: NoteId)
    returns (r: Result<NoteResponse>)
    requires store.Valid() && newId !in store.notes
    modifies store
    ensures store.Valid()
    ensures store.folders == old(store.folders) && store.links == old(store.links)
    ensures folderId !in store.folders ==>
      r == Err(NotFound("Folder not found")) && store.notes == old(store.notes)
    ensures folderId in store.folders && store.folders[folderId].owner != user ==>
      r == Err(Forbidden("Not your folder")) && store.notes == old(store.notes)
    ensures folderId in store.folders && store.folders[folderId].owner == user ==>
      && newId in store.notes && fresh(store.notes[newId])
      && store.notes == old(store.notes)[newId := store.notes[newId]]
      && var note := store.notes[newId];
      && note.id == Some(newId) && note.content == content && note.owner == user
      && note.folder == Some(folderId) && note.deletedAt == None && note.updatedAt == None
      && r.Ok? && r.value.Shows(note)
    ensures old(store.OwnersAgree()) ==> store.OwnersAgree()
  {
    if folderId !in store.folders {
      return Err(NotFound("Folder not found"));
    }
    var folder := store.folders[folderId];
    if !folder.IsOwnedBy(user) {
      return Err(Forbidden("Not your folder"));
    }
    var note := new Note(content, user, folderId);
    note.id := Some(newId);
    store.notes := store.notes[newId := note];
    var response := NoteResponse.FromEntity(note);
    r := Ok(response);
  }

  /**
   * The note `id` as its owner sees it. A note of another user is reported as forbidden,
   * not as missing, and so is a note whose folder the user does not own.
   */
  method GetById(store: Store, id: NoteId, user: User) returns (r: Result<NoteResponse>)
    requires store.Valid()
    ensures id !in store.notes ==> r == Err(NotFound("Note not found"))
    ensures id in store.notes && store.notes[id].owner != user ==> r == Err(Forbidden("Not your note"))
    ensures id in store.notes && store.notes[id].owner == user && store.FolderOf(id).owner != user ==>
      r == Err(Forbidden("Folder does not belong to you"))
    ensures r.Ok? <==> id in store.notes && store.notes[id].owner == user && store.FolderOf(id).owner == user
    ensures r.Ok? ==> id in store.notes && r.value.Shows(store.notes[id])
    ensures store.OwnersAgree() ==> (r.Ok? <==> id in store.notes && store.notes[id].owner == user)
  {
    if id !in store.notes {
      return Err(NotFound("Note not found"));
    }
    var note := store.notes[id];
    if !note.IsOwnedBy(user) {
      return Err(Forbidden("Not your note"));
    }
    if !store.folders[note.folder.value].IsOwnedBy(user) {
      return Err(Forbidden("Folder does not belong to you"));
    }
    var response := NoteResponse.FromEntity(note);
    r := Ok(response);
  }

  /**
   * One response per note `query` selects: `shown[i]` is the stored note `responses[i]`
   * shows, and every selected note is shown exactly once.
   */
  method Responses(store: Store, query: Query) returns (responses: seq<NoteResponse>, ghost shown: seq<NoteId>)
    requires store.Valid()
    ensures |responses| == |shown|
    ensures forall i :: 0 <= i < |shown| ==>
      shown[i] in store.notes && query.Selects(store.notes[shown[i]]) && responses[i].Shows(store.notes[shown[i]])
    ensures forall k :: k in store.notes && query.Selects(store.notes[k]) ==> k in shown
    ensures forall i, j :: 0 <= i < j < |shown| ==> shown[i] != shown[j]
  {
    var found;
    found, shown := store.Find(query);
    responses := [];
    for i := 0 to |found|
      invariant store.Valid() && |responses| == i
      invariant forall j :: 0 <= j < i ==> responses[j].Shows(found[j])
    {
      ghost var k := shown[i];
      assert k in store.notes && found[i] == store.notes[k];
      var response := NoteResponse.FromEntity(found[i]);
      responses := responses + [response];
    }
  }

  /** Every note the user owns, each once; notes in folders of other users included. */
  method GetMyNotes(store: Store, user: User) returns (responses: seq<NoteResponse>, ghost shown: seq<NoteId>)
    requires store.Valid()
    ensures |responses| == |shown|
    ensures forall i :: 0 <= i < |shown| ==>
      shown[i] in store.notes && store.notes[shown[i]].owner == user && responses[i].Shows(store.notes[shown[i]])
    ensures forall k :: k in store.notes && store.notes[k].owner == user ==> k in shown
    ensures forall i, j :: 0 <= i < j < |shown| ==> shown[i] != shown[j]
  {
    responses, shown := Responses(store, ByOwner(user));
  }

  /** Overwrites the content of a note the user owns; nothing else changes. */
  method Update(store: Store, id: NoteId, content: string, user: User) returns (r: Result<NoteResponse>)
    requires store.Valid()
    modifies if id in store.notes then {store.notes[id]} else {}
    ensures store.Valid()
    ensures id !in store.notes ==> r == Err(NotFound("Note not found"))
    ensures id in store.notes && store.notes[id].owner != user ==>
      r == Err(Forbidden("Not your note")) && store.notes[id].content == old(store.notes[id].content)
    ensures id in store.notes && store.notes[id].owner == user ==>
      && store.notes[id].content == content
      && r.Ok? && r.value.Shows(store.notes[id])
    ensures id in store.notes ==>
      var note := store.notes[id];
      && note.id == old(note.id) && note.owner == old(note.owner) && note.folder == old(note.folder)
      && note.deletedAt == old(note.deletedAt) && note.updatedAt == old(note.updatedAt)
    ensures old(store.OwnersAgree()) ==> store.OwnersAgree()
  {
    if id !in store.notes {
      return Err(NotFound("Note not found"));
    }
    var note := store.notes[id];
    if !note.IsOwnedBy(user) {
      return Err(Forbidden("Not your note"));
    }
    note.SetContent(content);
    var response := NoteResponse.FromEntity(note);
    r := Ok(response);
  }

  /**
   * Removes a note the user owns from the store (a hard delete). A shared link still bound
   * to the note would violate the link table's foreign key, so none may be.
   */
  method Delete(store: Store, id: NoteId, user: User) returns (r: Result<()>)
    requires store.Valid()
    requires id in store.notes && store.notes[id].owner == user ==>
      forall t :: t in store.links ==> store.links[t].note != id
    modifies store
    ensures store.Valid()
    ensures store.folders == old(store.folders) && store.links == old(store.links)
    ensures id !in old(store.notes) ==> r == Err(NotFound("Note not found")) && store.notes == old(store.notes)
    ensures id in old(store.notes) && old(store.notes[id].owner) != user ==>
      r == Err(Forbidden("Not your note")) && store.notes == old(store.notes)
    ensures id in old(store.notes) && old(store.notes[id].owner) == user ==>
      r == Ok(()) && store.notes == old(store.notes) - {id}
    ensures old(store.OwnersAgree()) ==> store.OwnersAgree()
  {
    if id !in store.notes {
      return Err(NotFound("Note not found"));
    }
    var note := store.notes[id];
    if !note.IsOwnedBy(user) {
      return Err(Forbidden("Not your note"));
    }
    store.notes := store.notes - {id};
    r := Ok(());
  }

  /** Every note of a folder the user owns, each once. */
  method GetByFolder(store: Store, folderId: FolderId, user: User)
    returns (r: Result<seq<NoteResponse>>, ghost shown: seq<NoteId>)
    requires store.Valid()
    ensures folderId !in store.folders ==> r == Err(NotFound("Folder not found"))
    ensures folderId in store.folders && store.folders[folderId].owner != user ==> r == Err(Forbidden("Not your folder"))
    ensures r.Ok? <==> folderId in store.folders && store.folders[folderId].owner == user
    ensures r.Ok? ==>
      && |r.value| == |shown|
      && (forall i :: 0 <= i < |shown| ==>
            shown[i] in store.notes && store.notes[shown[i]].folder == Some(folderId)
            && r.value[i].Shows(store.notes[shown[i]]))
      && (forall k :: k in store.notes && store.notes[k].folder == Some(folderId) ==> k in shown)
      && (forall i, j :: 0 <= i < j < |shown| ==> shown[i] != shown[j])
  {
    shown := [];
    if folderId !in store.folders {
      return Err(NotFound("Folder not found")), shown;
    }
    var folder := store.folders[folderId];
    if !folder.IsOwnedBy(user) {
      return Err(Forbidden("Not your folder")), shown;
    }
    var responses;
    responses, shown := Responses(store, ByFolder(folderId));
    r := Ok(responses);
  }
}
