/**
 * The persistent state both services work on: notes keyed by id, folders keyed by id and
 * shared links keyed by token, standing for the note, folder and shared-link repositories.
 */
module Stores {
  import opened Common
  import opened Notes
  import opened SharedLinks

  class Store {
    var notes: map<NoteId, Note>
    var folders: map<FolderId, Folder>
    var links: map<Token, SharedLink>

    /**
     * What the schema guarantees of stored rows: every key is its row's id (so no two keys
     * share an entity, and no two links share a token), every note has a stored folder,
     * and every link is bound to a stored note.
     */
    ghost predicate Valid()
      reads this, notes.Values
    {
      && (forall k :: k in notes ==> notes[k].id == Some(k))
      && (forall k :: k in notes ==> notes[k].folder.Some? && notes[k].folder.value in folders)
      && (forall f :: f in folders ==> folders[f].id == f)
      && (forall t :: t in links ==> links[t].token == t && links[t].note in notes)
    }

    /** Every note is owned by the owner of its folder. The stored state need not satisfy this. */
    ghost predicate OwnersAgree()
      reads this, notes.Values
      requires Valid()
    {
      forall k :: k in notes ==> notes[k].owner == folders[notes[k].folder.value].owner
    }

    /** An empty note store and empty link store over the given folders. */
    constructor (folders: map<FolderId, Folder>)
      requires forall f :: f in folders ==> folders[f].id == f
      ensures Valid() && OwnersAgree()
      ensures this.folders == folders && notes == map[] && links == map[]
    {
      this.folders := folders;
      this.notes := map[];
      this.links := map[];
    }

    /** The folder of the stored note `id`. */
    function FolderOf(id: NoteId): Folder
      reads this, notes.Values
      requires Valid() && id in notes
    {
      folders[notes[id].folder.value]
    }

    /**
     * The stored notes that `query` selects, each exactly once, in an order the store
     * chooses (the derived queries findByOwner and findByFolder); `keys` are their ids.
     */
    method Find(query: Query) returns (found: seq<Note>, ghost keys: seq<NoteId>)
      ensures |found| == |keys|
      ensures forall i :: 0 <= i < |keys| ==> keys[i] in notes && found[i] == notes[keys[i]]
      ensures forall i :: 0 <= i < |found| ==> query.Selects(found[i])
      ensures forall k :: k in notes && query.Selects(notes[k]) ==> k in keys
      ensures forall i, j :: 0 <= i < j < |keys| ==> keys[i] != keys[j]
    {
      found, keys := [], [];
      var rest := notes.Keys;
      while rest != {}
        invariant rest <= notes.Keys && |found| == |keys|
        invariant forall i :: 0 <= i < |keys| ==> keys[i] in notes && keys[i] !in rest && found[i] == notes[keys[i]]
        invariant forall i :: 0 <= i < |found| ==> query.Selects(found[i])
        invariant forall k :: k in notes && k !in rest && query.Selects(notes[k]) ==> k in keys
        invariant forall i, j :: 0 <= i < j < |keys| ==> keys[i] != keys[j]
        decreases rest
      {
        HasMember(rest);
        var k :| k in rest;
        if query.Selects(notes[k]) {
          found, keys := found + [notes[k]], keys + [k];
        }
        rest := rest - {k};
      }
    }
  }

  /**
   * A non-empty set of keys has a member. `Store.Find` calls it before picking the next key:
   * with contradictory-assumption checking on, the verifier does not derive the member
   * from `keys != {}` by itself.
   */
  lemma HasMember(keys: set<int>)
    requires keys != {}
    ensures exists k :: k in keys
  {
    if forall k :: k !in keys {
      assert false;
    }
  }

  /** The two repository queries the note service runs. */
  datatype Query = ByOwner(owner: User) | ByFolder(folder: FolderId) {
    predicate Selects(note: Note)
      reads note
    {
      match this
      case ByOwner(owner) => note.owner == owner
      case ByFolder(folder) => note.folder == Some(folder)
    }
  }
}
