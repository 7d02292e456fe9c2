/** The note entity and the response object every note operation returns. */
module Notes {
  import opened Common

  /**
   * A note. The store assigns `id` when it first saves the note; `folder` holds the key of
   * the folder the note belongs to. `deletedAt` and `updatedAt` are the marks the
   * shared-link service reads and writes.
   */
  class Note {
    var id: Option<NoteId>
    var content: string
    var owner: User
    var folder: Option<FolderId>
    var deletedAt: Option<Instant>
    var updatedAt: Option<Instant>

    /** A note in a folder, not yet saved. */
    constructor (content: string, owner: User, folder: FolderId)
      ensures this.content == content && this.owner == owner && this.folder == Some(folder)
      ensures id == None && deletedAt == None && updatedAt == None
    {
      this.id := None;
      this.content := content;
      this.owner := owner;
      this.folder := Some(folder);
      this.deletedAt := None;
      this.updatedAt := None;
    }

    /** A note with no folder, not yet saved. */
    constructor WithoutFolder(content: string, owner: User)
      ensures this.content == content && this.owner == owner && folder == None
      ensures id == None && deletedAt == None && updatedAt == None
    {
      this.id := None;
      this.content := content;
      this.owner := owner;
      this.folder := None;
      this.deletedAt := None;
      this.updatedAt := None;
    }

    /** Ownership is equality of users: the same id and the same e-mail address. */
    predicate IsOwnedBy(user: User): (b: bool)
      reads this
      ensures b <==> owner.id == user.id && owner.email == user.email
    {
      owner == user
    }

    /** Overwrites the content; the frame leaves every other field as it was. */
    method SetContent(content: string)
      modifies this`content
      ensures this.content == content
    {
      this.content := content;
    }

    method SetUpdatedAt(updatedAt: Instant)
      modifies this`updatedAt
      ensures this.updatedAt == Some(updatedAt)
    {
      this.updatedAt := Some(updatedAt);
    }
  }

  /** The data transfer object a note operation hands back to its caller. */
  class NoteResponse {
    var id: Option<NoteId>
    var content: string
    var userName: string
    var folderId: Option<FolderId>

    constructor (id: Option<NoteId>, content: string, userName: string, folderId: Option<FolderId>)
      ensures this.id == id && this.content == content
      ensures this.userName == userName && this.folderId == folderId
    {
      this.content := content;
      this.userName := userName;
      this.id := id;
      this.folderId := folderId;
    }

    method SetId(id: Option<NoteId>)
      modifies this`id
      ensures this.id == id
    {
      this.id := id;
    }

    method SetContent(content: string)
      modifies this`content
      ensures this.content == content
    {
      this.content := content;
    }

    /** The user name shown is the user's email. */
    method SetUserName(user: User)
      modifies this`userName
      ensures userName == user.email
    {
      userName := user.email;
    }

    /** This response shows `note`: its id, its content, its owner's email and its folder's key. */
    ghost predicate Shows(note: Note)
      reads this, note
    {
      id == note.id && content == note.content && userName == note.owner.email && folderId == note.folder
    }

    /** The projection of a note onto a new response. The note must have a folder. */
    static method FromEntity(note: Note) returns (r: NoteResponse)
      requires note.folder.Some?
      ensures fresh(r) && r.Shows(note)
    {
      r := new NoteResponse(note.id, note.content, note.owner.email, Some(note.folder.value));
    }
  }
}
