/** Values shared by the note service and the shared-link service. */
module Common {

  /** Stands for a Java reference or field that may be null. */
  datatype Option<+T> = None | Some(value: T)

  /** The two exceptions the services throw, with the message each carries. */
  datatype Error = NotFound(message: string) | Forbidden(message: string)

  /** A service call either returns a value or throws one of the two exceptions. */
  datatype Result<+T> = Ok(value: T) | Err(error: Error)

  type NoteId = int
  type FolderId = int
  type Token = string

  /** A point in time; only the order of instants matters to the services. */
  type Instant = int

  /** A user. Two users are the same user exactly when they are equal values. */
  datatype User = User(id: int, email: string)

  /** A folder: its key, its owner and its soft-delete mark. No operation modelled here changes one. */
  datatype Folder = Folder(id: FolderId, owner: User, deletedAt: Option<Instant>) {
    /** Ownership is equality of users: the same id and the same e-mail address. */
    predicate IsOwnedBy(user: User): (b: bool)
      ensures b <==> owner.id == user.id && owner.email == user.email
    {
      owner == user
    }
  }

  /** The kinds of access a shared link can grant. */
  datatype SharedAction = Read | Create | Update | Delete | Share
}
