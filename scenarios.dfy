/** A walk through the services from an empty store, stated as what each call returns. */
module Scenarios {
  import opened Common
  import opened Stores
  import NoteService
  import SharedLinkService

  /**
   * A read-only link that expires 100 units after `now`: it refuses an update, admits a
   * read, and after its expiry refuses the read as expired.
   */
  method ReadOnlyLinkExpires(owner: User, now: Instant)
    returns (update: Result<()>, read: Result<()>, late: Result<()>)
    ensures update == Err(Forbidden("Action not allowed"))
    ensures read == Ok(())
    ensures late == Err(Forbidden("Link expired"))
  {
    var store := new Store(map[1 := Folder(1, owner, None)]);
    var created := NoteService.Create(store, 1, "Secret", owner, 7);
    var link := SharedLinkService.Create(store, 7, {Read}, Some(now + 100), owner, "token");
    update := Outcome(SharedLinkService.Validate(store, "token", Update, now));
    read := Outcome(SharedLinkService.Validate(store, "token", Read, now));
    late := Outcome(SharedLinkService.Validate(store, "token", Read, now + 101));
  }

  /** A revoked link reports revocation before anything else, permitted action or not. */
  method RevokedLinkRefused(owner: User, now: Instant) returns (read: Result<()>, share: Result<()>)
    ensures read == Err(Forbidden("Link revoked"))
    ensures share == Err(Forbidden("Link revoked"))
  {
    var store := new Store(map[1 := Folder(1, owner, None)]);
    var created := NoteService.Create(store, 1, "Secret", owner, 7);
    var link := SharedLinkService.Create(store, 7, {Read}, Some(now - 1), owner, "token");
    var revoked := SharedLinkService.Revoke(store, "token", now);
    read := Outcome(SharedLinkService.Validate(store, "token", Read, now));
    share := Outcome(SharedLinkService.Validate(store, "token", Share, now));
  }

  function Outcome<T>(r: Result<T>): Result<()> {
    match r
    case Ok(_) => Ok(())
    case Err(e) => Err(e)
  }
}
