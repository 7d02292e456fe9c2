/** The shared-link entity: a bearer token granting a set of actions on one note. */
module SharedLinks {
  import opened Common

  /**
   * A shared link. The token, the bound note (by its key), the action set and the expiry
   * have no setter, so they are constants fixed at construction; only the creator and the
   * revocation mark can change.
   */
  class SharedLink {
    const token: Token
    const note: NoteId
    var creator: User
    const actions: set<SharedAction>
    const expiresAt: Option<Instant>
    var revokedAt: Option<Instant>

    /** A new link, not revoked. */
    constructor (token: Token, note: NoteId, creator: User, actions: set<SharedAction>, expiresAt: Option<Instant>)
      ensures this.token == token && this.note == note && this.creator == creator
      ensures this.actions == actions && this.expiresAt == expiresAt
      ensures revokedAt == None
    {
      this.token := token;
      this.note := note;
      this.creator := creator;
      this.actions := actions;
      this.expiresAt := expiresAt;
      this.revokedAt := None;
    }

    method SetCreator(creator: User)
      modifies this`creator
      ensures this.creator == creator
    {
      this.creator := creator;
    }

    /** Records the revocation time, overwriting any earlier one. */
    method Revoke(revokedAt: Instant)
      modifies this`revokedAt
      ensures this.revokedAt == Some(revokedAt)
    {
      this.revokedAt := Some(revokedAt);
    }
  }

  /** A link expires strictly after its expiry instant; a link without one never expires. */
  predicate Expired(expiresAt: Option<Instant>, now: Instant): (b: bool)
    ensures expiresAt == None ==> !b
    ensures expiresAt.Some? ==> (b <==> now > expiresAt.value)
    ensures expiresAt == Some(now) ==> !b
  {
    expiresAt.Some? && expiresAt.value < now
  }
}
