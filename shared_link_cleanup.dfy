/** The periodic purge of expired shared links. */
module SharedLinkCleanup {
  import opened Common
  import opened SharedLinks
  import opened Stores
  import SharedLinkService

  /**
   * Deletes every link whose expiry lies strictly before `now` and reports how many went.
   * Afterwards no stored link is rejected as expired at `now`.
   */
  method CleanupExpired(store: Store, now: Instant) returns (deleted: nat)
    requires store.Valid()
    modifies store
    ensures store.Valid()
    ensures store.notes == old(store.notes) && store.folders == old(store.folders)
    ensures store.links.Keys <= old(store.links).Keys
    ensures forall t :: t in old(store.links) ==>
      (t in store.links <==> !Expired(old(store.links)[t].expiresAt, now))
    ensures forall t :: t in store.links ==> store.links[t] == old(store.links)[t]
    ensures deleted == |old(store.links).Keys - store.links.Keys|
    ensures forall t, a :: SharedLinkService.Validate(store, t, a, now) != Err(Forbidden("Link expired"))
  {
    var kept := map t | t in store.links && !Expired(store.links[t].expiresAt, now) :: store.links[t];
    deleted := |store.links.Keys - kept.Keys|;
    store.links := kept;
  }
}
