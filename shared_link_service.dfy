/**
 * Shared links: bearer tokens that grant a set of actions on one note. A token is
 * admitted by a fixed chain of checks, and the read and write operations through a link
 * are gated on that chain.
 */
module SharedLinkService {
  import opened Common
  import opened Notes
  import opened SharedLinks
  import opened Stores

  /**
   * Stores a new link for the stored note `noteId`. `token` is the freshly generated
   * token, not yet in use; `creator` is the user the link is recorded for.
   */
  method Create(store: Store, noteId: NoteId, actions: set<SharedAction>, expiresAt: Option<Instant>,
                creator: User, token: Token) returns (link: SharedLink)
    requires store.Valid() && noteId in store.notes && token !in store.links
    modifies store
    ensures store.Valid() && fresh(link)
    ensures store.links == old(store.links)[token := link]
    ensures link.token == token && link.note == noteId && link.creator == creator
    ensures link.actions == actions && link.expiresAt == expiresAt && link.revokedAt == None
    ensures store.notes == old(store.notes) && store.folders == old(store.folders)
  {
    link := new SharedLink(token, noteId, creator, actions, expiresAt);
    store.links := store.links[token := link];
  }

  /**
   * The admission chain for `token` and the action it is used for, at time `now`. The
   * first check that fails decides the outcome; the link is returned when all pass.
   */
  function Validate(store: Store, token: Token, action: SharedAction, now: Instant): (r: Result<SharedLink>)
    requires store.Valid()
    reads store, store.links.Values, store.notes.Values
    ensures r == Err(NotFound("Invalid link")) <==> token !in store.links
    ensures r.Ok? ==> token in store.links && r.value == store.links[token]
    ensures r.Ok? <==>
      && token in store.links
      && var link := store.links[token];
      && link.revokedAt == None
      && !Expired(link.expiresAt, now)
      && action in link.actions
      && store.notes[link.note].deletedAt == None
      && store.FolderOf(link.note).deletedAt == None
    ensures token in store.links && store.links[token].revokedAt.Some? ==> r == Err(Forbidden("Link revoked"))
    ensures token in store.links && store.links[token].revokedAt == None ==>
      (r == Err(Forbidden("Link expired")) <==> Expired(store.links[token].expiresAt, now))
  {
    if token !in store.links then Err(NotFound("Invalid link"))
    else
      var link := store.links[token];
      if link.revokedAt.Some? then Err(Forbidden("Link revoked"))
      else if Expired(link.expiresAt, now) then Err(Forbidden("Link expired"))
      else if action !in link.actions then Err(Forbidden("Action not allowed"))
      else if store.notes[link.note].deletedAt.Some? then Err(Forbidden("Note deleted"))
      else if store.FolderOf(link.note).deletedAt.Some? then Err(Forbidden("Note's folder deleted"))
      else Ok(link)
  }

  /** One check of an admission chain: whether it passes, and what it reports if not. */
  datatype Check = Check(passes: bool, failure: Error)

  /** A reference reading of an ordered chain: the failure of its first failing check. */
  function FirstFailure(checks: seq<Check>): Option<Error>
  {
    if checks == [] then None
    else if !checks[0].passes then Some(checks[0].failure)
    else FirstFailure(checks[1..])
  }

  /** The checks of the chain after the token lookup, in order. */
  function LinkChecks(store: Store, link: SharedLink, action: SharedAction, now: Instant): seq<Check>
    requires store.Valid() && link.note in store.notes
    reads store, link, store.notes.Values
  {
    [ Check(link.revokedAt == None, Forbidden("Link revoked")),
      Check(!Expired(link.expiresAt, now), Forbidden("Link expired")),
      Check(action in link.actions, Forbidden("Action not allowed")),
      Check(store.notes[link.note].deletedAt == None, Forbidden("Note deleted")),
      Check(store.FolderOf(link.note).deletedAt == None, Forbidden("Note's folder deleted")) ]
  }

  /**
   * Validate is the ordered chain: an unknown token is not found; otherwise the first of
   * revoked, expired, action not allowed, note deleted, folder deleted that holds is the
   * reported failure, and success means none holds.
   */
  lemma {:induction false} ValidateIsFirstFailure(store: Store, token: Token, action: SharedAction, now: Instant)
    requires store.Valid()
    ensures token !in store.links ==> Validate(store, token, action, now) == Err(NotFound("Invalid link"))
    ensures token in store.links ==>
      var link := store.links[token];
      match FirstFailure(LinkChecks(store, link, action, now))
      case None => Validate(store, token, action, now) == Ok(link)
      case Some(e) => Validate(store, token, action, now) == Err(e)
  {
    if token in store.links {
      var link := store.links[token];
      var checks := LinkChecks(store, link, action, now);
      assert checks[4..][1..] == [];
      assert checks[3..][1..] == checks[4..];
      assert checks[2..][1..] == checks[3..];
      assert checks[1..][1..] == checks[2..];
      assert FirstFailure(checks[4..]) == if checks[4].passes then None else Some(checks[4].failure);
      assert FirstFailure(checks[3..]) == if checks[3].passes then FirstFailure(checks[4..]) else Some(checks[3].failure);
      assert FirstFailure(checks[2..]) == if checks[2].passes then FirstFailure(checks[3..]) else Some(checks[2].failure);
      assert FirstFailure(checks[1..]) == if checks[1].passes then FirstFailure(checks[2..]) else Some(checks[1].failure);
    }
  }

  /** An expired link stays expired: later instants are rejected the same way. */
  lemma ExpiryIsPermanent(store: Store, token: Token, action: SharedAction, now: Instant, later: Instant)
    requires store.Valid() && now <= later
    requires Validate(store, token, action, now) == Err(Forbidden("Link expired"))
    ensures Validate(store, token, action, later) == Err(Forbidden("Link expired"))
  {
  }

  /** A link admitted at some instant was admitted at every earlier one. */
  lemma AdmittedEarlier(store: Store, token: Token, action: SharedAction, now: Instant, earlier: Instant)
    requires store.Valid() && earlier <= now
    requires Validate(store, token, action, now).Ok?
    ensures Validate(store, token, action, earlier).Ok?
  {
  }

  /** The bound note, as a response, when the token admits reading it. */
  method GetNote(store: Store, token: Token, now: Instant) returns (r: Result<NoteResponse>)
    requires store.Valid()
    ensures r.Ok? <==> Validate(store, token, Read, now).Ok?
    ensures r.Err? ==> Validate(store, token, Read, now) == Err(r.error)
    ensures r.Ok? ==> token in store.links && r.value.Shows(store.notes[store.links[token].note])
  {
    var v := Validate(store, token, Read, now);
    if v.Err? {
      return Err(v.error);
    }
    var note := store.notes[v.value.note];
    var response := NoteResponse.FromEntity(note);
    r := Ok(response);
  }

  /**
   * Writes through a link that admits updating: new content, when given, replaces the
   * note's content and stamps `updatedAt`; absent content leaves the note as it was. The
   * clock is read twice: `now` when the link is checked, `stamp` when the note is stamped.
   */
  method UpdateViaSharedLink(store: Store, token: Token, content: Option<string>, now: Instant, stamp: Instant)
    returns (r: Result<NoteResponse>)
    requires store.Valid()
    modifies if token in store.links then {store.notes[store.links[token].note]} else {}
    ensures store.Valid()
    ensures r.Ok? <==> old(Validate(store, token, Update, now)).Ok?
    ensures r.Err? ==> old(Validate(store, token, Update, now)) == Err(r.error)
    ensures token in store.links ==>
      var note := store.notes[store.links[token].note];
      && note.id == old(note.id) && note.owner == old(note.owner) && note.folder == old(note.folder)
      && note.deletedAt == old(note.deletedAt)
      && (r.Err? || content.None? ==> note.content == old(note.content) && note.updatedAt == old(note.updatedAt))
      && (r.Ok? && content.Some? ==> note.content == content.value && note.updatedAt == Some(stamp))
      && (r.Ok? ==> r.value.Shows(note))
  {
    var v := Validate(store, token, Update, now);
    if v.Err? {
      return Err(v.error);
    }
    var note := store.notes[v.value.note];
    if content.Some? {
      note.SetContent(content.value);
      note.SetUpdatedAt(stamp);
    }
    var response := NoteResponse.FromEntity(note);
    r := Ok(response);
  }

  /** Revokes a link at time `now`; a link already revoked keeps its first revocation time. */
  method Revoke(store: Store, token: Token, now: Instant) returns (r: Result<()>)
    requires store.Valid()
    modifies if token in store.links then {store.links[token]} else {}
    ensures store.Valid()
    ensures token !in store.links ==> r == Err(NotFound("Invalid link"))
    ensures token in store.links ==>
      var link := store.links[token];
      && r == Ok(())
      && link.revokedAt == (if old(link.revokedAt).Some? then old(link.revokedAt) else Some(now))
      && link.creator == old(link.creator)
  {
    if token !in store.links {
      return Err(NotFound("Invalid link"));
    }
    var link := store.links[token];
    if link.revokedAt.Some? {
      return Ok(());
    }
    link.Revoke(now);
    r := Ok(());
  }

  /** Revoking twice leaves the link as revoking once does, and the second call succeeds too. */
  method RevokeTwice(store: Store, token: Token, first: Instant, second: Instant) returns (r: Result<()>)
    requires store.Valid()
    modifies if token in store.links then {store.links[token]} else {}
    ensures store.Valid()
    ensures token !in store.links ==> r == Err(NotFound("Invalid link"))
    ensures token in store.links ==>
      var link := store.links[token];
      && r == Ok(())
      && link.revokedAt == (if old(link.revokedAt).Some? then old(link.revokedAt) else Some(first))
  {
    r := Revoke(store, token, first);
    r := Revoke(store, token, second);
  }
}
