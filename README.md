# secure-notes: notes, shared links and tags, modelled in Dafny

This project models the core of secure-notes, a notes service. It covers:

- **Notes** (`notes.dfy`): the `Note` entity, which belongs to one owner and one folder, and the `NoteResponse` view of a note that the API returns (`FromEntity`).
- **Shared links** (`shared_links.dfy`): the `SharedLink` entity, a bearer token that grants a set of actions on one note. It may expire and it may be revoked.
- **The store** (`stores.dfy`): the rows the repositories hold. Notes and folders are keyed by id, and links by token. `Store.Valid` is the referential invariant the schema keeps: every note has a stored folder, and every link points at a stored note. `Store.Find` models the two derived repository queries, `findByOwner` and `findByFolder`.
- **The owner-scoped note service** (`note_service.dfy`): `Create`, `GetById`, `GetMyNotes`, `Update`, `Delete` and `GetByFolder`. Every error they raise is stated as a `Result` error carrying the exception's kind (`NotFound` or `Forbidden`) and its message.
- **The shared-link service** (`shared_link_service.dfy`):
  - `Create`;
  - `Validate`, the ordered admission chain for a token: invalid, revoked, expired, action not allowed, note deleted, folder deleted;
  - `Revoke`, `GetNote` and `UpdateViaSharedLink`.
- **The expired-link cleanup job** (`shared_link_cleanup.dfy`).
- **Tag name normalisation** (`tags.dfy`): a tag's name is its input run through `trim()` and then `toLowerCase()`.
- **Scenarios** (`scenarios.dfy`): two flows. Each starts from an empty store and goes through the services with concrete inputs.

Properties proved:

- **Admission chain.** `Validate` succeeds exactly when none of the five link checks fails. When one fails, the first failing check in source order is the reported error. `ValidateIsFirstFailure` proves this against an independent reference reading, `FirstFailure` over an ordered list of checks. Expiry is monotone in time (`ExpiryIsPermanent`, `AdmittedEarlier`).
- **Link operations.** `GetNote` and `UpdateViaSharedLink` each report exactly `Validate`'s verdict. `UpdateViaSharedLink` changes the note only when it succeeds and content is present. `Revoke` is idempotent and keeps the first revocation time.
- **Note service.** Each operation reports the source's error for each failing check. It leaves the store unchanged on every error. On success it touches only the note it names. It keeps `Store.Valid`, and it keeps the invariant that a note's owner is its folder's owner. Under that invariant, `GetById` admits exactly the note's owner.
- **Listings.** They return every selected note once, and only those.
- **Cleanup.** The cleanup job removes exactly the links expired at the instant `now` it runs at. Afterwards no token is rejected as expired at that same `now`.
- **Tags.** Normalisation is idempotent. It ignores letter case and surrounding blanks.

Modelling decisions:

- **Database rows.** They are objects held in the `Store`'s maps. Saving an entity is implicit: a method changes the object in place, or it reassigns the map.
- **Values supplied by the environment.** The clock, the random UUID token and the generated note id come from the environment. Each is a parameter: `now`, `token` and `newId`. `UpdateViaSharedLink` reads the clock twice in the source, so it takes two instants: `now` for the link check and `stamp` for the update time.
- **Folders.** A folder is a value here (`Common.Folder`: id, owner, deletion time). `Folder.java` is not part of this model; its `isOwnedBy` is value equality of the owner.
- **Users.** A user is a value (`Common.User`), and `User.equals` is value equality.
- **Link to note.** A link refers to its note by id. The store resolves that id, just as the source's `link.getNote()` goes through the persistence layer.
- **Deletion and update times.** `Note.java` in this snapshot has no `deletedAt` or `updatedAt`. The service still reads `getDeletedAt()` and calls `setUpdatedAt()`, so the model gives `Note` both fields, and `SetUpdatedAt`.
- **Link creator.** `SharedLinkService.create` calls a four-argument `SharedLink` constructor. The only constructor in `SharedLink.java` takes five: the creator comes third. The model follows the entity, so `SharedLinkService.Create` takes the creator as an extra input.

## Model

| member | source | states |
|---|---|---|
| Notes.Note.constructor | src/main/java/com/example/note/Note.java:24-28 | a new note holds exactly the given content, owner and folder; it has no id yet and is neither deleted nor updated |
| Notes.Note.WithoutFolder | src/main/java/com/example/note/Note.java:30-33 | the two-argument constructor: content and owner as given, and no folder |
| Common.Folder.IsOwnedBy | src/main/java/com/example/note/NoteService.java:33 | the ownership test the service applies to folders (also at lines 52 and 100): it holds exactly when the user has the owner's id and e-mail address, so exactly one user owns a folder |
| Notes.Note.IsOwnedBy | src/main/java/com/example/note/Note.java:47-49 | it holds exactly when the user has the owner's id and e-mail address, so exactly one user owns a note |
| Notes.Note.SetContent | src/main/java/com/example/note/Note.java:51-53 | replaces the content and nothing else |
| Notes.Note.SetUpdatedAt | src/main/java/com/example/shared/SharedLinkService.java:89 | records the update time and nothing else |
| Notes.NoteResponse.constructor | src/main/java/com/example/note/NoteResponse.java:19-24 | each of the four fields holds its own argument, with no swap between them |
| Notes.NoteResponse.SetId | src/main/java/com/example/note/NoteResponse.java:37-39 | replaces the id and nothing else |
| Notes.NoteResponse.SetContent | src/main/java/com/example/note/NoteResponse.java:41-43 | replaces the content and nothing else |
| Notes.NoteResponse.SetUserName | src/main/java/com/example/note/NoteResponse.java:45-47 | the user name becomes the user's e-mail address |
| Notes.NoteResponse.FromEntity | src/main/java/com/example/note/NoteResponse.java:49-58 | a fresh response that shows the note: its id, its content, its owner's e-mail and its folder's id; a note with no folder is refused, where the source throws |
| SharedLinks.Expired | src/main/java/com/example/shared/SharedLinkService.java:43-44 | a link without an expiry never expires; a link with one is expired exactly at instants strictly after it, so at its expiry instant it is still valid |
| SharedLinks.SharedLink.constructor | src/main/java/com/example/shared/SharedLink.java:41-47 | the link holds token, note, creator, actions and expiry as given, and is not revoked |
| SharedLinks.SharedLink.SetCreator | src/main/java/com/example/shared/SharedLink.java:77-79 | replaces the creator and nothing else |
| SharedLinks.SharedLink.Revoke | src/main/java/com/example/shared/SharedLink.java:81-83 | records the revocation time and nothing else |
| Stores.Store.constructor | src/main/java/com/example/folder/FolderRepository.java:1-12 | not a model of these lines (the interface has no state): the repositories' initial contents, the given folder rows and no notes and no links; that state satisfies the referential invariant, with owners agreeing |
| Stores.Store.Find | src/main/java/com/example/note/NoteRepository.java:10-11 | returns every stored note the query selects (by owner, or by folder), exactly once each, and nothing else |
| NoteService.Create | src/main/java/com/example/note/NoteService.java:27-40 | a missing folder is "Folder not found"; a folder of another user is "Not your folder"; either error leaves the store unchanged; otherwise a fresh note with the given content, owner and folder is added under the new id and the response shows it; folders and links are untouched and both store invariants are kept |
| NoteService.GetById | src/main/java/com/example/note/NoteService.java:42-57 | "Note not found", "Not your note" and "Folder does not belong to you", checked in that order; success exactly when all three pass, with a response that shows the note; when owners agree, success exactly for the note's owner |
| NoteService.Responses | src/main/java/com/example/note/NoteService.java:62-65 | mapping `fromEntity` over a query's result: one response per selected note, each showing its note, every selected note once |
| NoteService.GetMyNotes | src/main/java/com/example/note/NoteService.java:59-66 | responses for exactly the notes the user owns, each once, each showing its note |
| NoteService.Update | src/main/java/com/example/note/NoteService.java:68-81 | "Note not found" and "Not your note" leave the content as it was; for the owner the content becomes the new one and the response shows the note; no other field of the note changes; the store invariants are kept |
| NoteService.Delete | src/main/java/com/example/note/NoteService.java:83-92 | "Note not found" and "Not your note" leave the store unchanged; for the owner the note is removed and nothing else is |
| NoteService.GetByFolder | src/main/java/com/example/note/NoteService.java:94-108 | "Folder not found", then "Not your folder"; success exactly when the user owns the folder, with responses for exactly the notes in it, each once |
| SharedLinkService.Create | src/main/java/com/example/shared/SharedLinkService.java:29-33 | a fresh, unrevoked link with the given note, actions, expiry and creator is stored under the new token; notes and folders are untouched |
| SharedLinkService.Validate | src/main/java/com/example/shared/SharedLinkService.java:35-60 | "Invalid link" exactly when the token is unknown; success exactly when the link is not revoked, not expired, grants the action, and neither its note nor that note's folder is deleted, and then it returns the stored link; a revoked link is always "Link revoked"; an unrevoked link is "Link expired" exactly when its expiry lies before `now` |
| SharedLinkService.ValidateIsFirstFailure | src/main/java/com/example/shared/SharedLinkService.java:35-60 | `Validate` agrees with the reference reading: the reported error is the first failing check of the ordered chain, and success means no check fails |
| SharedLinkService.ExpiryIsPermanent | src/main/java/com/example/shared/SharedLinkService.java:43-46 | a link rejected as expired at one instant is rejected as expired at every later one |
| SharedLinkService.AdmittedEarlier | src/main/java/com/example/shared/SharedLinkService.java:43-46 | a link admitted at one instant is admitted at every earlier one |
| SharedLinkService.GetNote | src/main/java/com/example/shared/SharedLinkService.java:74-78 | succeeds exactly when the token admits reading, with `Validate`'s error otherwise; on success the response shows the linked note |
| SharedLinkService.UpdateViaSharedLink | src/main/java/com/example/shared/SharedLinkService.java:82-94 | succeeds exactly when the token admits updating, with `Validate`'s error otherwise; content and update time change only on success with content present, and then to the new content and the second clock reading `stamp`; owner, folder, id and deletion time never change; on success the response shows the note |
| SharedLinkService.Revoke | src/main/java/com/example/shared/SharedLinkService.java:62-72 | "Invalid link" for an unknown token; otherwise success, with the revocation time set to `now` if it was unset and kept if it was set; the creator is untouched |
| SharedLinkService.RevokeTwice | src/main/java/com/example/shared/SharedLinkService.java:62-72 | revocation is idempotent: a second revoke succeeds and leaves the first revocation time in place |
| SharedLinkCleanup.CleanupExpired | src/main/java/com/example/jobs/SharedLinkCleanupExecutor.java:37 | a link is removed exactly when its expiry lies before `now`; the links kept are unchanged; the count is the number removed; afterwards no token is rejected as expired at `now` |
| Scenarios.ReadOnlyLinkExpires | src/main/java/com/example/shared/SharedLinkService.java:29-60 | a read-only link refuses an update with "Action not allowed", admits a read, and once past its expiry refuses the read with "Link expired" |
| Scenarios.RevokedLinkRefused | src/main/java/com/example/shared/SharedLinkService.java:35-72 | once revoked, a link reports "Link revoked" for every action, even when it has also expired |
| Tags.Lead | src/main/java/com/example/tag/Tag.java:15 | the count of characters up to U+0020 at the start of the input, which `trim()` drops |
| Tags.Trail | src/main/java/com/example/tag/Tag.java:15 | the count of characters up to U+0020 at the end of the input, which `trim()` drops |
| Tags.Trim | src/main/java/com/example/tag/Tag.java:15 | `trim()`: a slice of the input that starts after the leading blanks, is followed only by blanks, and neither starts nor ends with a blank |
| Tags.Lower | src/main/java/com/example/tag/Tag.java:15 | `toLowerCase()` over ASCII: same length, with each character lower-cased in place |
| Tags.Normalize | src/main/java/com/example/tag/Tag.java:15 | `name.trim().toLowerCase()`: the result has no blank at either end and no upper-case ASCII letter, and it is the lower-cased input once the blanks around it are dropped |
| Tags.NewTag | src/main/java/com/example/tag/Tag.java:15 | the constructor: the stored name has no blank at either end and no upper-case ASCII letter, and it is the lower-cased input with the surrounding blanks dropped |
| Tags.TrimLowerCommute | src/main/java/com/example/tag/Tag.java:15 | trimming and lower-casing commute |
| Tags.NormalizeIdempotent | src/main/java/com/example/tag/Tag.java:15 | constructing a tag from a stored tag name gives the same tag |
| Tags.CaseInsensitive | src/main/java/com/example/tag/Tag.java:11-15 | inputs that differ only in ASCII letter case make the same tag, so the unique name column sees one name |
| Tags.SurroundingBlanksIgnored | src/main/java/com/example/tag/Tag.java:11-15 | blanks added before or after an input do not change the tag it makes |

## Left out

- NoteService.Delete: requires that no shared link still refers to the note. In the source the link table's foreign key makes `deleteById` fail in that case, and that database failure is not part of this model.
- Notes.NoteResponse.FromEntity: requires the note to have a folder. In the source, a note without one makes `note.getFolder().getId()` throw a `NullPointerException`. Every note in a `Store` has a folder, so this precondition never excludes a stored note.
- Null values: Java `null` content, null arguments and null fields are not modelled. Content is a `string`. The update request's optional content is an `Option`, which has a `None` case where the source has `null`. Every other optional field (id, folder, expiry, revocation and deletion times) is an `Option` too.
- Authentication: `currentUser.get(auth)` resolves the acting user, and that resolution is left out. Each service method takes the `User` directly.
- `OwnerAuthorization`: left out, because its body is empty.
- Side effects with no bearing on results: logging, the cleanup job's retry policy and recovery handler, its MDC trace id, and transaction boundaries (`@Transactional`). Each call is modelled as one atomic step.
- Ids and time: id generation for notes and links, `UUID.randomUUID()` and `Instant.now()` are parameters. An `Instant` is an integer. `isBefore` is strict `<`.
- Link ids: a link's database `id` is not modelled.
- Getters: plain getters are field reads and have no members of their own.
- Repository order: `findByOwner` and `findByFolder` have no stated order. `Store.Find` picks the order arbitrarily, and the contracts constrain only which notes are returned, not their order.
- Character sets: `toLowerCase()` is modelled over ASCII letters only. Locale-dependent and non-ASCII case mappings are not modelled.
- Tag ids: a tag's database `id` is not modelled, and neither is the unique constraint on `name`. `Tags.CaseInsensitive` states the fact about names that the uniqueness relies on.
- Not in this snapshot's code: the soft-delete cascade, restoring notes, and the listing of a user's shared links. They are described for the system, but no code for them exists here, so they are not modelled.
