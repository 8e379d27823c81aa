# understory.garden concept graph and save engine, in Dafny

This project models the logic behind a note page of understory.garden. A
note is stored on the user's Solid pod. Beside it, a concept index records
which concepts the note references and where the note is stored. The model
covers:

- **Concepts and indexes** (`concepts.dfy`, module `Concepts`). A concept's URL
  is a prefix followed by the URL-safe identifier of its name.
  `createConceptFor` gathers the URLs of the referenced concepts and tags.
  `createOrUpdateConceptIndex` upserts the concept into its scope's index and
  picks where the concept is stored: where the existing record says, or else at
  the workspace's default location. An RDF dataset is modelled as a map from a
  thing's URL to its record. `addUrl` is set insertion, `setThing` and
  `removeThing` are map update and removal.
- **Backlinks** (`links.dfy`, module `Links`). The `refs` triples of the
  combined public and private indexes that point at a concept (the match on
  line 78). The list the page renders comes from `conceptUrisThatReference`,
  which is not part of this model; it is taken to return the subjects of the
  same triples.
- **Notes and documents** (`notes.dfy`, module `Notes`). These are the note
  thing, the `emptyBody` document, and `createOrUpdateNote`.
- **The privacy control** (`privacy.dfy`, module `Privacy`). `makePublic` and
  `makePrivate` run five awaited steps in order: read the source body, write
  the target note, write the target index, write the source index without the
  concept, delete the source note. A rejected request ends the sequence at that
  step. `Pod.Move` does these steps on a class holding the notes and both
  indexes. It is proved equal to the function `MigrationSteps`, and the lemmas
  about that function give the migration's guarantees. Only the note's body
  is copied: the target note is a fresh note when none exists there, so a
  cover image on the source note is lost once the source is deleted
  (`MoveDropsCoverImage`).
- **The save controller** (`save_control.dfy`, module `SaveControl`). It covers
  the `saved` flag, loading the value from the note, the decision taken when
  the debounce fires, `saveCallback` and `deleteCallback`. The class
  `NoteEditor` holds the page's state. The debounce timer is an explicit event
  (`SaveAfterDebounce`). Each of a save's two awaited writes settles as its own
  event, so several saves can be in flight at once.
- **File extensions** (`image_uploader.dfy`, module `ImageUploader`). This is
  `extForFile`: a table lookup on the MIME type, or else the part of the file
  name after its last dot.

The identifier codecs (`conceptNameToUrlSafeId`, `tagNameToUrlSafeId`),
`defaultNoteStorageUri`, and `JSON.stringify`/`JSON.parse` come from modules
that are not part of this model. They appear as function-valued fields of
`Codec`, `Workspace` and `Serializer`. `Codec` and `Serializer` each have a
`Valid()` predicate stating the one property the model relies on:

- the codecs are injective;
- `parse` undoes `stringify`, and `stringify` never yields the empty string.

`defaultNoteStorageUri`, the function field of `Workspace`, is an
unconstrained parameter.

The names of the concepts and tags in the editor's document are inputs. The
current time is an input too.

`emptyBody` is compared by reference at line 226. The model therefore marks the
value that *is* `emptyBody` with the flag `Value.isEmptyBody`. An equal document
typed by the user does not carry the flag.

Nothing in the code keeps two saves from overlapping. `saveCallback` never
reads `saving`, and neither does `saveAfterDebounce`, which starts a save each
time the debounced value settles on an unsaved value. `OverlappingSaves` shows
two debounce fires starting two saves that are in flight at once, with
`saving` already false while the second one is still writing. The invariant
the model keeps is `NoteEditor.Valid()`: `saving` is never set while nothing is
in flight.

`setValueFromNote` calls `JSON.parse` on any non-empty body. A body that does
not parse makes it throw inside the effect, and pages/_app.jsx:10-27 sets up no
error boundary, so React unmounts the page. The model records this as the
page's `crashed` state.

## Model

| member | source | states |
|---|---|---|
| `Concepts.CreateConcept` | components/NotePage.jsx:96-98 | a new concept is a thing with no properties whose URL is the prefix followed by the name's identifier |
| `Concepts.ConceptUrlInjective` | components/NotePage.jsx:96-98 | two concept names get the same URL under one prefix iff they are the same name |
| `Concepts.TagUrlInjective` | components/NotePage.jsx:100-102 | two tag names get the same URL under one prefix iff they are the same name |
| `Concepts.CreateTag` | components/NotePage.jsx:100-102 | a tag's URL is the tag prefix followed by the name's identifier, so it lies under the prefix; `TagUrlInjective` shows distinct names get distinct URLs |
| `Concepts.CreateConceptFor` | components/NotePage.jsx:104-113 | the two loops build the concept at the name's URL; its `refs` are exactly the URLs of the referenced names and its `tagged` exactly the URLs of the tag names |
| `Concepts.ConceptForCollapsesDuplicates` | components/NotePage.jsx:104-113 | duplicate names collapse: there is one `refs` URL per distinct concept name and one `tagged` URL per distinct tag name |
| `Concepts.SetThing` | components/NotePage.jsx:129 | the upsert puts the concept under its URL, keeps every other record unchanged, and an absent index counts as empty |
| `Concepts.SetThingOnAbsent` | components/NotePage.jsx:129 | upserting into an absent index gives a one-record index |
| `Concepts.SetThingIdempotent` | components/NotePage.jsx:129 | upserting the same concept twice gives the same index as upserting it once |
| `Concepts.RemoveThing` | components/NotePage.jsx:158 | removal drops exactly the record at the concept's URL and keeps every other one |
| `Concepts.StorageUri` | components/NotePage.jsx:118 | an existing concept keeps the `storedAt` it has (`None` when it has none, whose effect on line 127 is an assumption, see "## Left out"); a new one is stored at the workspace's default location for its name; `CreateOrUpdateConceptIndex` puts this into the saved record |
| `Concepts.CreateOrUpdateConceptIndex` | components/NotePage.jsx:115-130 | the saved index is the old one with only the concept's record replaced; that record has the document's refs and tags, `storedAt` from the existing concept or else the workspace default, and `modified` = now |
| `Links.LinksFrom` | components/NotePage.jsx:74-88 | the subjects of the `refs` triples of the combined index whose object is the concept (the match of line 78, which the rendered list is assumed to equal), so each is a concept recorded in the public or the private index; `LinksFromExactly` characterizes them |
| `Links.LinksFromExactly` | components/NotePage.jsx:74-81 | a URL is a backlink of a concept iff its record in the public or the private index has that concept among its `refs` |
| `Links.LinksFromSymmetric` | components/NotePage.jsx:77-81 | the combined scan does not depend on which scope holds a record |
| `Links.LinksFromAfterSave` | components/NotePage.jsx:77-81 | after a concept is upserted into one index (and is absent from the other), it is a backlink of exactly the URIs it now references |
| `Notes.SetBody` | components/NotePage.jsx:148 | the note (a new one if absent) gets the body, and an existing note keeps its other properties |
| `Notes.CreateOrUpdateNote` | components/NotePage.jsx:90-94 | the note's body is the value's serialization, it parses back to the value, and the note keeps its cover image |
| `Notes.BodyJsonOf` | components/NotePage.jsx:183 | `bodyJSON` is undefined exactly when there is no note, and otherwise the stored body or null |
| `Privacy.PrivacyButton` | components/NotePage.jsx:161-171 | shows loading without a concept; offers "make private" iff the concept's `storedAt` equals the public note URL, and "make public" otherwise |
| `Privacy.MigrationSteps` | components/NotePage.jsx:147-160 | the move stops at the first failing step, in the order read, note write, index write, index removal, delete, and completes iff the source is readable and no request fails; no note other than the source and target changes, no note besides the target appears, and the source note is gone iff the move completed |
| `Privacy.MoveCompletes` | components/NotePage.jsx:147-160 | after a completed move the target note has the source body, the target index holds the concept stored at the target note, the source index no longer holds it, the source note is deleted and other notes are unchanged; with no failing request a readable source always completes |
| `Privacy.DeleteComesLast` | components/NotePage.jsx:147-160 | the source note is gone only if the target note and both index writes succeeded |
| `Privacy.NeverLost` | components/NotePage.jsx:147-160 | whichever request fails, either the source note and its index entry are untouched, or the target note has the body and the target index points at it |
| `Privacy.RetryAfterFailedDelete` | components/NotePage.jsx:154-160 | when only the delete failed, a second move completes and leaves both indexes as the first left them, so no duplicate record appears |
| `Privacy.ButtonAfterMove` | components/NotePage.jsx:147-171 | after going public the control offers "make private"; after going private it offers "make public" |
| `Privacy.MoveDropsCoverImage` | components/NotePage.jsx:147-160 | a move with no failing request completes, deletes the source note, and leaves the target note with its own previous cover image, or none when the move created it, so the source's cover image is lost |
| `Privacy.MoveKeepsLinks` | components/NotePage.jsx:147-160 | no move, failed or not, changes any concept's backlinks |
| `Privacy.Pod.Move` | components/NotePage.jsx:147-160 | the awaited steps change the pod exactly as `MigrationSteps` says, and stop at the first rejected request |
| `Privacy.Pod.MakePrivate` | components/NotePage.jsx:147-153 | copies the public note's body to the private note, moves the concept's record from the public to the private index, and deletes the public note, as `MigrationSteps` says |
| `Privacy.Pod.MakePublic` | components/NotePage.jsx:154-160 | copies the private note's body to the public note, moves the concept's record from the private to the public index, and deletes the private note, as `MigrationSteps` says |
| `SaveControl.IsSaved` | components/NotePage.jsx:188 | no value counts as saved; a present value is saved only when the note has a body, and that body parses back to the value's document; `EditAfterSave` and `LoadedNoteIsSaved` show it holds right after a save or load |
| `SaveControl.ShouldSave` | components/NotePage.jsx:223-232 | a save is due only for a present value that is not saved and is not the `emptyBody` object shown while no note exists; `SaveIffUnsaved` gives the converse |
| `SaveControl.LoadFromNote` | components/NotePage.jsx:195-202 | it throws iff the body is non-empty and does not parse; it keeps the value iff the body is empty or missing and the status is not 404; otherwise it sets the parsed document, or `emptyBody` after a 404; `LoadedNoteIsSaved` and `MissingNoteIsNotWritten` apply it |
| `SaveControl.SaveIffUnsaved` | components/NotePage.jsx:223-232 | the debounce saves iff the value is present and unsaved, and is not the `emptyBody` object while no note exists |
| `SaveControl.LoadedNoteIsSaved` | components/NotePage.jsx:195-202 | loading a note this page wrote gives back its document; the page is then saved and the debounce does not write it again |
| `SaveControl.MissingNoteIsNotWritten` | components/NotePage.jsx:195-232 | after a 404 the value is `emptyBody`; the page reads as unsaved, but the debounce does not write it |
| `SaveControl.EqualEmptyDocumentIsWritten` | components/NotePage.jsx:225-228 | a document equal to `emptyBody` but not the same object is written when no note exists |
| `SaveControl.EditAfterSave` | components/NotePage.jsx:188 | right after the note is written with a value the page is saved; an edit to any other document makes it unsaved and is written at the next debounce |
| `SaveControl.NoteEditor.constructor` | components/NotePage.jsx:185-187 | a page starts with no value, not saving, nothing in flight and not crashed |
| `SaveControl.NoteEditor.Edit` | components/NotePage.jsx:307 | an edit replaces the value with a document that is not `emptyBody` |
| `SaveControl.NoteEditor.SetValueFromNote` | components/NotePage.jsx:195-202 | a non-empty body that parses becomes the value; an empty or missing body gives `emptyBody` after a 404 and otherwise keeps the value; a body that does not parse throws, which crashes the page and leaves the value as it was |
| `SaveControl.NoteEditor.SaveCallback` | components/NotePage.jsx:209-214 | computes the note and index to write, sets `saving` and starts the note write without checking earlier saves |
| `SaveControl.NoteEditor.SaveAfterDebounce` | components/NotePage.jsx:223-232 | when the debounce fires, a save starts iff `ShouldSave` holds for the current value |
| `SaveControl.NoteEditor.NoteWriteSettled` | components/NotePage.jsx:213-220 | a successful note write stores the body and then the index write runs, and the page is saved if its value has not changed; a failed one is swallowed, clears `saving` and skips the index write |
| `SaveControl.NoteEditor.IndexWriteSettled` | components/NotePage.jsx:215-220 | the index write stores the save's index if it succeeds, and `saving` is cleared either way |
| `SaveControl.NoteEditor.DeleteCallback` | components/NotePage.jsx:238-248 | a confirmed delete removes the concept from the index before navigating away; if that write fails the page stays |
| `SaveControl.CoalescedEdits` | components/NotePage.jsx:186-232 | three edits followed by one debounce fire start exactly one save, and it writes the last edit |
| `SaveControl.OverlappingSaves` | components/NotePage.jsx:209-232 | two debounce fires on two edits start two saves that are in flight at once; when the first fails, `saving` is false while the second is still writing |
| `ImageUploader.Split` | components/ImageUploader.jsx:61 | `split(".")` always gives at least one piece |
| `ImageUploader.SplitJoin` | components/ImageUploader.jsx:61 | joining the pieces with dots gives the name back, and no piece contains a dot |
| `ImageUploader.LastOfJoin` | components/ImageUploader.jsx:61 | the last piece is the dot-free suffix of the name that is either all of it or follows its last dot |
| `ImageUploader.ExtForFile` | components/ImageUploader.jsx:56-63 | a listed type gives the table's extension whatever the name; any other type gives the part of the name after its last dot |
| `ImageUploader.ListedTypes` | components/ImageUploader.jsx:48-54 | the five listed MIME types give `gif`, `jpg`, `png`, `svg` and `webp` |
| `ImageUploader.FallbackCases` | components/ImageUploader.jsx:61 | for an unlisted type the extension has no dot, a dot-free name is returned whole, and a name ending in a dot gives the empty string |

## Left out

- Rendering is not modelled: the JSX, the Slate editor and toolbar, the sidebar transition, `LinksTo` (which only lists a concept's `refs`), and the modal and cropper of the image uploader.
- The note's location is not re-derived from the page concept's `storedAt` (lines 180-181): `NoteEditor` holds one note slot, given at construction and replaced by the page's own saves, and nothing ties it to `PageConcept().storedAt`. The scenarios start from a 404 on that slot with no concept yet.
- The remote storage client (`useThing`, `save`, `saveIndex`, `deleteResource`) is an in-memory map. Each write either succeeds or fails, as the caller chooses. Reads are the current contents of the map.
- How `useConcept` finds the page's concept is not part of this model. The page's concept is taken to be the record its index holds at the concept URL.
- The identifier codecs, `defaultNoteStorageUri`, `noteStorageFileAndThingName`, the JSON codec and the extraction of concept and tag names from the document are not part of this model. Only the properties that their `Valid()` predicates state are used.
- The note URLs that the privacy control builds from the workspace storage roots (lines 141 and 144) are parameters of the migration.
- The un-awaited `DELETE` of the note in `deleteCallback` (line 241) is not modelled: it runs in the background, and nothing waits for it or observes it.
- The 1500 ms debounce and `new Date()` are not modelled. The debounce firing is an event, and the time is a parameter.
- SaveControl.NoteEditor.SaveAfterDebounce: React reruns the effect only when the debounced value changes by reference. The model lets the environment choose when the event fires.
- After a page crashes, React delivers no more events to it. The model records the crash in `crashed` but does not stop the environment from calling the page's methods afterwards; writes already in flight do still settle.
- SetValueFromNote is an event the environment triggers. In the page it reruns whenever `bodyJSON` or the error status changes, including after the page's own save.
- Privacy.MigrationSteps: reading the source body fails exactly when the source note or its body is missing. A null body passed on to `setStringNoLocale` is treated as a failed read.
- Privacy.PrivacyButton: JavaScript's `null` and `undefined` are both `None`. A missing `storedAt` never matches, even when the public storage is missing too.
- ImageUploader.ExtForFile: properties inherited by the table object (such as `toString`) are not keys of the table. MIME type strings never name them.
- Links.LinksFrom: `useCombinedConceptIndex` (line 77) and `conceptUrisThatReference` (line 81) are not part of this model. The combined index is assumed to hold exactly the union of the two scopes' triples, a scope not yet loaded contributing none. The rendered list is assumed to be the subjects of the `(?, refs, conceptUri)` triples, the match that line 78 computes into the unused `linkingConcepts`.
- Concepts.CreateOrUpdateConceptIndex: for an existing concept with no `storedAt`, line 118 yields `null` and line 127 calls `addUrl` with it. What `addUrl` does with `null` is not part of this model. The model assumes it adds nothing, so the saved record has no `storedAt`. If the library throws instead, `saveCallback` would reject at line 211, before `setSaving(true)` and outside its `try`, and nothing would be written. The model does not capture that outcome.
- Timestamps are unbounded integers; the JavaScript `Date` range is not modelled.
