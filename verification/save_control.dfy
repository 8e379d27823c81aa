/**
 * The save logic of a note page (components/NotePage.jsx, lines 174-248):
 * the `saved` flag, loading the page's value from its note, the decision
 * taken when the debounced value settles, `saveCallback` with its `saving`
 * flag, and deleting a note.
 *
 * The debounce timer is an explicit event, `SaveAfterDebounce`.  Each of
 * the two awaited writes of a save settles as an event of its own
 * (`NoteWriteSettled`, `IndexWriteSettled`), so saves started before an
 * earlier one settled are in flight together, as they are in the page:
 * nothing in `saveCallback` checks `saving`.
 */
module SaveControl {
  import opened Wrappers
  import opened Concepts
  import opened Notes

  /**
   * Line 188: whether the page's value is what the note holds.  A present
   * value is saved only when the note has a body, and (for a serializer that
   * round-trips) that body parses back to the value's document.
   */
  function IsSaved(value: Option<Value>, bodyJson: BodyJson, json: Serializer): (r: bool)
    ensures value.None? ==> r
    ensures r && value.Some? ==> bodyJson.Json?
    ensures json.Valid() && r && value.Some? ==> bodyJson.Json? && json.parse(bodyJson.text) == Some(value.value.doc)
  {
    value.None? || bodyJson == Json(json.stringify(value.value.doc))
  }

  /**
   * Lines 223-232: whether the settled value is saved: it is present, its
   * serialization differs from the note's body, and it is not the
   * `emptyBody` object shown for a note that does not exist.
   */
  function ShouldSave(debounced: Option<Value>, bodyJson: BodyJson, json: Serializer): (r: bool)
    ensures r ==> debounced.Some? && !IsSaved(debounced, bodyJson, json)
    ensures r ==> !(debounced.value.isEmptyBody && bodyJson == Undefined)
  {
    && debounced.Some?
    && var isInitialNoteState := debounced.value.isEmptyBody && bodyJson == Undefined;
       Json(json.stringify(debounced.value.doc)) != bodyJson && !isInitialNoteState
  }

  /**
   * What `setValueFromNote` does to the page: leave the value as it is, set
   * it, or throw.
   */
  datatype Load = Keep | SetTo(value: Value) | Throws

  /**
   * `setValueFromNote` (lines 195-202): a non-empty body is parsed into the
   * page's value; otherwise a 404 shows the `emptyBody` object; otherwise the
   * value stays.  `JSON.parse` throws on a body that does not parse, inside
   * the effect that calls it, before `setValue`.
   */
  function LoadFromNote(bodyJson: BodyJson, errorStatus: Option<int>, json: Serializer): (r: Load)
    ensures r.Throws? <==> bodyJson.Json? && bodyJson.text != "" && json.parse(bodyJson.text).None?
    ensures r.Keep? <==> !(bodyJson.Json? && bodyJson.text != "") && errorStatus != Some(404)
    ensures r.SetTo? && bodyJson.Json? && bodyJson.text != "" ==>
              json.parse(bodyJson.text) == Some(r.value.doc) && !r.value.isEmptyBody
    ensures r.SetTo? && !(bodyJson.Json? && bodyJson.text != "") ==> r.value == EmptyBodyValue
  {
    if bodyJson.Json? && bodyJson.text != "" then
      match json.parse(bodyJson.text)
      case Some(d) => SetTo(Value(d, false))
      case None => Throws
    else if errorStatus == Some(404) then SetTo(EmptyBodyValue)
    else Keep
  }

  /** The debounce fires a save exactly for a present, unsaved value that is not the initial `emptyBody`. */
  lemma SaveIffUnsaved(debounced: Option<Value>, bodyJson: BodyJson, json: Serializer)
    ensures ShouldSave(debounced, bodyJson, json)
        <==> debounced.Some? && !IsSaved(debounced, bodyJson, json)
             && !(debounced.value.isEmptyBody && bodyJson == Undefined)
  {
  }

  /**
   * Loading a note this page wrote gives back the document it holds; the page
   * is then saved, and the debounce does not write it again.
   */
  lemma LoadedNoteIsSaved(note: Note, doc: Doc, errorStatus: Option<int>, json: Serializer)
    requires json.Valid() && note.body == Some(json.stringify(doc))
    ensures LoadFromNote(BodyJsonOf(Some(note)), errorStatus, json) == SetTo(Value(doc, false))
    ensures IsSaved(Some(Value(doc, false)), BodyJsonOf(Some(note)), json)
    ensures !ShouldSave(Some(Value(doc, false)), BodyJsonOf(Some(note)), json)
  {
    assert json.parse(json.stringify(doc)) == Some(doc) && json.stringify(doc) != "";
  }

  /**
   * A note that does not exist yet shows the `emptyBody` object: the page
   * reads as unsaved, yet the debounce does not write it.
   */
  lemma MissingNoteIsNotWritten(json: Serializer)
    ensures LoadFromNote(Undefined, Some(404), json) == SetTo(EmptyBodyValue)
    ensures !IsSaved(Some(EmptyBodyValue), Undefined, json)
    ensures !ShouldSave(Some(EmptyBodyValue), Undefined, json)
  {
  }

  /**
   * The check on `emptyBody` is by reference: a document that merely equals it
   * is written when there is no note yet.
   */
  lemma EqualEmptyDocumentIsWritten(json: Serializer)
    ensures ShouldSave(Some(Value(EmptyBody, false)), Undefined, json)
  {
  }

  /**
   * Right after the note is written with `saved`, the page is saved with that
   * value, and an edit to any other document makes it unsaved again and is
   * written when the debounce fires.
   */
  lemma EditAfterSave(note: Option<Note>, saved: Doc, edited: Doc, json: Serializer)
    requires json.Valid() && edited != saved
    ensures var b := BodyJsonOf(Some(CreateOrUpdateNote(note, saved, json)));
      && IsSaved(Some(Value(saved, false)), b, json)
      && !IsSaved(Some(Value(edited, false)), b, json)
      && ShouldSave(Some(Value(edited, false)), b, json)
  {
    StringifyInjective(json, saved, edited);
  }

  /** Which awaited write of a save is still outstanding. */
  datatype Stage = WritingNote | WritingIndex

  /** A save that has started: the document it writes, the note and index it computed, its stage. */
  datatype PendingSave = PendingSave(doc: Doc, note: Note, index: Index, stage: Stage)

  /** The state of one note page. */
  class NoteEditor {
    const codec: Codec
    const workspace: Workspace
    const json: Serializer
    const name: string
    /** The editor's value; `None` until the note (or its absence) is known. */
    var value: Option<Value>
    /** The value the debounce last settled on. */
    var debounced: Option<Value>
    /** The note at the concept's storage location, as the page last read or wrote it. */
    var note: Option<Note>
    /** The status code of the failed read of the note, if it failed. */
    var errorStatus: Option<int>
    /** The concept index the page's concept lives in. */
    var conceptIndex: Option<Index>
    var saving: bool
    /**
     * Whether an effect of the page threw.  No error boundary catches it, so
     * React unmounts the page; writes already in flight still settle.
     */
    var crashed: bool
    /** The saves started and not yet settled, oldest first. */
    var inFlight: seq<PendingSave>

    /**
     * `saving` is cleared by every save that settles, so it is never set with
     * nothing in flight; every save in flight writes its document's
     * serialization; indexes keep each record under its own URL.
     */
    ghost predicate Valid()
      reads this
    {
      && (inFlight == [] ==> !saving)
      && (forall k :: 0 <= k < |inFlight| ==> inFlight[k].note.body == Some(json.stringify(inFlight[k].doc)))
      && (forall k :: 0 <= k < |inFlight| ==> WellKeyed(inFlight[k].index))
      && (conceptIndex.Some? ==> WellKeyed(conceptIndex.value))
    }

    /** `saved` (line 188). */
    function Saved(): bool
      reads this
    {
      IsSaved(value, BodyJsonOf(note), json)
    }

    function ConceptUri(): string {
      CreateConcept(codec, workspace.conceptPrefix, name).url
    }

    /** The page's concept: the record the concept index holds for its URL. */
    function PageConcept(): Option<Concept>
      reads this
    {
      if conceptIndex.Some? && ConceptUri() in conceptIndex.value then Some(conceptIndex.value[ConceptUri()]) else None
    }

    constructor (codec: Codec, workspace: Workspace, json: Serializer, name: string,
                 note: Option<Note>, errorStatus: Option<int>, conceptIndex: Option<Index>)
      requires conceptIndex.Some? ==> WellKeyed(conceptIndex.value)
      ensures Valid()
      ensures this.codec == codec && this.workspace == workspace && this.json == json && this.name == name
      ensures this.note == note && this.errorStatus == errorStatus && this.conceptIndex == conceptIndex
      ensures value == None && debounced == None && !saving && inFlight == [] && !crashed
    {
      this.codec, this.workspace, this.json, this.name := codec, workspace, json, name;
      this.note, this.errorStatus, this.conceptIndex := note, errorStatus, conceptIndex;
      value, debounced := None, None;
      saving, inFlight, crashed := false, [], false;
    }

    /** The editor's `onChange` (line 307): the new document replaces the value. */
    method Edit(doc: Doc)
      modifies this`value
      ensures value == Some(Value(doc, false))
    {
      value := Some(Value(doc, false));
    }

    /**
     * `setValueFromNote` (lines 195-202): the value is set or kept as
     * `LoadFromNote` says, and a body that does not parse crashes the page.
     */
    method SetValueFromNote()
      modifies this`value, this`crashed
      ensures match LoadFromNote(BodyJsonOf(note), errorStatus, json)
              case Keep => value == old(value) && crashed == old(crashed)
              case SetTo(v) => value == Some(v) && crashed == old(crashed)
              case Throws => value == old(value) && crashed
    {
      var bodyJson := BodyJsonOf(note);
      if bodyJson.Json? && bodyJson.text != "" {
        var parsed := json.parse(bodyJson.text);
        if parsed.Some? {
          value := Some(Value(parsed.value, false));
        } else {
          crashed := true;
        }
      } else if errorStatus == Some(404) {
        value := Some(EmptyBodyValue);
      }
    }

    /**
     * `saveCallback` (lines 209-221) up to its first `await`: the note and
     * index to write are computed, `saving` is set and the note write is in
     * flight.  Nothing here looks at `saving` or at saves already in flight.
     */
    method SaveCallback(conceptNames: seq<string>, tagNames: seq<string>, now: Timestamp)
      requires Valid() && value.Some?
      modifies this`saving, this`inFlight
      ensures Valid() && saving
      ensures inFlight == old(inFlight) + [PendingSave(value.value.doc,
                                                       CreateOrUpdateNote(note, value.value.doc, json),
                                                       CreateOrUpdateConceptIndex(codec, workspace, conceptIndex, PageConcept(),
                                                                                  name, conceptNames, tagNames, now),
                                                       WritingNote)]
    {
      var newNote := CreateOrUpdateNote(note, value.value.doc, json);
      var newConceptIndex := CreateOrUpdateConceptIndex(codec, workspace, conceptIndex, PageConcept(),
                                                        name, conceptNames, tagNames, now);
      saving := true;
      inFlight := inFlight + [PendingSave(value.value.doc, newNote, newConceptIndex, WritingNote)];
    }

    /**
     * `saveAfterDebounce` (lines 223-232), run when the debounced value
     * settles on the current value: a save starts exactly when `ShouldSave`.
     */
    method SaveAfterDebounce(conceptNames: seq<string>, tagNames: seq<string>, now: Timestamp) returns (started: bool)
      requires Valid()
      modifies this`debounced, this`saving, this`inFlight
      ensures Valid()
      ensures debounced == value
      ensures started == ShouldSave(value, BodyJsonOf(note), json)
      ensures started ==> saving && |inFlight| == |old(inFlight)| + 1 && inFlight[..|old(inFlight)|] == old(inFlight)
                          && inFlight[|old(inFlight)|] == PendingSave(value.value.doc,
                                                                      CreateOrUpdateNote(note, value.value.doc, json),
                                                                      CreateOrUpdateConceptIndex(codec, workspace, conceptIndex, PageConcept(),
                                                                                                 name, conceptNames, tagNames, now),
                                                                      WritingNote)
      ensures !started ==> saving == old(saving) && inFlight == old(inFlight)
    {
      debounced := value;
      started := ShouldSave(debounced, BodyJsonOf(note), json);
      if started {
        SaveCallback(conceptNames, tagNames, now);
      }
    }

    /**
     * The note write of the `i`-th save in flight settles.  On success the
     * note holds that save's body and its index write starts; on failure the
     * error is swallowed, `saving` is cleared and the index is not written.
     */
    method NoteWriteSettled(i: nat, ok: bool)
      requires Valid() && i < |inFlight| && inFlight[i].stage == WritingNote
      modifies this`note, this`saving, this`inFlight
      ensures Valid()
      ensures ok ==> && note == Some(old(inFlight[i].note))
                     && saving == old(saving)
                     && inFlight == old(inFlight)[i := old(inFlight[i]).(stage := WritingIndex)]
      ensures ok && value.Some? && value.value.doc == old(inFlight[i].doc) ==> Saved()
      ensures !ok ==> note == old(note) && !saving && inFlight == old(inFlight[..i] + inFlight[i + 1..])
    {
      var pending := inFlight[i];
      if ok {
        note := Some(pending.note);
        inFlight := inFlight[i := pending.(stage := WritingIndex)];
      } else {
        saving := false;
        inFlight := inFlight[..i] + inFlight[i + 1..];
      }
    }

    /**
     * The index write of the `i`-th save in flight settles: on success the
     * index is the one that save computed; either way `saving` is cleared.
     */
    method IndexWriteSettled(i: nat, ok: bool)
      requires Valid() && i < |inFlight| && inFlight[i].stage == WritingIndex
      modifies this`conceptIndex, this`saving, this`inFlight
      ensures Valid() && !saving
      ensures conceptIndex == if ok then Some(old(inFlight[i].index)) else old(conceptIndex)
      ensures inFlight == old(inFlight[..i] + inFlight[i + 1..])
    {
      if ok {
        conceptIndex := Some(inFlight[i].index);
      }
      saving := false;
      inFlight := inFlight[..i] + inFlight[i + 1..];
    }

    /**
     * `deleteCallback` (lines 238-248): once confirmed, the page's concept is
     * removed from the index and the page navigates away; if the index write
     * rejects, the page stays.
     */
    method DeleteCallback(confirmed: bool, indexWriteOk: bool) returns (navigated: bool)
      requires Valid()
      modifies this`conceptIndex
      ensures Valid()
      ensures navigated == (confirmed && (old(PageConcept()).None? || indexWriteOk))
      ensures conceptIndex == if confirmed && old(PageConcept()).Some? && indexWriteOk
                              then Some(RemoveThing(old(conceptIndex).value, old(PageConcept()).value))
                              else old(conceptIndex)
      ensures confirmed && indexWriteOk ==> PageConcept().None?
    {
      if !confirmed {
        return false;
      }
      var concept := PageConcept();
      if concept.Some? {
        if !indexWriteOk {
          return false;
        }
        conceptIndex := Some(RemoveThing(conceptIndex.value, concept.value));
      }
      navigated := true;
    }
  }

  /**
   * Three edits within one quiet period, then the debounce fires once: one
   * save is started, and it writes the last edit.  This holds by construction:
   * `Edit` overwrites the value and the debounce is an explicit event, so the
   * scenario shows only that the last edit wins, not how `useDebounce` times
   * its firing.
   */
  method CoalescedEdits(codec: Codec, workspace: Workspace, json: Serializer, name: string,
                        v1: Doc, v2: Doc, v3: Doc, conceptNames: seq<string>, tagNames: seq<string>, now: Timestamp)
    returns (saves: nat, written: Option<string>)
    ensures saves == 1 && written == Some(json.stringify(v3))
  {
    var page := new NoteEditor(codec, workspace, json, name, None, Some(404), None);
    page.SetValueFromNote();
    page.Edit(v1);
    page.Edit(v2);
    page.Edit(v3);
    var started := page.SaveAfterDebounce(conceptNames, tagNames, now);
    saves := |page.inFlight|;
    written := page.inFlight[0].note.body;
  }

  /**
   * Nothing keeps two saves from being in flight together: an edit settles
   * and its save starts, a second edit settles before the first note write
   * returns and its save starts too, and when the first fails `saving` reads
   * false while the second is still writing.
   */
  method OverlappingSaves(codec: Codec, workspace: Workspace, json: Serializer, name: string,
                          first: Doc, second: Doc, conceptNames: seq<string>, tagNames: seq<string>, now: Timestamp)
    returns (inFlightAfterFirst: nat, savingAfterFirst: bool)
    ensures inFlightAfterFirst == 1 && !savingAfterFirst
  {
    var page := new NoteEditor(codec, workspace, json, name, None, Some(404), None);
    page.Edit(first);
    var started := page.SaveAfterDebounce(conceptNames, tagNames, now);
    page.Edit(second);
    started := page.SaveAfterDebounce(conceptNames, tagNames, now);
    assert |page.inFlight| == 2;
    page.NoteWriteSettled(0, false);
    inFlightAfterFirst := |page.inFlight|;
    savingAfterFirst := page.saving;
  }
}
