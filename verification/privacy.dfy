/**
 * The privacy control: moving a concept's record, and its note's body,
 * between the public and the private scope of a workspace
 * (components/NotePage.jsx, lines 132-172).
 *
 * A move is five awaited steps: read the source body, write the target note,
 * write the target index with the concept stored at the target note, write
 * the source index without the concept, delete the source note.  A request
 * that rejects ends the move there; the steps after it never run.
 */
module Privacy {
  import opened Wrappers
  import opened Concepts
  import opened Notes
  import Links

  datatype Scope = Public | Private {
    function Other(): (s: Scope)
      ensures s != this
    {
      if this == Public then Private else Public
    }
  }

  /** What a workspace's storage holds: note resources by URL and the two concept indexes. */
  datatype PodState = PodState(notes: map<string, Note>, publicIndex: Option<Index>, privateIndex: Option<Index>) {

    function IndexOf(scope: Scope): Option<Index> {
      if scope == Public then publicIndex else privateIndex
    }

    function WithIndex(scope: Scope, index: Index): (s: PodState)
      ensures s.notes == notes
      ensures s.IndexOf(scope) == Some(index) && s.IndexOf(scope.Other()) == IndexOf(scope.Other())
    {
      if scope == Public then this.(publicIndex := Some(index)) else this.(privateIndex := Some(index))
    }

    /** The note at `url` if there is one (`useThing` on that URL). */
    function NoteAt(url: string): Option<Note> {
      if url in notes then Some(notes[url]) else None
    }
  }

  /**
   * Which of the writes reject.  Reading has no flag: it fails exactly when
   * the source note or its body is missing.
   */
  datatype Faults = Faults(noteWrite: bool, indexWrite: bool, indexRemove: bool, delete: bool)

  const NoFaults: Faults := Faults(false, false, false, false)

  datatype Step = ReadBody | WriteNote | WriteIndex | RemoveIndex | DeleteNote

  /** Either every step ran, or the move stopped at the step that failed. */
  datatype Outcome = Moved | Stopped(at: Step)

  datatype Migration = Migration(state: PodState, outcome: Outcome)

  /**
   * The state a move of `concept` to scope `to` leaves behind, from the
   * note at `sourceUrl` to the note at `targetUrl`.
   */
  function MigrationSteps(s: PodState, to: Scope, concept: Concept, sourceUrl: string, targetUrl: string,
                          faults: Faults): (m: Migration)
    ensures var readable := sourceUrl in s.notes && s.notes[sourceUrl].body.Some?;
      && (m.outcome == Stopped(ReadBody) <==> !readable)
      && (m.outcome == Stopped(WriteNote) <==> readable && faults.noteWrite)
      && (m.outcome == Stopped(WriteIndex) <==> readable && !faults.noteWrite && faults.indexWrite)
      && (m.outcome == Stopped(RemoveIndex) <==> readable && !faults.noteWrite && !faults.indexWrite && faults.indexRemove)
      && (m.outcome == Stopped(DeleteNote) <==> readable && !faults.noteWrite && !faults.indexWrite && !faults.indexRemove && faults.delete)
      && (m.outcome == Moved <==> readable && faults == NoFaults)
    ensures m.state.notes.Keys <= s.notes.Keys + {targetUrl}
    ensures forall u :: u in s.notes && u != sourceUrl && u != targetUrl ==> u in m.state.notes && m.state.notes[u] == s.notes[u]
    ensures sourceUrl in s.notes && sourceUrl != targetUrl ==> (sourceUrl in m.state.notes <==> m.outcome != Moved)
  {
    if sourceUrl !in s.notes || s.notes[sourceUrl].body.None? then Migration(s, Stopped(ReadBody))
    else if faults.noteWrite then Migration(s, Stopped(WriteNote))
    else
      var s1 := s.(notes := s.notes[targetUrl := SetBody(s.NoteAt(targetUrl), s.notes[sourceUrl].body.value)]);
      if faults.indexWrite then Migration(s1, Stopped(WriteIndex))
      else
        var s2 := s1.WithIndex(to, SetThing(s1.IndexOf(to), concept.(storedAt := Some(targetUrl))));
        if faults.indexRemove then Migration(s2, Stopped(RemoveIndex))
        else
          var s3 := s2.WithIndex(to.Other(), RemoveThing(Dataset(s2.IndexOf(to.Other())), concept));
          if faults.delete then Migration(s3, Stopped(DeleteNote))
          else Migration(s3.(notes := s3.notes - {sourceUrl}), Moved)
  }

  /** The control a note page shows: nothing yet, "make private" or "make public". */
  datatype Control = Loading | MakePrivateButton | MakePublicButton

  /**
   * Lines 161-171: "make private" exactly when the concept is stored at the
   * public note's URL, "make public" otherwise.
   */
  function PrivacyButton(concept: Option<Concept>, publicNoteUrl: Option<string>): (c: Control)
    ensures c == Loading <==> concept.None?
    ensures c == MakePrivateButton <==> concept.Some? && concept.value.storedAt.Some? && concept.value.storedAt == publicNoteUrl
    ensures c == MakePublicButton <==> concept.Some? && !(concept.value.storedAt.Some? && concept.value.storedAt == publicNoteUrl)
  {
    if concept.None? then Loading
    else if concept.value.storedAt.Some? && concept.value.storedAt == publicNoteUrl then MakePrivateButton
    else MakePublicButton
  }

  /**
   * A completed move: the target note holds the source body, the target index
   * holds the concept stored at the target note, the source index no longer
   * holds it, the source note is gone and no other note changed.  With no
   * failing request and a source body to read, the move does complete.
   */
  lemma MoveCompletes(s: PodState, to: Scope, concept: Concept, sourceUrl: string, targetUrl: string, faults: Faults)
    requires sourceUrl != targetUrl
    ensures var m := MigrationSteps(s, to, concept, sourceUrl, targetUrl, faults);
      m.outcome == Moved ==>
        && sourceUrl in s.notes && s.notes[sourceUrl].body.Some?
        && targetUrl in m.state.notes && m.state.notes[targetUrl].body == s.notes[sourceUrl].body
        && m.state.IndexOf(to) == Some(SetThing(s.IndexOf(to), concept.(storedAt := Some(targetUrl))))
        && m.state.IndexOf(to.Other()) == Some(RemoveThing(Dataset(s.IndexOf(to.Other())), concept))
        && concept.url !in Dataset(m.state.IndexOf(to.Other()))
        && sourceUrl !in m.state.notes
        && (forall u :: u in s.notes && u != sourceUrl && u != targetUrl ==> u in m.state.notes && m.state.notes[u] == s.notes[u])
    ensures faults == NoFaults && sourceUrl in s.notes && s.notes[sourceUrl].body.Some? ==>
      MigrationSteps(s, to, concept, sourceUrl, targetUrl, faults).outcome == Moved
  {
  }

  /**
   * The source note is deleted only after the target note and both index
   * writes succeeded.
   */
  lemma DeleteComesLast(s: PodState, to: Scope, concept: Concept, sourceUrl: string, targetUrl: string, faults: Faults)
    requires sourceUrl != targetUrl && sourceUrl in s.notes
    ensures var m := MigrationSteps(s, to, concept, sourceUrl, targetUrl, faults);
      sourceUrl !in m.state.notes ==>
        && m.outcome == Moved
        && targetUrl in m.state.notes && m.state.notes[targetUrl].body == s.notes[sourceUrl].body
        && concept.url in Dataset(m.state.IndexOf(to))
        && Dataset(m.state.IndexOf(to))[concept.url].storedAt == Some(targetUrl)
        && concept.url !in Dataset(m.state.IndexOf(to.Other()))
  {
  }

  /**
   * Whichever request fails, the note stays readable from one scope: either
   * the source note and its index entry are untouched, or the target note
   * holds the body and the target index stores the concept there.
   */
  lemma NeverLost(s: PodState, to: Scope, concept: Concept, sourceUrl: string, targetUrl: string, faults: Faults)
    requires sourceUrl != targetUrl
    requires sourceUrl in s.notes && s.notes[sourceUrl].body.Some?
    requires concept.url in Dataset(s.IndexOf(to.Other()))
    ensures var m := MigrationSteps(s, to, concept, sourceUrl, targetUrl, faults);
      || (&& sourceUrl in m.state.notes && m.state.notes[sourceUrl] == s.notes[sourceUrl]
          && concept.url in Dataset(m.state.IndexOf(to.Other()))
          && Dataset(m.state.IndexOf(to.Other()))[concept.url] == Dataset(s.IndexOf(to.Other()))[concept.url])
      || (&& targetUrl in m.state.notes && m.state.notes[targetUrl].body == s.notes[sourceUrl].body
          && concept.url in Dataset(m.state.IndexOf(to))
          && Dataset(m.state.IndexOf(to))[concept.url].storedAt == Some(targetUrl))
  {
  }

  /**
   * When only the final delete failed, moving again completes and leaves both
   * indexes exactly as the first attempt did: no second record appears.  This
   * is a fact about the steps; whether the page then offers the same move
   * again depends on which record `useConcept` returns, which is not part of
   * this model, since the concept is already stored at the target.
   */
  lemma RetryAfterFailedDelete(s: PodState, to: Scope, concept: Concept, sourceUrl: string, targetUrl: string, faults: Faults)
    requires sourceUrl != targetUrl
    requires MigrationSteps(s, to, concept, sourceUrl, targetUrl, faults).outcome == Stopped(DeleteNote)
    ensures var first := MigrationSteps(s, to, concept, sourceUrl, targetUrl, faults).state;
      var second := MigrationSteps(first, to, concept, sourceUrl, targetUrl, NoFaults);
      && second.outcome == Moved
      && second.state.publicIndex == first.publicIndex
      && second.state.privateIndex == first.privateIndex
      && second.state.notes == first.notes - {sourceUrl}
  {
    var first := MigrationSteps(s, to, concept, sourceUrl, targetUrl, faults).state;
    var second := MigrationSteps(first, to, concept, sourceUrl, targetUrl, NoFaults);
    var moved := concept.(storedAt := Some(targetUrl));
    assert first.notes[targetUrl] == SetBody(first.NoteAt(targetUrl), first.notes[sourceUrl].body.value);
    assert Some(SetThing(first.IndexOf(to), moved)) == first.IndexOf(to) by {
      SetThingIdempotent(s.IndexOf(to), moved);
    }
    var rest := Dataset(first.IndexOf(to.Other()));
    assert first.IndexOf(to.Other()) == Some(rest) && concept.url !in rest;
    assert RemoveThing(rest, concept) == rest;
  }

  /**
   * A move copies only the note's body: the target note keeps its own cover
   * image, or has none when it is created by the move, and the source note,
   * with its cover image, is deleted.  A cover image on the source note is
   * therefore lost whenever the target note does not exist yet.
   */
  lemma MoveDropsCoverImage(s: PodState, to: Scope, concept: Concept, sourceUrl: string, targetUrl: string)
    requires sourceUrl != targetUrl && sourceUrl in s.notes && s.notes[sourceUrl].body.Some?
    ensures var m := MigrationSteps(s, to, concept, sourceUrl, targetUrl, NoFaults);
      && m.outcome == Moved
      && sourceUrl !in m.state.notes
      && targetUrl in m.state.notes
      && m.state.notes[targetUrl].coverImage == (if targetUrl in s.notes then s.notes[targetUrl].coverImage else None)
  {
  }

  /**
   * After a completed move, the control offers the way back: "make private"
   * after going public, "make public" after going private.
   */
  lemma ButtonAfterMove(s: PodState, to: Scope, concept: Concept, privateUrl: string, publicUrl: string, faults: Faults)
    requires privateUrl != publicUrl
    ensures var sourceUrl := if to == Public then privateUrl else publicUrl;
      var targetUrl := if to == Public then publicUrl else privateUrl;
      var m := MigrationSteps(s, to, concept, sourceUrl, targetUrl, faults);
      m.outcome == Moved ==>
        && concept.url in Dataset(m.state.IndexOf(to))
        && PrivacyButton(Some(Dataset(m.state.IndexOf(to))[concept.url]), Some(publicUrl))
           == (if to == Public then MakePrivateButton else MakePublicButton)
  {
  }

  /**
   * A move changes no backlinks, whichever request fails: the concept keeps
   * its `refs` and is always held by at least one index.
   */
  lemma MoveKeepsLinks(s: PodState, to: Scope, concept: Concept, sourceUrl: string, targetUrl: string, faults: Faults,
                       conceptUri: string)
    requires concept.url in Dataset(s.IndexOf(to.Other())) && Dataset(s.IndexOf(to.Other()))[concept.url] == concept
    requires concept.url in Dataset(s.IndexOf(to)) ==> Dataset(s.IndexOf(to))[concept.url].refs == concept.refs
    ensures var m := MigrationSteps(s, to, concept, sourceUrl, targetUrl, faults);
      Links.LinksFrom(m.state.publicIndex, m.state.privateIndex, conceptUri)
      == Links.LinksFrom(s.publicIndex, s.privateIndex, conceptUri)
  {
    var m := MigrationSteps(s, to, concept, sourceUrl, targetUrl, faults);
    forall u ensures u in Links.LinksFrom(m.state.publicIndex, m.state.privateIndex, conceptUri)
                 <==> u in Links.LinksFrom(s.publicIndex, s.privateIndex, conceptUri)
    {
      Links.LinksFromExactly(m.state.publicIndex, m.state.privateIndex, conceptUri, u);
      Links.LinksFromExactly(s.publicIndex, s.privateIndex, conceptUri, u);
    }
  }

  /** The notes and the two concept indexes of one workspace, as the privacy control changes them. */
  class Pod {
    var notes: map<string, Note>
    var publicIndex: Option<Index>
    var privateIndex: Option<Index>

    function State(): PodState
      reads this
    {
      PodState(notes, publicIndex, privateIndex)
    }

    constructor (notes: map<string, Note>, publicIndex: Option<Index>, privateIndex: Option<Index>)
      ensures State() == PodState(notes, publicIndex, privateIndex)
    {
      this.notes := notes;
      this.publicIndex := publicIndex;
      this.privateIndex := privateIndex;
    }

    /** Stores `index` as the concept index of `scope`. */
    method SaveIndex(scope: Scope, index: Index)
      modifies this
      ensures State() == old(State()).WithIndex(scope, index)
    {
      if scope == Public {
        publicIndex := Some(index);
      } else {
        privateIndex := Some(index);
      }
    }

    /** The awaited steps shared by `makePrivateCallback` and `makePublicCallback`. */
    method Move(to: Scope, concept: Concept, sourceUrl: string, targetUrl: string, faults: Faults)
      returns (outcome: Outcome)
      modifies this
      ensures Migration(State(), outcome) == MigrationSteps(old(State()), to, concept, sourceUrl, targetUrl, faults)
    {
      // 1. read the source body
      if sourceUrl !in notes || notes[sourceUrl].body.None? {
        return Stopped(ReadBody);
      }
      var body := notes[sourceUrl].body.value;
      // 2. write the target note
      if faults.noteWrite {
        return Stopped(WriteNote);
      }
      var target := if targetUrl in notes then Some(notes[targetUrl]) else None;
      notes := notes[targetUrl := SetBody(target, body)];
      // 3. write the target index, the concept now stored at the target note
      if faults.indexWrite {
        return Stopped(WriteIndex);
      }
      SaveIndex(to, SetThing(State().IndexOf(to), concept.(storedAt := Some(targetUrl))));
      // 4. write the source index without the concept
      if faults.indexRemove {
        return Stopped(RemoveIndex);
      }
      SaveIndex(to.Other(), RemoveThing(Dataset(State().IndexOf(to.Other())), concept));
      // 5. delete the source note
      if faults.delete {
        return Stopped(DeleteNote);
      }
      notes := notes - {sourceUrl};
      outcome := Moved;
    }

    /** `makePrivateCallback` (lines 147-153). */
    method MakePrivate(concept: Concept, publicUrl: string, privateUrl: string, faults: Faults)
      returns (outcome: Outcome)
      modifies this
      ensures Migration(State(), outcome) == MigrationSteps(old(State()), Private, concept, publicUrl, privateUrl, faults)
    {
      outcome := Move(Private, concept, publicUrl, privateUrl, faults);
    }

    /** `makePublicCallback` (lines 154-160). */
    method MakePublic(concept: Concept, privateUrl: string, publicUrl: string, faults: Faults)
      returns (outcome: Outcome)
      modifies this
      ensures Migration(State(), outcome) == MigrationSteps(old(State()), Public, concept, privateUrl, publicUrl, faults)
    {
      outcome := Move(Public, concept, privateUrl, publicUrl, faults);
    }
  }
}
