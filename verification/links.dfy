/**
 * "Linked from": the concepts whose `refs` point at a given concept, found by
 * a full scan of the public and private concept indexes of a workspace taken
 * together (components/NotePage.jsx, lines 74-88).
 */
module Links {
  import opened Wrappers
  import opened Concepts

  /** The `(subject, object)` pairs of the `refs` triples an index holds. */
  function RefTriples(index: Option<Index>): set<(string, string)> {
    var d := Dataset(index);
    set u, v | u in d && v in d[u].refs :: (u, v)
  }

  /**
   * The combined index: the union of both scopes' triples, an index not yet
   * loaded counting as empty.
   */
  function CombinedRefs(publicIndex: Option<Index>, privateIndex: Option<Index>): set<(string, string)> {
    RefTriples(publicIndex) + RefTriples(privateIndex)
  }

  /**
   * `LinksFrom`: the subjects of the triples `(?, refs, conceptUri)` of the
   * combined index, each a concept recorded in one of the two indexes.  This
   * is the match of line 78; the list rendered through
   * `conceptUrisThatReference` (line 81) is assumed to be the same set.
   */
  function LinksFrom(publicIndex: Option<Index>, privateIndex: Option<Index>, conceptUri: string): (r: set<string>)
    ensures r <= Dataset(publicIndex).Keys + Dataset(privateIndex).Keys
  {
    set t | t in CombinedRefs(publicIndex, privateIndex) && t.1 == conceptUri :: t.0
  }

  /** Whether the record at `u` in `index` references `conceptUri`. */
  ghost predicate RefersTo(index: Option<Index>, u: string, conceptUri: string) {
    u in Dataset(index) && conceptUri in Dataset(index)[u].refs
  }

  /**
   * The backlinks of a URI are exactly the concepts, in either scope, whose
   * `refs` contain it.
   */
  lemma LinksFromExactly(publicIndex: Option<Index>, privateIndex: Option<Index>, conceptUri: string, u: string)
    ensures u in LinksFrom(publicIndex, privateIndex, conceptUri)
        <==> RefersTo(publicIndex, u, conceptUri) || RefersTo(privateIndex, u, conceptUri)
  {
    if RefersTo(publicIndex, u, conceptUri) {
      assert (u, conceptUri) in RefTriples(publicIndex);
    }
    if RefersTo(privateIndex, u, conceptUri) {
      assert (u, conceptUri) in RefTriples(privateIndex);
    }
  }

  /** Which scope holds a record does not matter: the scan is symmetric in the two indexes. */
  lemma LinksFromSymmetric(publicIndex: Option<Index>, privateIndex: Option<Index>, conceptUri: string)
    ensures LinksFrom(publicIndex, privateIndex, conceptUri) == LinksFrom(privateIndex, publicIndex, conceptUri)
  {
  }

  /**
   * Saving a concept into the public index (it being absent from the private
   * one) makes it a backlink of exactly the URIs it now references.
   */
  lemma LinksFromAfterSave(publicIndex: Option<Index>, privateIndex: Option<Index>, concept: Concept, conceptUri: string)
    requires concept.url !in Dataset(privateIndex)
    ensures LinksFrom(Some(SetThing(publicIndex, concept)), privateIndex, conceptUri)
         == (LinksFrom(publicIndex, privateIndex, conceptUri) - {concept.url})
            + (if conceptUri in concept.refs then {concept.url} else {})
  {
    var after := LinksFrom(Some(SetThing(publicIndex, concept)), privateIndex, conceptUri);
    var before := LinksFrom(publicIndex, privateIndex, conceptUri);
    forall u ensures u in after <==> u in (before - {concept.url}) + (if conceptUri in concept.refs then {concept.url} else {}) {
      LinksFromExactly(Some(SetThing(publicIndex, concept)), privateIndex, conceptUri, u);
      LinksFromExactly(publicIndex, privateIndex, conceptUri, u);
    }
  }
}
