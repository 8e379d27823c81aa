/**
 * Concept records, the URLs that name concepts and tags, and the per-scope
 * concept index a note page writes on every save
 * (components/NotePage.jsx, lines 90-130).
 *
 * An RDF thing is modelled by a record whose multi-valued properties
 * (`refs`, `tagged`) are sets: `addUrl` inserts into the set.  A concept
 * index (an RDF dataset) is a map from a thing's URL to its record:
 * `setThing` replaces the record with that URL, `removeThing` drops it.
 */
module Concepts {
  import opened Wrappers

  /** Timestamps are handed in by the caller instead of being read from a clock. */
  type Timestamp = int

  /** A function that never maps two different names to the same identifier. */
  ghost predicate Injective(f: string -> string) {
    forall a, b :: f(a) == f(b) ==> a == b
  }

  /**
   * The name-to-identifier codecs of the application's URI utilities
   * (`conceptNameToUrlSafeId`, `tagNameToUrlSafeId`); their definitions are
   * not part of this model, only their injectivity is relied on.
   */
  datatype Codec = Codec(conceptId: string -> string, tagId: string -> string) {
    ghost predicate Valid() {
      Injective(conceptId) && Injective(tagId)
    }
  }

  /**
   * What a note page reads from its workspace: the prefixes concept and tag
   * URLs start with, and `defaultNoteStorageUri`, whose definition is not
   * part of this model.
   */
  datatype Workspace = Workspace(conceptPrefix: string, tagPrefix: string,
                                 defaultNoteStorageUri: string -> string)

  /** A concept as it is stored in a concept index. */
  datatype Concept = Concept(url: string, refs: set<string>, tagged: set<string>,
                             storedAt: Option<string>, modified: Option<Timestamp>)

  /** A concept index: concept URL to concept record. */
  type Index = map<string, Concept>

  /** Under one prefix, an injective identifier codec gives distinct names distinct URLs. */
  lemma PrefixedInjective(prefix: string, f: string -> string, a: string, b: string)
    requires Injective(f)
    ensures prefix + f(a) == prefix + f(b) <==> a == b
  {
    if prefix + f(a) == prefix + f(b) {
      assert f(a) == (prefix + f(a))[|prefix|..];
      assert f(b) == (prefix + f(b))[|prefix|..];
    }
  }

  /** `createConcept`: a new thing, with no properties, at the concept's URL. */
  function CreateConcept(codec: Codec, prefix: string, name: string): (c: Concept)
    ensures c.url == prefix + codec.conceptId(name)
    ensures c.refs == {} && c.tagged == {} && c.storedAt == None && c.modified == None
  {
    Concept(prefix + codec.conceptId(name), {}, {}, None, None)
  }

  /** `createTag`: a tag is a thing with nothing but its URL. */
  function CreateTag(codec: Codec, prefix: string, name: string): (url: string)
    ensures |prefix| <= |url| && url[..|prefix|] == prefix
  {
    prefix + codec.tagId(name)
  }

  /** Distinct concept names give distinct concept URLs. */
  lemma ConceptUrlInjective(codec: Codec, prefix: string, a: string, b: string)
    requires codec.Valid()
    ensures CreateConcept(codec, prefix, a).url == CreateConcept(codec, prefix, b).url <==> a == b
  {
    PrefixedInjective(prefix, codec.conceptId, a, b);
  }

  /** Distinct tag names give distinct tag URLs. */
  lemma TagUrlInjective(codec: Codec, prefix: string, a: string, b: string)
    requires codec.Valid()
    ensures CreateTag(codec, prefix, a) == CreateTag(codec, prefix, b) <==> a == b
  {
    PrefixedInjective(prefix, codec.tagId, a, b);
  }

  /**
   * What `createConceptFor` builds: the concept's own URL, the set of the
   * URLs of the concepts it references and the set of the URLs of its tags.
   */
  function ConceptFor(codec: Codec, name: string, conceptPrefix: string, conceptNames: seq<string>,
                      tagPrefix: string, tagNames: seq<string>): Concept
  {
    Concept(CreateConcept(codec, conceptPrefix, name).url,
            set n | n in conceptNames :: CreateConcept(codec, conceptPrefix, n).url,
            set t | t in tagNames :: CreateTag(codec, tagPrefix, t),
            None, None)
  }

  /**
   * `createConceptFor`: starts from the bare concept and adds one `refs`
   * URL per referenced name, then one `tagged` URL per tag name.
   */
  method CreateConceptFor(codec: Codec, name: string, conceptPrefix: string, conceptNames: seq<string>,
                          tagPrefix: string, tagNames: seq<string>) returns (concept: Concept)
    ensures concept == ConceptFor(codec, name, conceptPrefix, conceptNames, tagPrefix, tagNames)
  {
    concept := CreateConcept(codec, conceptPrefix, name);
    for i := 0 to |conceptNames|
      invariant concept == ConceptFor(codec, name, conceptPrefix, conceptNames[..i], tagPrefix, [])
    {
      assert conceptNames[..i + 1] == conceptNames[..i] + [conceptNames[i]];
      concept := concept.(refs := concept.refs + {CreateConcept(codec, conceptPrefix, conceptNames[i]).url});
    }
    assert conceptNames[..|conceptNames|] == conceptNames;
    for i := 0 to |tagNames|
      invariant concept == ConceptFor(codec, name, conceptPrefix, conceptNames, tagPrefix, tagNames[..i])
    {
      assert tagNames[..i + 1] == tagNames[..i] + [tagNames[i]];
      concept := concept.(tagged := concept.tagged + {CreateTag(codec, tagPrefix, tagNames[i])});
    }
    assert tagNames[..|tagNames|] == tagNames;
  }

  /** Prefixing the images of an injective function keeps a set's size. */
  lemma {:induction false} PrefixedImageSize(s: set<string>, prefix: string, f: string -> string)
    requires Injective(f)
    ensures |set x | x in s :: prefix + f(x)| == |s|
    decreases s
  {
    if s != {} {
      var x :| x in s;
      PrefixedImageSize(s - {x}, prefix, f);
      var rest := set y | y in s - {x} :: prefix + f(y);
      assert (set y | y in s :: prefix + f(y)) == rest + {prefix + f(x)};
      forall y | y in s - {x} ensures prefix + f(y) != prefix + f(x) {
        PrefixedInjective(prefix, f, x, y);
      }
      assert prefix + f(x) !in rest;
    }
  }

  /** The prefixed images of a sequence's elements are those of its element set. */
  lemma {:induction false} SizeOfSeqImage(names: seq<string>, prefix: string, f: string -> string)
    requires Injective(f)
    ensures |set n | n in names :: prefix + f(n)| == |set n | n in names|
  {
    var elems := set n | n in names;
    assert (set n | n in names :: prefix + f(n)) == (set n | n in elems :: prefix + f(n));
    PrefixedImageSize(elems, prefix, f);
  }

  /**
   * Repeated names collapse: a concept gets one `refs` URL per distinct
   * referenced name and one `tagged` URL per distinct tag name.
   */
  lemma ConceptForCollapsesDuplicates(codec: Codec, name: string, conceptPrefix: string, conceptNames: seq<string>,
                                      tagPrefix: string, tagNames: seq<string>)
    requires codec.Valid()
    ensures var c := ConceptFor(codec, name, conceptPrefix, conceptNames, tagPrefix, tagNames);
      && |c.refs| == |set n | n in conceptNames|
      && |c.tagged| == |set t | t in tagNames|
  {
    var c := ConceptFor(codec, name, conceptPrefix, conceptNames, tagPrefix, tagNames);
    SizeOfSeqImage(conceptNames, conceptPrefix, codec.conceptId);
    assert c.refs == set n | n in conceptNames :: conceptPrefix + codec.conceptId(n);
    SizeOfSeqImage(tagNames, tagPrefix, codec.tagId);
    assert c.tagged == set t | t in tagNames :: tagPrefix + codec.tagId(t);
  }

  /** `conceptIndex || createSolidDataset()`: an absent index reads as an empty one. */
  function Dataset(index: Option<Index>): Index {
    index.GetOr(map[])
  }

  /** Every record sits under its own URL, as in an RDF dataset. */
  ghost predicate WellKeyed(index: Index) {
    forall u :: u in index ==> index[u].url == u
  }

  /**
   * `setThing`: the record with the concept's URL is replaced (or added);
   * every other record stays as it was.
   */
  function SetThing(index: Option<Index>, concept: Concept): (r: Index)
    ensures r.Keys == Dataset(index).Keys + {concept.url}
    ensures r[concept.url] == concept
    ensures forall u :: u in Dataset(index) && u != concept.url ==> r[u] == Dataset(index)[u]
    ensures WellKeyed(Dataset(index)) ==> WellKeyed(r)
  {
    Dataset(index)[concept.url := concept]
  }

  /** `removeThing`: the record with the concept's URL is gone, every other one stays. */
  function RemoveThing(index: Index, concept: Concept): (r: Index)
    ensures r.Keys == index.Keys - {concept.url}
    ensures forall u :: u in r ==> r[u] == index[u]
    ensures WellKeyed(index) ==> WellKeyed(r)
  {
    index - {concept.url}
  }

  /** An absent index becomes a one-record index. */
  lemma SetThingOnAbsent(concept: Concept)
    ensures SetThing(None, concept) == map[concept.url := concept]
  {
  }

  /** Writing the same concept twice leaves one record, as writing it once does. */
  lemma SetThingIdempotent(index: Option<Index>, concept: Concept)
    ensures SetThing(Some(SetThing(index, concept)), concept) == SetThing(index, concept)
  {
  }

  /** Line 118: the storage location a saved concept gets. */
  function StorageUri(workspace: Workspace, existing: Option<Concept>, name: string): (r: Option<string>)
    ensures existing.Some? ==> r == existing.value.storedAt
    ensures existing.None? ==> r == Some(workspace.defaultNoteStorageUri(name))
  {
    if existing.Some? then existing.value.storedAt else Some(workspace.defaultNoteStorageUri(name))
  }

  /**
   * `createOrUpdateConceptIndex`: the index with the concept's record
   * rebuilt from the names found in the document, stored where the existing
   * record says (or at the default location for a new concept), and stamped
   * with `now`.  An existing record without `storedAt` gives `addUrl` a null
   * location on line 127; the model takes that to add nothing.
   */
  function CreateOrUpdateConceptIndex(codec: Codec, workspace: Workspace, conceptIndex: Option<Index>,
                                      existing: Option<Concept>, name: string,
                                      conceptNames: seq<string>, tagNames: seq<string>, now: Timestamp): (r: Index)
    ensures var url := CreateConcept(codec, workspace.conceptPrefix, name).url;
      && r.Keys == Dataset(conceptIndex).Keys + {url}
      && (forall u :: u in Dataset(conceptIndex) && u != url ==> r[u] == Dataset(conceptIndex)[u])
      && r[url].url == url
      && r[url].refs == (set n | n in conceptNames :: CreateConcept(codec, workspace.conceptPrefix, n).url)
      && r[url].tagged == (set t | t in tagNames :: CreateTag(codec, workspace.tagPrefix, t))
      && r[url].storedAt == (if existing.Some? then existing.value.storedAt
                             else Some(workspace.defaultNoteStorageUri(name)))
      && r[url].modified == Some(now)
    ensures WellKeyed(Dataset(conceptIndex)) ==> WellKeyed(r)
  {
    var concept := ConceptFor(codec, name, workspace.conceptPrefix, conceptNames, workspace.tagPrefix, tagNames);
    SetThing(conceptIndex, concept.(storedAt := StorageUri(workspace, existing, name), modified := Some(now)))
  }
}
