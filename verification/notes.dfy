/**
 * Note resources and the document values a note page edits
 * (components/NotePage.jsx, lines 45 and 90-94).
 */
module Notes {
  import opened Wrappers

  /** The editor's document tree: text leaves and elements with children. */
  datatype Node = Text(text: string) | Element(children: seq<Node>)
  type Doc = seq<Node>

  /** `emptyBody`: the document a page shows for a note that does not exist yet. */
  const EmptyBody: Doc := [Element([Text("")])]

  /**
   * A document value held by the page.  `isEmptyBody` says the value IS the
   * `emptyBody` object (JavaScript compares it by reference), not merely a
   * document that looks like it.
   */
  datatype Value = Value(doc: Doc, isEmptyBody: bool)

  /** The page's value right after a 404: the `emptyBody` object itself. */
  const EmptyBodyValue: Value := Value(EmptyBody, true)

  /**
   * `JSON.stringify` and `JSON.parse` on documents.  Their definitions are
   * not part of this model; a valid serializer parses back every document it
   * wrote, and never writes the empty string.
   */
  datatype Serializer = Serializer(stringify: Doc -> string, parse: string -> Option<Doc>) {
    ghost predicate Valid() {
      forall d :: parse(stringify(d)) == Some(d) && stringify(d) != ""
    }
  }

  /** A valid serializer is injective. */
  lemma StringifyInjective(json: Serializer, d1: Doc, d2: Doc)
    requires json.Valid()
    ensures json.stringify(d1) == json.stringify(d2) <==> d1 == d2
  {
    if json.stringify(d1) == json.stringify(d2) {
      assert json.parse(json.stringify(d1)) == Some(d1);
      assert json.parse(json.stringify(d2)) == Some(d2);
    }
  }

  /** A note thing: its serialized body and its cover image, either possibly missing. */
  datatype Note = Note(body: Option<string>, coverImage: Option<string>)

  /** `createNote()`: a note with no properties yet. */
  const NewNote: Note := Note(None, None)

  /**
   * `setStringNoLocale(note || createNote(), noteBody, body)`: the body is
   * replaced, everything else about an existing note is kept.
   */
  function SetBody(note: Option<Note>, body: string): (r: Note)
    ensures r.body == Some(body)
    ensures r.coverImage == (if note.Some? then note.value.coverImage else None)
  {
    note.GetOr(NewNote).(body := Some(body))
  }

  /**
   * `createOrUpdateNote`: the note (a new one if there is none) holding the
   * serialization of `value`, which parses back to `value`.
   */
  function CreateOrUpdateNote(note: Option<Note>, value: Doc, json: Serializer): (r: Note)
    ensures r.body.Some? && r.body.value == json.stringify(value)
    ensures json.Valid() ==> json.parse(r.body.value) == Some(value)
    ensures note.Some? ==> r.coverImage == note.value.coverImage
  {
    SetBody(note, json.stringify(value))
  }

  /**
   * The page's `bodyJSON` (line 183): `undefined` when there is no note,
   * `null` when the note has no body, and otherwise the stored string.
   */
  datatype BodyJson = Undefined | Null | Json(text: string)

  function BodyJsonOf(note: Option<Note>): (b: BodyJson)
    ensures b == Undefined <==> note.None?
    ensures b.Json? <==> note.Some? && note.value.body.Some?
    ensures b.Json? ==> b.text == note.value.body.value
  {
    match note
    case None => Undefined
    case Some(n) => if n.body.Some? then Json(n.body.value) else Null
  }
}
