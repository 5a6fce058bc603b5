/**
 * The durable form of the note collection and the key-value store that
 * holds it (NoteApp/NoteViewModel.swift, `saveNotes` and `loadNotes`, with
 * the `Codable` conformances of NoteApp/Note.swift).
 *
 * A stored note is the field-tagged record that `Codable` synthesises for
 * `Note`: its id, its title and its category written as the category's raw
 * string. A stored value is either an array of such records or data that
 * does not decode as one.
 */
module Persistence {
  import opened Wrappers
  import opened Notes

  /** One encoded note: the `id`, `title` and `category` fields, the category by its label. */
  datatype StoredNote = StoredNote(id: NoteId, title: string, category: string)

  /** The bytes kept under a key: an encoded note array, or anything the decoder rejects. */
  datatype StoredValue = NoteArray(records: seq<StoredNote>) | Undecodable

  /** The key-value store the collection is persisted in (`UserDefaults.standard`). */
  class UserDefaults {
    var entries: map<string, StoredValue>
  }

  /** Encodes one note. */
  function EncodeNote(n: Note): (r: StoredNote)
    ensures r.id == n.id && r.title == n.title
    ensures FromRawValue(r.category) == Some(n.category)
  {
    StoredNote(n.id, n.title, RawValue(n.category))
  }

  /** Decodes one note; a record whose category label names no category is rejected. */
  function DecodeNote(rec: StoredNote): (r: Option<Note>)
    ensures r.Some? <==> FromRawValue(rec.category).Some?
    ensures r.Some? ==> EncodeNote(r.value) == rec
  {
    match FromRawValue(rec.category)
    case Some(c) => Some(Note(rec.id, rec.title, c))
    case None => None
  }

  /** Encodes the whole collection, in order. */
  function Encode(notes: seq<Note>): (r: StoredValue)
    ensures r.NoteArray? && |r.records| == |notes|
    ensures forall i :: 0 <= i < |notes| ==> r.records[i] == EncodeNote(notes[i])
  {
    NoteArray(seq(|notes|, i requires 0 <= i < |notes| => EncodeNote(notes[i])))
  }

  /** Every record's category label names a category. */
  predicate AllLabelsKnown(records: seq<StoredNote>)
  {
    forall i :: 0 <= i < |records| ==> FromRawValue(records[i].category).Some?
  }

  /**
   * Decodes an array of records: all of them, or nothing when any one of
   * them fails (there is no partial recovery).
   */
  function DecodeRecords(records: seq<StoredNote>): (r: Option<seq<Note>>)
    ensures r.Some? <==> AllLabelsKnown(records)
    ensures r.Some? ==> |r.value| == |records|
    ensures r.Some? ==> forall i :: 0 <= i < |records| ==> EncodeNote(r.value[i]) == records[i]
  {
    if |records| == 0 then Some([])
    else
      var head := DecodeNote(records[0]);
      var tail := DecodeRecords(records[1..]);
      assert forall i :: 1 <= i < |records| ==> records[i] == records[1..][i - 1];
      if head.None? || tail.None? then None
      else Some([head.value] + tail.value)
  }

  /** Decodes a stored value. */
  function Decode(v: StoredValue): (r: Option<seq<Note>>)
    ensures v.Undecodable? ==> r.None?
  {
    match v
    case NoteArray(records) => DecodeRecords(records)
    case Undecodable => None
  }

  /** Encoding two different notes never gives the same record. */
  lemma EncodeNoteInjective(m: Note, n: Note)
    requires EncodeNote(m) == EncodeNote(n)
    ensures m == n
  {
    RawValueRoundTrip(m.category, n.category);
  }

  /** Round trip: decoding what was encoded gives back the same collection, note for note. */
  lemma DecodeEncode(notes: seq<Note>)
    ensures Decode(Encode(notes)) == Some(notes)
  {
    var v := Encode(notes);
    assert AllLabelsKnown(v.records);
    assert Decode(v).Some?;
    var decoded := Decode(v).value;
    assert |decoded| == |notes|;
    forall i | 0 <= i < |notes|
      ensures decoded[i] == notes[i]
    {
      EncodeNoteInjective(decoded[i], notes[i]);
    }
    assert decoded == notes;
  }

  /** The other round trip: whatever decodes re-encodes to exactly the stored value. */
  lemma EncodeDecode(v: StoredValue, notes: seq<Note>)
    requires Decode(v) == Some(notes)
    ensures Encode(notes) == v
  {
    assert Encode(notes).records == v.records;
  }

  /** An array holding a record with an unknown category label does not decode at all. */
  lemma UnknownCategoryRejected(records: seq<StoredNote>, i: nat)
    requires i < |records| && records[i].category !in {"Personal", "Work", "Study", "Other"}
    ensures Decode(NoteArray(records)) == None
  {
    assert !AllLabelsKnown(records) by {
      assert FromRawValue(records[i].category).None?;
    }
  }
}
