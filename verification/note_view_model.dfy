/**
 * The note collection manager (NoteApp/NoteViewModel.swift).
 *
 * `NoteViewModel` owns the `notes` array. Every assignment to the array runs
 * its `didSet` observer, which re-encodes the whole array and stores it under
 * the key "notes_key"; here that observer is the explicit `SaveNotes` step
 * each mutation ends with. As in Swift, the assignment made by the
 * initializer itself does not run the observer, while the one made by
 * `loadNotes` (a method called from the initializer) does.
 */
module NoteStore {
  import opened Wrappers
  import opened Notes
  import opened Persistence

  /** The key the collection is stored under. */
  const NotesKey: string := "notes_key"

  /** No two notes of the collection share an id. */
  predicate DistinctIds(notes: seq<Note>)
  {
    forall i, j :: 0 <= i < j < |notes| ==> notes[i].id != notes[j].id
  }

  /** No note of the collection has the id `id`. */
  predicate IdUnused(notes: seq<Note>, id: NoteId)
  {
    forall i :: 0 <= i < |notes| ==> notes[i].id != id
  }

  /** `notes.firstIndex(where: { $0.id == id })`. */
  function FirstIndexWithId(notes: seq<Note>, id: NoteId): (r: Option<nat>)
    ensures r.None? <==> IdUnused(notes, id)
    ensures r.Some? ==> r.value < |notes| && notes[r.value].id == id
    ensures r.Some? ==> IdUnused(notes[..r.value], id)
  {
    if |notes| == 0 then None
    else if notes[0].id == id then Some(0)
    else
      match FirstIndexWithId(notes[1..], id)
      case None => None
      case Some(k) =>
        assert notes[..k + 1] == [notes[0]] + notes[1..][..k];
        Some(k + 1)
  }

  /**
   * The collection after `updateNote`: the first note with the id gets the
   * new title and category; every other note, the length and every id are
   * kept. Without a note with the id, nothing changes.
   */
  function WithNoteUpdated(notes: seq<Note>, id: NoteId, title: string, category: NoteCategory): (r: seq<Note>)
    ensures |r| == |notes|
    ensures forall i :: 0 <= i < |r| ==> r[i].id == notes[i].id
    ensures IdUnused(notes, id) ==> r == notes
    ensures forall k :: FirstIndexWithId(notes, id) == Some(k) ==>
              r[k] == Note(id, title, category) && forall i :: 0 <= i < |r| && i != k ==> r[i] == notes[i]
    ensures DistinctIds(notes) ==> DistinctIds(r)
  {
    match FirstIndexWithId(notes, id)
    case None => notes
    case Some(k) => notes[k := Note(id, title, category)]
  }

  /** A second save under the key overwrites the first. */
  lemma SecondSaveOverwrites(entries: map<string, StoredValue>, first: StoredValue, second: StoredValue)
    ensures entries[NotesKey := first][NotesKey := second] == entries[NotesKey := second]
  {
  }

  /** What `init` finds in the store: the decoded collection, if there is one and it decodes. */
  function StoredNotes(entries: map<string, StoredValue>): (r: Option<seq<Note>>)
    ensures NotesKey !in entries ==> r.None?
    ensures r.Some? ==> entries[NotesKey] == Encode(r.value)
  {
    if NotesKey in entries then
      var decoded := Decode(entries[NotesKey]);
      if decoded.Some? then EncodeDecode(entries[NotesKey], decoded.value); decoded else None
    else None
  }

  /** After a save, the next launch's `init` loads back exactly the collection that was saved. */
  lemma SavedCollectionReloads(entries: map<string, StoredValue>, notes: seq<Note>)
    ensures StoredNotes(entries[NotesKey := Encode(notes)]) == Some(notes)
  {
    DecodeEncode(notes);
  }

  // ---------------------------------------------------------------------
  // Removal at a set of offsets (`remove(atOffsets:)`)

  /** The indices below `n` that are not in `offsets`, in increasing order. */
  function Survivors(n: nat, offsets: set<nat>): (r: seq<nat>)
    ensures forall j :: 0 <= j < |r| ==> r[j] < n && r[j] !in offsets
    ensures forall i :: 0 <= i < n && i !in offsets ==> i in r
    ensures forall j, k :: 0 <= j < k < |r| ==> r[j] < r[k]
  {
    if n == 0 then [] else Survivors(n - 1, offsets) + (if n - 1 in offsets then [] else [n - 1])
  }

  /** `notes` without the elements at `offsets`. */
  function RemoveOffsets<T>(s: seq<T>, offsets: set<nat>): (r: seq<T>)
    ensures |r| <= |s|
    ensures forall j :: 0 <= j < |r| ==> r[j] in s
  {
    if |s| == 0 then []
    else RemoveOffsets(s[..|s| - 1], offsets) + (if |s| - 1 in offsets then [] else [s[|s| - 1]])
  }

  /** The offsets below `n`. */
  function OffsetsBelow(offsets: set<nat>, n: nat): set<nat>
  {
    set i | i in offsets && i < n
  }

  /**
   * Removal keeps exactly the elements at the surviving indices, in their
   * original order: the j-th element left is the element at the j-th index
   * that is not an offset.
   */
  lemma {:induction false} RemoveOffsetsKeepsSurvivors<T>(s: seq<T>, offsets: set<nat>)
    ensures |RemoveOffsets(s, offsets)| == |Survivors(|s|, offsets)|
    ensures forall j :: 0 <= j < |RemoveOffsets(s, offsets)| ==>
              RemoveOffsets(s, offsets)[j] == s[Survivors(|s|, offsets)[j]]
  {
    if |s| > 0 {
      var init := s[..|s| - 1];
      RemoveOffsetsKeepsSurvivors(init, offsets);
      assert |init| == |s| - 1;
    }
  }

  /** As many indices survive as there are indices that are not offsets. */
  lemma {:induction false} SurvivorsCount(n: nat, offsets: set<nat>)
    ensures |Survivors(n, offsets)| == n - |OffsetsBelow(offsets, n)|
  {
    if n > 0 {
      SurvivorsCount(n - 1, offsets);
      OffsetsBelowStep(offsets, n);
      assert |Survivors(n, offsets)| == |Survivors(n - 1, offsets)| + (if n - 1 in offsets then 0 else 1);
    } else {
      assert OffsetsBelow(offsets, n) == {};
    }
  }

  lemma OffsetsBelowStep(offsets: set<nat>, n: nat)
    requires n > 0
    ensures |OffsetsBelow(offsets, n)| == |OffsetsBelow(offsets, n - 1)| + (if n - 1 in offsets then 1 else 0)
  {
    var below := OffsetsBelow(offsets, n - 1);
    if n - 1 in offsets {
      assert OffsetsBelow(offsets, n) == below + {n - 1};
    } else {
      assert OffsetsBelow(offsets, n) == below;
    }
  }

  /** With every offset in range, removal shortens the collection by the number of offsets. */
  lemma RemoveOffsetsLength<T>(s: seq<T>, offsets: set<nat>)
    requires forall i :: i in offsets ==> i < |s|
    ensures |RemoveOffsets(s, offsets)| == |s| - |offsets|
  {
    RemoveOffsetsKeepsSurvivors(s, offsets);
    SurvivorsCount(|s|, offsets);
    assert OffsetsBelow(offsets, |s|) == offsets;
  }

  /** Removal never brings two notes with one id together. */
  lemma RemoveOffsetsKeepsDistinctIds(notes: seq<Note>, offsets: set<nat>)
    requires DistinctIds(notes)
    ensures DistinctIds(RemoveOffsets(notes, offsets))
  {
    RemoveOffsetsKeepsSurvivors(notes, offsets);
  }

  // ---------------------------------------------------------------------
  // The view-model

  class NoteViewModel {
    /** The collection, in insertion order. */
    var notes: seq<Note>
    /** The store the collection is persisted in. */
    const defaults: UserDefaults

    /** The store holds the encoding of the current collection. */
    ghost predicate Persisted()
      reads this, defaults
    {
      NotesKey in defaults.entries && defaults.entries[NotesKey] == Encode(notes)
    }

    /**
     * `init(notes:)`: starts from `initial` (empty by default), then takes
     * the stored collection instead when one is stored and decodes. What is
     * stored is never changed: a decoded collection is saved back as the
     * very value it was decoded from.
     */
    constructor (defaults: UserDefaults, initial: seq<Note> := [])
      modifies defaults
      ensures this.defaults == defaults
      ensures defaults.entries == old(defaults.entries)
      ensures StoredNotes(old(defaults.entries)).Some? ==> notes == StoredNotes(old(defaults.entries)).value && Persisted()
      ensures StoredNotes(old(defaults.entries)).None? ==> notes == initial
    {
      this.defaults := defaults;
      notes := initial;
      new;
      LoadNotes();
    }

    /** `saveNotes`: encodes the collection and writes it under the key, leaving every other key alone. */
    method SaveNotes()
      modifies defaults
      ensures defaults.entries == old(defaults.entries)[NotesKey := Encode(notes)]
      ensures Persisted()
    {
      defaults.entries := defaults.entries[NotesKey := Encode(notes)];
    }

    /** `loadNotes`: replaces the collection with the stored one if it is there and decodes. */
    method LoadNotes()
      modifies this, defaults
      ensures defaults.entries == old(defaults.entries)
      ensures StoredNotes(old(defaults.entries)).Some? ==> notes == StoredNotes(old(defaults.entries)).value && Persisted()
      ensures StoredNotes(old(defaults.entries)).None? ==> notes == old(notes)
    {
      if NotesKey in defaults.entries {
        var decoded := Decode(defaults.entries[NotesKey]);
        if decoded.Some? {
          notes := decoded.value;
          SaveNotes();
          assert StoredNotes(old(defaults.entries)) == decoded;
        }
      }
    }

    /**
     * `addNote`: appends a new note with the given title and category. The
     * id stands for the `UUID()` the source draws; when it is unused, the
     * ids stay pairwise distinct.
     */
    method AddNote(title: string, category: NoteCategory, id: NoteId)
      modifies this, defaults
      ensures notes == old(notes) + [Note(id, title, category)]
      ensures defaults.entries == old(defaults.entries)[NotesKey := Encode(notes)]
      ensures old(DistinctIds(notes)) && IdUnused(old(notes), id) ==> DistinctIds(notes)
    {
      var newNote := Note(id, title, category);
      notes := notes + [newNote];
      SaveNotes();
    }

    /**
     * `updateNote`: sets the title and then the category of the first note
     * with the id of `note`, saving after each of the two assignments. With
     * no such note nothing changes and nothing is saved. Ids, positions and
     * every other note are untouched either way.
     */
    method UpdateNote(note: Note, newTitle: string, newCategory: NoteCategory)
      modifies this, defaults
      ensures notes == WithNoteUpdated(old(notes), note.id, newTitle, newCategory)
      ensures defaults.entries == if IdUnused(old(notes), note.id) then old(defaults.entries)
                                  else old(defaults.entries)[NotesKey := Encode(notes)]
    {
      var index := FirstIndexWithId(notes, note.id);
      if index.Some? {
        var k := index.value;
        ghost var before := notes;
        ghost var stored := defaults.entries;
        assert WithNoteUpdated(before, note.id, newTitle, newCategory) == before[k := Note(note.id, newTitle, newCategory)];
        notes := notes[k := notes[k].(title := newTitle)];
        SaveNotes();
        assert notes == before[k := Note(note.id, newTitle, before[k].category)];
        notes := notes[k := notes[k].(category := newCategory)];
        SaveNotes();
        assert notes == before[k := Note(note.id, newTitle, newCategory)];
        SecondSaveOverwrites(stored, Encode(before[k := Note(note.id, newTitle, before[k].category)]), Encode(notes));
      }
    }

    /**
     * `deleteNote(at:)`: removes the notes at the given offsets, which are
     * all in range (its caller, the list's `onDelete`, only passes offsets
     * of rows it shows), and saves. The survivors keep
     * their order and the collection shrinks by the number of offsets.
     */
    method DeleteNote(offsets: set<nat>)
      requires forall i :: i in offsets ==> i < |notes|
      modifies this, defaults
      ensures notes == RemoveOffsets(old(notes), offsets)
      ensures |notes| == |old(notes)| - |offsets|
      ensures defaults.entries == old(defaults.entries)[NotesKey := Encode(notes)]
      ensures old(DistinctIds(notes)) ==> DistinctIds(notes)
    {
      RemoveOffsetsLength(notes, offsets);
      if DistinctIds(notes) {
        RemoveOffsetsKeepsDistinctIds(notes, offsets);
      }
      notes := RemoveOffsets(notes, offsets);
      SaveNotes();
    }

    /** `notes.removeAll()` (the settings screen's "Delete All"): empties the collection and saves. */
    method RemoveAll()
      modifies this, defaults
      ensures notes == []
      ensures defaults.entries == old(defaults.entries)[NotesKey := Encode([])]
    {
      notes := [];
      SaveNotes();
    }
  }
}
