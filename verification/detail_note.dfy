/**
 * The edit buffers of the note detail screen (NoteApp/Views/DetailNoteView.swift).
 *
 * The screen keeps a local copy of the note it shows and four edit buffers
 * (title, content, category, and the tags as one text). Cancel refills the
 * buffers from the note; Save writes them into the note; the heart button
 * flips the note's favorite flag. The iOS and macOS toolbars run the same
 * Cancel and Save code, so it is modelled once.
 */
module DetailNote {
  import opened Notes
  import opened TagText

  /** An opaque point in time (`Date`). */
  type Timestamp = nat

  /**
   * The note as this screen sees it: beside the id, title and category, it
   * has a content text, tags, a favorite flag and timestamps.
   */
  datatype ShownNote = ShownNote(
    id: NoteId, title: string, content: string, category: NoteCategory,
    tags: seq<string>, isFavorite: bool, createdAt: Timestamp, modifiedAt: Timestamp)

  class DetailEditor {
    var note: ShownNote
    var isEditing: bool
    var editedTitle: string
    var editedContent: string
    var editedCategory: NoteCategory
    var editedTags: string

    /** The four buffers hold the note's current values, the tags as their text. */
    predicate BuffersShowNote()
      reads this
    {
      && editedTitle == note.title
      && editedContent == note.content
      && editedCategory == note.category
      && editedTags == TagsText(note.tags)
    }

    /** `init(note:viewModel:)`: shows `note`, not editing, with the buffers filled from it. */
    constructor (note: ShownNote)
      ensures this.note == note && !isEditing
      ensures BuffersShowNote()
    {
      this.note := note;
      isEditing := false;
      editedTitle := note.title;
      editedContent := note.content;
      editedCategory := note.category;
      editedTags := TagsText(note.tags);
    }

    /** The Edit button. */
    method BeginEditing()
      modifies this
      ensures isEditing
      ensures note == old(note) && editedTitle == old(editedTitle) && editedContent == old(editedContent)
      ensures editedCategory == old(editedCategory) && editedTags == old(editedTags)
    {
      isEditing := true;
    }

    /** The Cancel button: leaves editing and discards the edits; the note itself is unchanged. */
    method CancelEditing()
      modifies this
      ensures !isEditing && note == old(note)
      ensures BuffersShowNote()
    {
      isEditing := false;
      editedTitle := note.title;
      editedContent := note.content;
      editedCategory := note.category;
      editedTags := TagsText(note.tags);
    }

    /**
     * The Save button: writes the buffers into the note (see `ApplyEdits`)
     * and leaves editing; the buffers are unchanged. Saving buffers that
     * still show a note with clean tags changes nothing but the
     * modification time.
     */
    method SaveEdits(now: Timestamp)
      modifies this
      ensures note == ApplyEdits(old(note), old(editedTitle), old(editedContent), old(editedCategory), old(editedTags), now)
      ensures !isEditing
      ensures editedTitle == old(editedTitle) && editedContent == old(editedContent)
      ensures editedCategory == old(editedCategory) && editedTags == old(editedTags)
      ensures old(BuffersShowNote()) && AllClean(old(note.tags)) ==> note == old(note).(modifiedAt := now)
    {
      var saved := ApplyEdits(note, editedTitle, editedContent, editedCategory, editedTags, now);
      if BuffersShowNote() && AllClean(note.tags) {
        UneditedSaveOnlyStamps(note, now);
        assert saved == note.(modifiedAt := now);
      }
      note := saved;
      isEditing := false;
    }

    /** The heart button: flips the local note's favorite flag and nothing else. */
    method ToggleFavorite()
      modifies this
      ensures note == old(note).(isFavorite := !old(note.isFavorite))
      ensures isEditing == old(isEditing)
      ensures editedTitle == old(editedTitle) && editedContent == old(editedContent)
      ensures editedCategory == old(editedCategory) && editedTags == old(editedTags)
    {
      note := note.(isFavorite := !note.isFavorite);
    }
  }

  /**
   * The note after Save: the edited title, content and category, the tags
   * read from the tag text, and the modification time `now`. The id, the
   * favorite flag and the creation time stay; every tag is comma-free and
   * trimmed.
   */
  function ApplyEdits(n: ShownNote, title: string, content: string, category: NoteCategory,
                      tagsText: string, now: Timestamp): (r: ShownNote)
    ensures r.id == n.id && r.isFavorite == n.isFavorite && r.createdAt == n.createdAt
    ensures r.title == title && r.content == content && r.category == category && r.modifiedAt == now
    ensures r.tags == ParseEditedTags(tagsText)
    ensures forall i :: 0 <= i < |r.tags| ==> ',' !in r.tags[i] && Trimmed(r.tags[i])
  {
    n.(title := title, content := content, category := category,
       tags := ParseEditedTags(tagsText), modifiedAt := now)
  }

  /** Saving unedited buffers of a note with clean tags only stamps the modification time. */
  lemma UneditedSaveOnlyStamps(n: ShownNote, now: Timestamp)
    requires AllClean(n.tags)
    ensures ApplyEdits(n, n.title, n.content, n.category, TagsText(n.tags), now) == n.(modifiedAt := now)
  {
    EditedTagsRoundTrip(n.tags);
  }

  /** Pressing the heart button twice restores the note. */
  method ToggleFavoriteTwice(editor: DetailEditor)
    modifies editor
    ensures editor.note == old(editor.note)
  {
    editor.ToggleFavorite();
    editor.ToggleFavorite();
  }
}
