# NoteApp note collection, modelled in Dafny

This project models the core of NoteApp, a SwiftUI note-taking app:

- the note entity and its fixed category taxonomy (`Notes`);
- the durable form of the collection and the key-value store it is kept in (`Persistence`);
- the view-model that owns the collection and re-saves it after every change (`NoteStore`);
- the comma-separated tag text the editors read and write (`TagText`);
- the Save action of the new-note form (`AddNoteForm`);
- the edit buffers of the note detail screen (`DetailNote`).

`NoteStore.NoteViewModel` is a class. Its `notes` field is a `seq<Note>` that the methods reassign. The
`didSet` observer of the Swift property becomes an explicit `SaveNotes` call after each assignment.
Swift runs that observer for the assignment `loadNotes` makes but not for the one `init` makes itself.
So a collection found in the store is saved back at start-up, and the initializer's argument is not.
The model follows this: after `init` without a decodable stored collection, the store is untouched.
`UpdateNote` assigns twice (title, then category) and therefore saves twice, as the source does.

`UserDefaults.standard` is the class `Persistence.UserDefaults`, a map from keys to stored values. A
stored value is either an array of field-tagged note records or data that does not decode. A record
keeps the category as its raw string, so decoding really does reject unknown labels. Decoding is all
or nothing, and encoding and decoding are proved to be inverse in both directions.

`DetailNote.DetailEditor` is a class whose fields are the screen's `@State` variables: the local note
and the four edit buffers. The iOS and macOS toolbars run the same Cancel and Save code, so it is
modelled once.

## Model

| member | source | states |
|---|---|---|
| `Notes.RawValue` | NoteApp/Note.swift:11-12 | A category's raw value is its own case name: the categories in declaration order have the labels "Personal", "Work", "Study" and "Other". |
| `Notes.FromRawValue` | NoteApp/Note.swift:11-12 | `NoteCategory(rawValue:)` gives category `c` exactly when `s` is `c`'s raw value. It gives nothing for any label other than "Personal", "Work", "Study", "Other". |
| `Notes.RawValueRoundTrip` | NoteApp/Note.swift:11-12 | Decoding a category's raw value gives the category back. Distinct categories have distinct raw values. |
| `Notes.AllCases` | NoteApp/Note.swift:11-12 | `allCases` has four entries: Personal, Work, Study, Other, in declaration order, with no repeats. |
| `Notes.AllCasesComplete` | NoteApp/Note.swift:11-12 | Every category occurs in `allCases`. |
| `Notes.CategoryColor` | NoteApp/Note.swift:14-21 | The categories in declaration order are coloured green, blue, orange and gray. |
| `Notes.CategoryColorInjective` | NoteApp/Note.swift:14-21 | The colour mapping is total (green, blue, orange, gray) and no two categories share a colour. |
| `Notes.NewNoteDefaults` | NoteApp/Note.swift:24-33 | A note built without a category is in `Other`. The initializer stores the id and title unchanged. |
| `Persistence.EncodeNote` | NoteApp/Note.swift:24-33 | A note's record keeps its id and title, and its category as a label that decodes to that category. |
| `Persistence.DecodeNote` | NoteApp/Note.swift:11 | A record decodes exactly when its category label is known. A decoded note re-encodes to the same record. |
| `Persistence.Encode` | NoteApp/NoteViewModel.swift:40-44 | The whole collection is encoded as an array with one record per note, in order. |
| `Persistence.DecodeRecords` | NoteApp/NoteViewModel.swift:46-51 | An array decodes exactly when every record's label is known, with no partial recovery. The result has one note per record, and each re-encodes to its record. |
| `Persistence.Decode` | NoteApp/NoteViewModel.swift:46-51 | Data that is not an encoded note array never decodes. |
| `Persistence.EncodeNoteInjective` | NoteApp/Note.swift:24-33 | Two notes with the same record are the same note. |
| `Persistence.DecodeEncode` | NoteApp/NoteViewModel.swift:40-51 | Round trip: decoding an encoded collection gives back the same collection. |
| `Persistence.EncodeDecode` | NoteApp/NoteViewModel.swift:46-51 | Round trip the other way: whatever decodes re-encodes to exactly the stored value. |
| `Persistence.UnknownCategoryRejected` | NoteApp/Note.swift:11 | An array with even one unknown category label does not decode. |
| `NoteStore.FirstIndexWithId` | NoteApp/NoteViewModel.swift:29 | `firstIndex(where:)` finds no index exactly when no note has the id. Otherwise it finds an index whose note has the id, with no earlier note having it. |
| `NoteStore.StoredNotes` | NoteApp/NoteViewModel.swift:46-51 | Nothing is loaded when the key is absent. What is loaded is the collection whose encoding is stored. |
| `NoteStore.SavedCollectionReloads` | NoteApp/NoteViewModel.swift:11-13 | After a save, the next start-up loads exactly the collection that was saved. |
| `NoteStore.Survivors` | NoteApp/NoteViewModel.swift:35-37 | The indices kept by `remove(atOffsets:)` are those below the length and not in the offsets, in increasing order. |
| `NoteStore.RemoveOffsets` | NoteApp/NoteViewModel.swift:36 | `remove(atOffsets:)` never lengthens the collection and keeps only elements it had. `RemoveOffsetsKeepsSurvivors` pins down exactly which elements remain. |
| `NoteStore.RemoveOffsetsKeepsSurvivors` | NoteApp/NoteViewModel.swift:35-37 | Removal keeps exactly the elements at the surviving indices, in their original relative order. |
| `NoteStore.SurvivorsCount` | NoteApp/NoteViewModel.swift:35-37 | The number of surviving indices is the length minus the number of offsets below it. |
| `NoteStore.RemoveOffsetsLength` | NoteApp/NoteViewModel.swift:35-37 | With all offsets in range, the collection shrinks by exactly the number of offsets. |
| `NoteStore.RemoveOffsetsKeepsDistinctIds` | NoteApp/NoteViewModel.swift:35-37 | Removal keeps ids pairwise distinct. |
| `NoteStore.NoteViewModel.constructor` | NoteApp/NoteViewModel.swift:18-21 | `notes` is the stored collection when one is stored and decodes, and otherwise the argument (empty by default). The store ends as it began: loading a decodable collection rewrites it with the value it already had, and otherwise nothing is written. |
| `NoteStore.NoteViewModel.SaveNotes` | NoteApp/NoteViewModel.swift:40-44 | The encoding of `notes` is written under "notes_key", and every other key is left alone. |
| `NoteStore.NoteViewModel.LoadNotes` | NoteApp/NoteViewModel.swift:46-51 | `notes` is replaced only by a stored collection that decodes, which is then saved back unchanged. Otherwise nothing changes. |
| `NoteStore.NoteViewModel.AddNote` | NoteApp/NoteViewModel.swift:23-26 | The length grows by one, and the new note is last with the given id, title and category. Earlier notes are unchanged, the store holds the new collection, and a fresh id keeps ids distinct. |
| `NoteStore.WithNoteUpdated` | NoteApp/NoteViewModel.swift:28-33 | Only the first note with the id gets the new title and category. Every other note, the length and every id are kept, so distinct ids stay distinct. With no note having the id, the collection is unchanged. |
| `NoteStore.NoteViewModel.UpdateNote` | NoteApp/NoteViewModel.swift:28-33 | The collection becomes `WithNoteUpdated` of the old one. The store then holds its encoding, or is untouched when no note has the id. |
| `NoteStore.NoteViewModel.DeleteNote` | NoteApp/NoteViewModel.swift:35-37 | The notes at the in-range offsets are removed and the survivors keep their order. The length drops by the number of offsets, ids stay distinct, and the store holds the result. |
| `NoteStore.NoteViewModel.RemoveAll` | NoteApp/Views/SettingsView.swift:134 | The collection is emptied and the empty collection is stored. |
| `TagText.Fields` | NoteApp/Views/AddNoteView.swift:56 | There is at least one field, and no field contains the separator. |
| `TagText.JoinFields` | NoteApp/Views/AddNoteView.swift:56 | Joining the fields with the separator gives the text back: the fields are the text's comma-separated parts, in order. |
| `TagText.SplitFromFields` | NoteApp/Views/AddNoteView.swift:56 | The scanning split emits exactly the non-empty fields, in order. |
| `TagText.Split` | NoteApp/Views/AddNoteView.swift:56 | `split(separator:)` omits empty pieces: it gives the non-empty fields, none containing the separator. |
| `TagText.IsWhitespace` | NoteApp/Views/AddNoteView.swift:56 | `CharacterSet.whitespaces` holds the space and the tab but neither line break nor the comma. |
| `TagText.Trim` | NoteApp/Views/AddNoteView.swift:56 | `trimmingCharacters(in: .whitespaces)` returns the contiguous part of the input left after removing only whitespace before and after it, with no whitespace at either end. It gives "" exactly when the input is all whitespace and leaves trimmed text as it is. |
| `TagText.TrimKeepsOut` | NoteApp/Views/AddNoteView.swift:56 | Trimming only removes characters: a character absent from a piece, such as the comma it was split at, is absent from the trimmed piece. |
| `TagText.NonEmptyAfterTrim` | NoteApp/Views/AddNoteView.swift:56 | Dropping empty pieces before trimming, as `split` does, does not change the tags once blank ones are filtered out. |
| `TagText.ParseNewTags` | NoteApp/Views/AddNoteView.swift:56 | Every new-note tag is non-empty, comma-free and trimmed. The tags are the non-blank fields of the text, trimmed, in written order. |
| `TagText.BlankTextHasNoTags` | NoteApp/Views/AddNoteView.swift:56 | Text of only commas and whitespace gives no tags. |
| `TagText.ParseEditedTags` | NoteApp/Views/DetailNoteView.swift:184 | The i-th edited tag is the i-th non-empty field, trimmed. Every tag is comma-free and trimmed, and blank pieces are kept. |
| `TagText.BlankPieceKeptOnlyWhenEditing` | NoteApp/Views/DetailNoteView.swift:184 | For "a, ,b"-shaped text, the detail editor reads ["a", "", "b"] and the new-note editor reads ["a", "b"]. |
| `TagText.JoinEnds` | NoteApp/Views/DetailNoteView.swift:20 | `joined(separator:)` starts with the first part and ends with the last one. `JoinFields` shows that joining the fields of a text gives the text back, and `FieldsOfTagsText` gives the fields of the ", "-joined tag text. |
| `TagText.FieldsOfTagsText` | NoteApp/Views/DetailNoteView.swift:20 | Comma-free tags joined with ", " have as fields the first tag, then each later tag behind one space. |
| `TagText.TrimAfterSpace` | NoteApp/Views/DetailNoteView.swift:184 | Trimming a trimmed tag that follows the space of ", " gives the tag. |
| `TagText.EditedTagsRoundTrip` | NoteApp/Views/DetailNoteView.swift:180-184 | Reading back the ", "-joined text of non-empty, comma-free, trimmed tags gives the same tags. |
| `TagText.NewTagsRoundTrip` | NoteApp/Views/AddNoteView.swift:56 | The same round trip holds for the new-note parser. |
| `AddNoteForm.SavedTitle` | NoteApp/Views/AddNoteView.swift:58 | The saved title is never empty. It is "Untitled" when the field is empty and otherwise the typed title unchanged. |
| `AddNoteForm.Save` | NoteApp/Views/AddNoteView.swift:55-66 | Save is disabled, and gives nothing, exactly when title and content are both empty. Otherwise the request has the title given by `SavedTitle` ("Untitled" for an empty title), the content and category as entered, and clean tags parsed from the text. |
| `DetailNote.DetailEditor.constructor` | NoteApp/Views/DetailNoteView.swift:14-21 | The screen starts out not editing, with the buffers showing the note and the tags as their ", "-joined text. |
| `DetailNote.DetailEditor.BeginEditing` | NoteApp/Views/DetailNoteView.swift:211-213 | Edit turns editing on and changes nothing else. |
| `DetailNote.DetailEditor.CancelEditing` | NoteApp/Views/DetailNoteView.swift:174-181 | Cancel leaves editing, refills all four buffers from the note and leaves the note unchanged. |
| `DetailNote.ApplyEdits` | NoteApp/Views/DetailNoteView.swift:184-198 | The saved note has the edited title, content and category and the new modification time. It keeps its id, favorite flag and creation time, and every tag is comma-free and trimmed. |
| `DetailNote.UneditedSaveOnlyStamps` | NoteApp/Views/DetailNoteView.swift:14-21 | Saving the buffers exactly as they were filled from a note with clean tags changes only its modification time. |
| `DetailNote.DetailEditor.SaveEdits` | NoteApp/Views/DetailNoteView.swift:183-201 | Save sets the note to `ApplyEdits` of the old note and the buffers. It leaves editing and keeps the buffers. When the buffers still show a note with clean tags, only its modification time changes. |
| `DetailNote.DetailEditor.ToggleFavorite` | NoteApp/Views/DetailNoteView.swift:42-45 | The heart button flips the local note's favorite flag and changes nothing else. |
| `DetailNote.ToggleFavoriteTwice` | NoteApp/Views/DetailNoteView.swift:42-45 | Two presses restore the note. |

## Left out

- `JSONEncoder`/`JSONDecoder` byte formats: a stored value is modelled by the note records it encodes, not by JSON text. UUIDs are compared by value, not by their string form.
- `NoteStore.NoteViewModel.SaveNotes`: the `try?` failure branch, which keeps the previous stored value, is not modelled. Encoding cannot fail in the model, because the Swift encoder does not fail on UUIDs, strings and string-backed enums.
- `UUID()` is the `id` parameter of `AddNote`. Its global uniqueness is the assumption `IdUnused` under which ids stay distinct.
- `Date()` and date formatting are left out. A timestamp is an opaque number passed to `SaveEdits`.
- `@Published`/`ObservableObject` change notification, all SwiftUI layout, navigation, pickers, alerts, icons and colour rendering are left out.
- The views call view-model members that NoteApp/NoteViewModel.swift does not define: `addNote(title:content:category:tags:)`, `updateNote` with content and tags, `toggleFavorite`, `deleteNote(note:)` and `totalNotes`. The same holds for the note fields `content`, `tags`, `isFavorite` and `modifiedAt`, and for the category property `icon` that the views read as `category.icon`. These calls are not modelled. The views' own edit-buffer logic is modelled over `DetailNote.ShownNote`, which carries those fields. `AddNoteForm.Save` returns the request it would pass.
- AddNoteView starts its category at `.other`, a case the shown `NoteCategory` does not have (its case is `Other`). The model starts the form at `Other`.
- The add button of NoteApp/ContentView.swift:44 only calls `addNote` for a non-empty title. `NoteStore.NoteViewModel.AddNote` itself accepts any title, as the source does.
- NoteApp/ContentView.swift and NoteApp/Views/EditNoteView.swift only forward to the view-model. They are not part of this model.
- NoteApp/Views/SettingsView.swift is not part of this model, except the "Delete All" action (`RemoveAll`). Left out are its text and JSON export, the share sheets, the `@AppStorage` settings and its statistics.
- Strings are sequences of Unicode scalar values. Swift compares and trims `Character`s (grapheme clusters), so a comma or space followed by a combining mark is treated differently there.
