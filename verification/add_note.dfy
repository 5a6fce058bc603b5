/**
 * The Save action of the new-note form (NoteApp/Views/AddNoteView.swift).
 *
 * The form holds a title, a content text, a category and the tags as one
 * comma-separated text. Save is disabled while both the title and the
 * content are empty; otherwise it hands the view-model a note request whose
 * title defaults to "Untitled" and whose tags are parsed from the text.
 */
module AddNoteForm {
  import opened Wrappers
  import opened Notes
  import opened TagText

  /** The form's `@State` fields; the category starts as `Other`. */
  datatype Form = Form(title: string, content: string, category: NoteCategory := Other, tags: string)

  /** What Save passes to `addNote(title:content:category:tags:)`. */
  datatype NewNoteRequest = NewNoteRequest(title: string, content: string, category: NoteCategory, tags: seq<string>)

  const Untitled: string := "Untitled"

  /** The title a new note is saved with: never empty, and the typed one whenever one was typed. */
  function SavedTitle(title: string): (r: string)
    ensures r != ""
    ensures title != "" ==> r == title
    ensures title == "" ==> r == Untitled
  {
    if title == "" then Untitled else title
  }

  /**
   * Pressing Save: nothing when the button is disabled, which is exactly
   * when title and content are both empty; otherwise a request carrying the
   * saved title ("Untitled" for an empty one), the content and category as entered, and the parsed
   * tags, each non-empty, comma-free and trimmed.
   */
  function Save(form: Form): (r: Option<NewNoteRequest>)
    ensures r.None? <==> form.title == "" && form.content == ""
    ensures r.Some? ==> r.value.title == SavedTitle(form.title)
    ensures r.Some? ==> r.value.title != "" && (form.title != "" ==> r.value.title == form.title)
    ensures r.Some? ==> r.value.content == form.content && r.value.category == form.category
    ensures r.Some? ==> AllClean(r.value.tags)
    ensures r.Some? ==> r.value.tags == NonEmpty(TrimAll(Fields(form.tags, ',')))
  {
    if form.title == "" && form.content == "" then None
    else Some(NewNoteRequest(SavedTitle(form.title), form.content, form.category, ParseNewTags(form.tags)))
  }
}
