/**
 * The note entity and its category taxonomy (NoteApp/Note.swift).
 *
 * `NoteCategory` is a closed enumeration whose string raw values are the
 * labels used when a note is encoded; `Note` is a value with an immutable
 * identifier and a mutable title and category.
 */
module Notes {
  import opened Wrappers

  /** The four categories, in declaration order. */
  datatype NoteCategory = Personal | Work | Study | Other

  /** The display colours a category maps to. */
  datatype Color = Green | Blue | Orange | Gray

  /**
   * A note identifier. The source draws a fresh UUID for every new note;
   * the model only needs identifiers that can be compared for equality.
   */
  type NoteId = nat

  /** A note. The category defaults to `Other` when the initializer is not given one. */
  datatype Note = Note(id: NoteId, title: string, category: NoteCategory := Other)

  /** The raw value of a category: the case's own name. */
  function RawValue(c: NoteCategory): (r: string)
    ensures |r| > 0
    ensures r in {"Personal", "Work", "Study", "Other"}
    ensures forall i :: 0 <= i < 4 && AllCases()[i] == c ==> r == ["Personal", "Work", "Study", "Other"][i]
  {
    match c
    case Personal => "Personal"
    case Work => "Work"
    case Study => "Study"
    case Other => "Other"
  }

  /**
   * `NoteCategory(rawValue:)`: the category whose raw value is `s`, and no
   * category for any other label.
   */
  function FromRawValue(s: string): (r: Option<NoteCategory>)
    ensures forall c :: r == Some(c) <==> RawValue(c) == s
    ensures r.None? <==> s !in {"Personal", "Work", "Study", "Other"}
  {
    if s == "Personal" then Some(Personal)
    else if s == "Work" then Some(Work)
    else if s == "Study" then Some(Study)
    else if s == "Other" then Some(Other)
    else None
  }

  /** Decoding a category's raw value gives the category back, and distinct categories have distinct raw values. */
  lemma RawValueRoundTrip(c: NoteCategory, d: NoteCategory)
    ensures FromRawValue(RawValue(c)) == Some(c)
    ensures RawValue(c) == RawValue(d) ==> c == d
  {
  }

  /** `NoteCategory.allCases`: every category exactly once, in declaration order. */
  function AllCases(): (r: seq<NoteCategory>)
    ensures |r| == 4
    ensures r[0] == Personal && r[1] == Work && r[2] == Study && r[3] == Other
    ensures forall i, j :: 0 <= i < j < |r| ==> r[i] != r[j]
  {
    [Personal, Work, Study, Other]
  }

  /** Every category is listed by `allCases`. */
  lemma AllCasesComplete(c: NoteCategory)
    ensures c in AllCases()
  {
    match c
    case Personal =>
    case Work =>
    case Study =>
    case Other =>
  }

  /** The display colour of a category: green, blue, orange and gray for the categories in declaration order. */
  function CategoryColor(c: NoteCategory): (r: Color)
    ensures forall i :: 0 <= i < 4 && AllCases()[i] == c ==> r == [Green, Blue, Orange, Gray][i]
  {
    match c
    case Personal => Green
    case Work => Blue
    case Study => Orange
    case Other => Gray
  }

  /** Every category has a colour of its own: the mapping is injective. */
  lemma CategoryColorInjective(c: NoteCategory, d: NoteCategory)
    ensures CategoryColor(c) == CategoryColor(d) ==> c == d
  {
  }

  /** A note built without a category is in `Other`, and the initializer stores the id and title unchanged. */
  lemma NewNoteDefaults(id: NoteId, title: string)
    ensures Note(id, title).category == Other
    ensures Note(id, title).id == id && Note(id, title).title == title
  {
  }
}
