/**
 * Comma-separated tag text, as the note editors read and write it
 * (NoteApp/Views/AddNoteView.swift:56, NoteApp/Views/DetailNoteView.swift:20,184).
 *
 * Reading splits the text on ',' the way Swift's `split(separator:)` does by
 * default (empty pieces are omitted) and trims every piece of the characters
 * in `CharacterSet.whitespaces`; writing joins the tags with ", ".
 */
module TagText {

  /** `CharacterSet.whitespaces`: the tab and the Unicode space separators (category Zs). */
  predicate IsWhitespace(c: char)
    ensures c == ' ' || c == '\t' ==> IsWhitespace(c)
    ensures c == '\n' || c == '\r' || c == ',' ==> !IsWhitespace(c)
  {
    || c == '\t' || c == ' ' || c == '\U{00A0}' || c == '\U{1680}'
    || ('\U{2000}' <= c <= '\U{200A}')
    || c == '\U{202F}' || c == '\U{205F}' || c == '\U{3000}'
  }

  predicate AllWhitespace(s: string)
  {
    forall i :: 0 <= i < |s| ==> IsWhitespace(s[i])
  }

  /** Neither end of `s` is a whitespace character. */
  predicate Trimmed(s: string)
  {
    s == [] || (!IsWhitespace(s[0]) && !IsWhitespace(s[|s| - 1]))
  }

  // ---------------------------------------------------------------------
  // Splitting

  /**
   * All the fields of `s` between separators, empty ones included: the
   * reference against which the splitting below is stated.
   */
  function Fields(s: string, sep: char): (r: seq<string>)
    ensures |r| >= 1
    ensures forall i :: 0 <= i < |r| ==> sep !in r[i]
  {
    if |s| == 0 then [""]
    else
      var rest := Fields(s[1..], sep);
      if s[0] == sep then [""] + rest
      else [[s[0]] + rest[0]] + rest[1..]
  }

  /** The strings of `xs` that are not empty, in order. */
  function NonEmpty(xs: seq<string>): (r: seq<string>)
    ensures |r| <= |xs|
    ensures forall i :: 0 <= i < |r| ==> r[i] != ""
  {
    if |xs| == 0 then []
    else (if xs[0] == "" then [] else [xs[0]]) + NonEmpty(xs[1..])
  }

  /** Scans `s`, extending the piece `current` until a separator; a piece is emitted only if it is not empty. */
  function SplitFrom(s: string, sep: char, current: string): seq<string>
  {
    if |s| == 0 then (if current == "" then [] else [current])
    else if s[0] == sep then (if current == "" then [] else [current]) + SplitFrom(s[1..], sep, "")
    else SplitFrom(s[1..], sep, current + [s[0]])
  }

  /**
   * `s.split(separator: sep)`: the maximal runs of `s` without `sep`, in
   * order, with empty runs omitted; that is, the non-empty fields of `s`.
   */
  function Split(s: string, sep: char): (r: seq<string>)
    ensures r == NonEmpty(Fields(s, sep))
    ensures forall i :: 0 <= i < |r| ==> r[i] != "" && sep !in r[i]
  {
    var fs := Fields(s, sep);
    SplitFromFields(s, sep, "");
    NonEmptyElements(fs);
    assert "" + fs[0] == fs[0];
    assert [fs[0]] + fs[1..] == fs;
    SplitFrom(s, sep, "")
  }

  // ---------------------------------------------------------------------
  // Trimming

  /** The number of whitespace characters `s` starts with. */
  function LeadingBlanks(s: string): (n: nat)
    ensures n <= |s|
    ensures forall i :: 0 <= i < n ==> IsWhitespace(s[i])
    ensures n < |s| ==> !IsWhitespace(s[n])
  {
    if |s| > 0 && IsWhitespace(s[0]) then
      var n := 1 + LeadingBlanks(s[1..]);
      assert forall i :: 1 <= i < n ==> s[i] == s[1..][i - 1];
      n
    else 0
  }

  /** The number of whitespace characters `s` ends with. */
  function TrailingBlanks(s: string): (n: nat)
    ensures n <= |s|
    ensures forall i :: |s| - n <= i < |s| ==> IsWhitespace(s[i])
    ensures n < |s| ==> !IsWhitespace(s[|s| - 1 - n])
  {
    if |s| > 0 && IsWhitespace(s[|s| - 1]) then
      var n := 1 + TrailingBlanks(s[..|s| - 1]);
      assert forall i :: |s| - n <= i < |s| - 1 ==> s[i] == s[..|s| - 1][i];
      n
    else 0
  }

  /**
   * `s.trimmingCharacters(in: .whitespaces)`: `s` without its leading and
   * trailing whitespace. The result has no whitespace at either end, is
   * empty exactly when `s` is all whitespace, and is `s` itself when `s` is
   * already trimmed.
   */
  function Trim(s: string): (r: string)
    ensures exists k :: 0 <= k <= |s| - |r| && s[k..k + |r|] == r && AllWhitespace(s[..k]) && AllWhitespace(s[k + |r|..])
    ensures Trimmed(r)
    ensures r == "" <==> AllWhitespace(s)
    ensures Trimmed(s) ==> r == s
  {
    var k := LeadingBlanks(s);
    var lead := s[k..];
    var r := lead[..|lead| - TrailingBlanks(lead)];
    assert r != "" ==> r[0] == s[k] && r[|r| - 1] == lead[|lead| - 1 - TrailingBlanks(lead)];
    assert k < |s| ==> lead[0] == s[k];
    assert r == "" ==> AllWhitespace(s) by {
      if r == "" {
        assert k == |s|;
      }
    }
    assert s[k..k + |r|] == r;
    assert AllWhitespace(s[..k]);
    assert AllWhitespace(s[k + |r|..]) by {
      assert s[k + |r|..] == lead[|r|..];
    }
    assert Trimmed(s) ==> r == s by {
      if Trimmed(s) && s != "" {
        assert k == 0 && lead == s;
      }
    }
    r
  }

  /** Every string of `xs` trimmed, in order. */
  function TrimAll(xs: seq<string>): (r: seq<string>)
    ensures |r| == |xs|
    ensures forall i :: 0 <= i < |r| ==> r[i] == Trim(xs[i])
  {
    if |xs| == 0 then []
    else
      var rest := TrimAll(xs[1..]);
      assert forall i :: 1 <= i <= |rest| ==> xs[i] == xs[1..][i - 1];
      [Trim(xs[0])] + rest
  }

  // ---------------------------------------------------------------------
  // Joining

  /** `parts.joined(separator: sep)`. */
  function Join(parts: seq<string>, sep: string): string
  {
    if |parts| == 0 then ""
    else if |parts| == 1 then parts[0]
    else parts[0] + sep + Join(parts[1..], sep)
  }

  // ---------------------------------------------------------------------
  // The two parsers and the writer of the editors

  /**
   * The tags of a new note (AddNoteView): the comma-separated pieces, trimmed,
   * with the pieces that trim to nothing dropped. Every tag is non-empty,
   * comma-free and trimmed, and the tags are the non-blank fields of the
   * text, trimmed, in the order they are written.
   */
  function ParseNewTags(text: string): (tags: seq<string>)
    ensures forall i :: 0 <= i < |tags| ==> tags[i] != "" && ',' !in tags[i] && Trimmed(tags[i])
    ensures tags == NonEmpty(TrimAll(Fields(text, ',')))
  {
    var edited := TrimAll(Split(text, ','));
    assert edited == ParseEditedTags(text);
    NonEmptyElements(edited);
    NonEmptyAfterTrim(Fields(text, ','));
    NonEmpty(edited)
  }

  /**
   * The tags written back by the note detail editor: the comma-separated
   * pieces, trimmed, WITHOUT dropping the pieces that trim to nothing.
   * The i-th tag is the i-th non-empty field of the text, trimmed, and
   * every tag is comma-free and trimmed.
   */
  function ParseEditedTags(text: string): (tags: seq<string>)
    ensures |tags| == |NonEmpty(Fields(text, ','))|
    ensures forall i :: 0 <= i < |tags| ==> tags[i] == Trim(NonEmpty(Fields(text, ','))[i])
    ensures forall i :: 0 <= i < |tags| ==> ',' !in tags[i] && Trimmed(tags[i])
  {
    var pieces := Split(text, ',');
    var tags := TrimAll(pieces);
    forall i | 0 <= i < |tags| ensures ',' !in tags[i] {
      TrimKeepsOut(pieces[i], ',');
    }
    tags
  }

  /** The text a tag list is shown as for editing: the tags joined with ", ". */
  function TagsText(tags: seq<string>): string
  {
    Join(tags, ", ")
  }

  /** A tag that survives being written and read back: non-empty, comma-free and trimmed. */
  predicate CleanTag(t: string)
  {
    t != "" && ',' !in t && Trimmed(t)
  }

  /** Every tag of the list is clean. */
  predicate AllClean(tags: seq<string>)
  {
    forall i :: 0 <= i < |tags| ==> CleanTag(tags[i])
  }

  // ---------------------------------------------------------------------
  // Lemmas

  /** Joining the fields of `s` with the separator gives `s` back. */
  lemma {:induction false} JoinFields(s: string, sep: char)
    ensures Join(Fields(s, sep), [sep]) == s
  {
    if |s| > 0 {
      var rest := Fields(s[1..], sep);
      JoinFields(s[1..], sep);
      if s[0] != sep {
        JoinConsFirst(s[0], rest, [sep]);
        assert [s[0]] + s[1..] == s;
      }
    }
  }

  /** Extending the first part of a join extends the joined string. */
  lemma JoinConsFirst(c: char, parts: seq<string>, sep: string)
    requires |parts| >= 1
    ensures Join([[c] + parts[0]] + parts[1..], sep) == [c] + Join(parts, sep)
  {
    var ps := [[c] + parts[0]] + parts[1..];
    assert ps[1..] == parts[1..];
  }

  /** `joined(separator:)` starts with the first part and ends with the last one. */
  lemma {:induction false} JoinEnds(parts: seq<string>, sep: string)
    requires |parts| >= 1
    ensures parts[0] <= Join(parts, sep)
    ensures |parts[|parts| - 1]| <= |Join(parts, sep)|
    ensures Join(parts, sep)[|Join(parts, sep)| - |parts[|parts| - 1]|..] == parts[|parts| - 1]
  {
    if |parts| > 1 {
      var last := parts[|parts| - 1];
      var head := parts[0] + sep;
      var rest := Join(parts[1..], sep);
      JoinEnds(parts[1..], sep);
      assert parts[1..][|parts| - 2] == last;
      assert Join(parts, sep) == head + rest;
      assert (head + rest)[|head + rest| - |last|..] == rest[|rest| - |last|..];
    }
  }

  lemma {:induction false} NonEmptyAppend(a: seq<string>, b: seq<string>)
    ensures NonEmpty(a + b) == NonEmpty(a) + NonEmpty(b)
  {
    if |a| > 0 {
      assert (a + b)[0] == a[0];
      assert (a + b)[1..] == a[1..] + b;
      NonEmptyAppend(a[1..], b);
    } else {
      assert a + b == b;
    }
  }

  /** The scan of `SplitFrom`, started with the piece `current`, emits the non-empty fields. */
  lemma {:induction false} SplitFromFields(s: string, sep: char, current: string)
    ensures var fs := Fields(s, sep);
            SplitFrom(s, sep, current) == NonEmpty([current + fs[0]] + fs[1..])
  {
    var fs := Fields(s, sep);
    if |s| == 0 {
      assert fs == [""];
      assert current + fs[0] == current;
      assert [current + fs[0]] + fs[1..] == [current];
    } else {
      var rest := Fields(s[1..], sep);
      if s[0] == sep {
        SplitFromFields(s[1..], sep, "");
        assert "" + rest[0] == rest[0];
        assert ["" + rest[0]] + rest[1..] == rest;
        assert fs == [""] + rest;
        assert current + fs[0] == current;
        assert [current + fs[0]] + fs[1..] == [current] + rest;
        NonEmptyAppend([current], rest);
      } else {
        SplitFromFields(s[1..], sep, current + [s[0]]);
        assert current + fs[0] == (current + [s[0]]) + rest[0];
        assert fs[1..] == rest[1..];
      }
    }
  }

  /** Trimming every string and dropping the empty results does not depend on dropping empty strings first. */
  lemma {:induction false} NonEmptyAfterTrim(xs: seq<string>)
    ensures NonEmpty(TrimAll(NonEmpty(xs))) == NonEmpty(TrimAll(xs))
  {
    if |xs| > 0 {
      var x, rest := xs[0], xs[1..];
      var head := if x == "" then [] else [x];
      calc {
        NonEmpty(TrimAll(NonEmpty(xs)));
        { assert NonEmpty(xs) == head + NonEmpty(rest); }
        NonEmpty(TrimAll(head + NonEmpty(rest)));
        { TrimAllAppend(head, NonEmpty(rest)); }
        NonEmpty(TrimAll(head) + TrimAll(NonEmpty(rest)));
        { NonEmptyAppend(TrimAll(head), TrimAll(NonEmpty(rest))); }
        NonEmpty(TrimAll(head)) + NonEmpty(TrimAll(NonEmpty(rest)));
        { NonEmptyAfterTrim(rest); }
        NonEmpty(TrimAll(head)) + NonEmpty(TrimAll(rest));
        { TrimmedHead(x); }
        NonEmpty([Trim(x)]) + NonEmpty(TrimAll(rest));
        { NonEmptyAppend([Trim(x)], TrimAll(rest)); }
        NonEmpty([Trim(x)] + TrimAll(rest));
        { assert TrimAll(xs) == [Trim(x)] + TrimAll(rest); }
        NonEmpty(TrimAll(xs));
      }
    }
  }

  lemma TrimmedHead(x: string)
    ensures NonEmpty(TrimAll(if x == "" then [] else [x])) == NonEmpty([Trim(x)])
  {
    if x == "" {
      assert Trim(x) == "";
      assert NonEmpty([Trim(x)]) == [] + NonEmpty([]);
    } else {
      assert TrimAll([x]) == [Trim(x)];
    }
  }

  /** Dropping the empty strings keeps only strings of the list. */
  lemma {:induction false} NonEmptyElements(xs: seq<string>)
    ensures forall i :: 0 <= i < |NonEmpty(xs)| ==> NonEmpty(xs)[i] in xs
  {
    if |xs| > 0 {
      NonEmptyElements(xs[1..]);
      var head := if xs[0] == "" then [] else [xs[0]];
      assert NonEmpty(xs) == head + NonEmpty(xs[1..]);
    }
  }

  lemma TrimAllAppend(a: seq<string>, b: seq<string>)
    ensures TrimAll(a + b) == TrimAll(a) + TrimAll(b)
  {
  }

  /** Trimming only removes characters: a character absent from `s` is absent from its trimmed form. */
  lemma TrimKeepsOut(s: string, c: char)
    requires c !in s
    ensures c !in Trim(s)
  {
    var k := LeadingBlanks(s);
    var r := Trim(s);
    forall i | 0 <= i < |r| ensures r[i] != c {
      assert r[i] == s[k + i];
    }
  }

  /** A separator-free run followed by the separator is the first field, and the rest are the fields of what follows. */
  lemma {:induction false} FieldsAfterSeparator(a: string, sep: char, b: string)
    requires sep !in a
    ensures Fields(a + [sep] + b, sep) == [a] + Fields(b, sep)
  {
    if |a| > 0 {
      FieldsAfterSeparator(a[1..], sep, b);
      assert (a + [sep] + b)[0] == a[0];
      assert (a + [sep] + b)[1..] == a[1..] + [sep] + b;
      assert [a[0]] + a[1..] == a;
    } else {
      assert a + [sep] + b == [sep] + b;
    }
  }

  /** Text without the separator is a single field. */
  lemma {:induction false} FieldsWithoutSeparator(a: string, sep: char)
    requires sep !in a
    ensures Fields(a, sep) == [a]
  {
    if |a| > 0 {
      FieldsWithoutSeparator(a[1..], sep);
      assert [a[0]] + a[1..] == a;
    }
  }

  /** The fields of joined comma-free tags: the first tag, then every later tag behind the space of ", ". */
  lemma {:induction false} FieldsOfTagsText(tags: seq<string>)
    requires |tags| >= 1
    requires forall i :: 0 <= i < |tags| ==> ',' !in tags[i]
    ensures Fields(TagsText(tags), ',') == [tags[0]] + seq(|tags| - 1, i requires 0 <= i < |tags| - 1 => " " + tags[i + 1])
    decreases |tags|
  {
    if |tags| == 1 {
      FieldsWithoutSeparator(tags[0], ',');
    } else {
      var next := [" " + tags[1]] + tags[2..];
      FieldsOfTagsText(next);
      assert next[1..] == tags[2..];
      assert Join(tags, ", ") == tags[0] + [','] + Join(next, ", ") by {
        JoinConsFirst(' ', tags[1..], ", ");
        assert [[' '] + tags[1..][0]] + tags[1..][1..] == next;
      }
      FieldsAfterSeparator(tags[0], ',', Join(next, ", "));
    }
  }

  /** Trimming a trimmed string behind one space gives the string. */
  lemma TrimAfterSpace(t: string)
    requires Trimmed(t)
    ensures Trim(" " + t) == t
  {
    assert (" " + t)[1..] == t;
    assert LeadingBlanks(" " + t) == 1 + LeadingBlanks(t);
    assert LeadingBlanks(t) == 0;
  }

  /**
   * Round trip of the detail editor: reading back the text of clean tags
   * gives the same tags, in the same order.
   */
  lemma EditedTagsRoundTrip(tags: seq<string>)
    requires AllClean(tags)
    ensures ParseEditedTags(TagsText(tags)) == tags
  {
    var parsed := ParseEditedTags(TagsText(tags));
    if |tags| == 0 {
      assert TagsText(tags) == "";
      assert Fields("", ',') == [""];
      assert NonEmpty([""]) == [];
    } else {
      var fs := CleanTagsFields(tags);
      assert |parsed| == |tags|;
      forall i | 0 <= i < |tags| ensures parsed[i] == tags[i] {
        assert parsed[i] == Trim(fs[i]);
        if i > 0 {
          TrimAfterSpace(tags[i]);
        }
      }
    }
  }

  /** The fields of the text of clean tags are all non-empty: the first tag, then each later one behind a space. */
  lemma CleanTagsFields(tags: seq<string>) returns (fs: seq<string>)
    requires |tags| >= 1
    requires AllClean(tags)
    ensures fs == Fields(TagsText(tags), ',') && NonEmpty(fs) == fs && |fs| == |tags|
    ensures fs[0] == tags[0] && forall i :: 0 < i < |tags| ==> fs[i] == " " + tags[i]
  {
    FieldsOfTagsText(tags);
    fs := Fields(TagsText(tags), ',');
    assert forall i :: 0 <= i < |fs| ==> fs[i] != "";
    NonEmptyAll(fs);
  }

  /** The same round trip for the new-note editor. */
  lemma NewTagsRoundTrip(tags: seq<string>)
    requires AllClean(tags)
    ensures ParseNewTags(TagsText(tags)) == tags
  {
    EditedTagsRoundTrip(tags);
    NonEmptyAll(tags);
  }

  lemma {:induction false} NonEmptyAll(xs: seq<string>)
    requires forall i :: 0 <= i < |xs| ==> xs[i] != ""
    ensures NonEmpty(xs) == xs
  {
    if |xs| > 0 {
      NonEmptyAll(xs[1..]);
      assert [xs[0]] + xs[1..] == xs;
    }
  }

  /** Text of only commas and whitespace holds no tag for a new note. */
  lemma BlankTextHasNoTags(text: string)
    requires forall i :: 0 <= i < |text| ==> text[i] == ',' || IsWhitespace(text[i])
    ensures ParseNewTags(text) == []
  {
    var fs := Fields(text, ',');
    BlankFields(text);
    var trimmed := TrimAll(fs);
    forall i | 0 <= i < |trimmed| ensures trimmed[i] == "" {
      assert AllWhitespace(fs[i]);
    }
    NonEmptyOfEmpties(trimmed);
  }

  /** Every field of text made of separators and whitespace is whitespace. */
  lemma {:induction false} BlankFields(s: string)
    requires forall i :: 0 <= i < |s| ==> s[i] == ',' || IsWhitespace(s[i])
    ensures forall i :: 0 <= i < |Fields(s, ',')| ==> AllWhitespace(Fields(s, ',')[i])
  {
    if |s| > 0 {
      BlankFields(s[1..]);
    }
  }

  lemma {:induction false} NonEmptyOfEmpties(xs: seq<string>)
    requires forall i :: 0 <= i < |xs| ==> xs[i] == ""
    ensures NonEmpty(xs) == []
  {
    if |xs| > 0 {
      NonEmptyOfEmpties(xs[1..]);
    }
  }

  /**
   * Between two clean tags, a piece that is only whitespace is kept by the
   * detail editor as an empty tag ("a, ,b" reads as "a", "", "b"), and
   * dropped by the new-note editor.
   */
  lemma BlankPieceKeptOnlyWhenEditing(a: string, w: string, b: string)
    requires CleanTag(a) && CleanTag(b) && w != "" && AllWhitespace(w)
    ensures ParseEditedTags(a + [','] + w + [','] + b) == [a, "", b]
    ensures ParseNewTags(a + [','] + w + [','] + b) == [a, b]
  {
    var text := a + [','] + w + [','] + b;
    var fs := ThreeFields(a, w, b);
    assert fs == Fields(text, ',');
    BlankPieceEdited(text, a, w, b);
    BlankPieceDropped(text, a, w, b);
  }

  lemma BlankPieceEdited(text: string, a: string, w: string, b: string)
    requires CleanTag(a) && CleanTag(b) && w != "" && AllWhitespace(w)
    requires Fields(text, ',') == [a, w, b]
    ensures ParseEditedTags(text) == [a, "", b]
  {
    var fs := Fields(text, ',');
    assert fs[0] != "" && fs[1] != "" && fs[2] != "";
    EditedTagsOfFullFields(text);
    ThreeTrimmed(a, w, b);
    calc {
      ParseEditedTags(text);
      TrimAll(fs);
      TrimAll([a, w, b]);
      [a, "", b];
    }
  }

  lemma BlankPieceDropped(text: string, a: string, w: string, b: string)
    requires CleanTag(a) && CleanTag(b) && w != "" && AllWhitespace(w)
    requires Fields(text, ',') == [a, w, b]
    ensures ParseNewTags(text) == [a, b]
  {
    ThreeTrimmed(a, w, b);
    assert ParseNewTags(text) == NonEmpty([a, "", b]);
    calc {
      NonEmpty([a, "", b]);
      { assert [a, "", b][1..] == ["", b]; }
      [a] + NonEmpty(["", b]);
      { assert ["", b][1..] == [b]; }
      [a] + ([] + NonEmpty([b]));
      { NonEmptyAll([b]); }
      [a, b];
    }
  }

  /** Trimming two clean tags around a blank piece. */
  lemma ThreeTrimmed(a: string, w: string, b: string)
    requires CleanTag(a) && CleanTag(b) && AllWhitespace(w)
    ensures TrimAll([a, w, b]) == [a, "", b]
  {
    var t := TrimAll([a, w, b]);
    assert t[0] == Trim(a) == a;
    assert t[1] == Trim(w) == "";
    assert t[2] == Trim(b) == b;
  }

  /** When no field of the text is empty, the detail editor's tags are all its fields, trimmed. */
  lemma EditedTagsOfFullFields(text: string)
    requires forall i :: 0 <= i < |Fields(text, ',')| ==> Fields(text, ',')[i] != ""
    ensures ParseEditedTags(text) == TrimAll(Fields(text, ','))
  {
    NonEmptyAll(Fields(text, ','));
  }

  /** The fields of "a,w,b" for comma-free, non-empty `a`, `w` and `b`. */
  lemma ThreeFields(a: string, w: string, b: string) returns (fs: seq<string>)
    requires CleanTag(a) && CleanTag(b) && w != "" && AllWhitespace(w)
    ensures fs == Fields(a + [','] + w + [','] + b, ',') && fs == [a, w, b]
  {
    assert ',' !in w by {
      forall i | 0 <= i < |w| ensures w[i] != ',' {
        assert IsWhitespace(w[i]);
      }
    }
    FieldsWithoutSeparator(b, ',');
    FieldsAfterSeparator(w, ',', b);
    assert a + [','] + w + [','] + b == a + [','] + (w + [','] + b);
    FieldsAfterSeparator(a, ',', w + [','] + b);
    fs := Fields(a + [','] + w + [','] + b, ',');
  }
}
