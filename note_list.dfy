/**
 * The sidebar list of saved notes: loading the listing, the size column,
 * the selected marker, and opening a note by clicking it.
 */
module NoteList {
  import opened Prelude
  import opened Text
  import opened S3Service

  // ---------------------------------------------------------------------
  // formatFileSize
  // ---------------------------------------------------------------------

  /**
   * `Math.round(b / d)` for an even divisor: the whole number nearest to
   * `b / d`, halves rounded up, so that `r - 1/2 <= b / d < r + 1/2`.
   */
  function RoundDiv(b: nat, d: nat): (r: nat)
    requires d > 0 && d % 2 == 0
    ensures 2 * r * d <= 2 * b + d < 2 * r * d + 2 * d
  {
    var r := (b + d / 2) / d;
    assert b + d / 2 == r * d + (b + d / 2) % d;
    r
  }

  /** The figure and unit `formatFileSize` prints. */
  datatype Size = Size(figure: nat, unit: string)

  /** Bytes below 1024, else kilobytes below 1024 * 1024 bytes, else megabytes, each rounded. */
  function SizeOf(bytes: nat): (s: Size)
    ensures s.unit == "B" <==> bytes < 1024
    ensures s.unit == "KB" <==> 1024 <= bytes < 1048576
    ensures s.unit == "MB" <==> 1048576 <= bytes
    ensures s.unit == "B" ==> s.figure == bytes
    ensures s.unit == "KB" ==> s.figure == RoundDiv(bytes, 1024)
    ensures s.unit == "MB" ==> s.figure == RoundDiv(bytes, 1048576)
  {
    if bytes < 1024 then Size(bytes, "B")
    else if bytes < 1048576 then Size(RoundDiv(bytes, 1024), "KB")
    else Size(RoundDiv(bytes, 1048576), "MB")
  }

  /** `formatFileSize(bytes)`: the figure in decimal, a space, the unit. */
  function FormatFileSize(bytes: nat): string
  {
    var s := SizeOf(bytes);
    NatToString(s.figure) + " " + s.unit
  }

  /**
   * In the kilobyte range the figure lies in 1..1024; with halves rounded
   * up, 1048575 bytes, just below a megabyte, reads as 1024 KB.
   */
  lemma KilobyteFigure(bytes: nat)
    requires 1024 <= bytes < 1048576
    ensures 1 <= SizeOf(bytes).figure <= 1024
    ensures bytes == 1048575 ==> FormatFileSize(bytes) == NatToString(1024) + " KB"
  {
    if bytes == 1048575 {
      assert 2 * 1048575 + 1024 < 2 * 1025 * 1024;
      assert 2 * 1023 * 1024 + 2048 <= 2 * 1048575 + 1024;
    }
  }

  /** The printed text starts with the figure, which reads back as the number computed. */
  lemma FileSizeReadsBack(bytes: nat)
    ensures var text := FormatFileSize(bytes);
      var digits := NatToString(SizeOf(bytes).figure);
      && text[..|digits|] == digits
      && DigitsValue(digits) == SizeOf(bytes).figure
      && text[|digits|..] in {" B", " KB", " MB"}
  {
    var digits := NatToString(SizeOf(bytes).figure);
    NatToStringRoundTrip(SizeOf(bytes).figure);
    assert FormatFileSize(bytes)[..|digits|] == digits;
    var tail := FormatFileSize(bytes)[|digits|..];
    assert tail == " " + SizeOf(bytes).unit;
    if bytes < 1024 {
      assert tail == " B";
    } else if bytes < 1048576 {
      assert tail == " KB";
    } else {
      assert tail == " MB";
    }
  }

  // ---------------------------------------------------------------------
  // Selected marker
  // ---------------------------------------------------------------------

  /** Whether each item carries the `selected` class, in list order. */
  function SelectedMarks(notes: seq<NoteEntry>, selectedNote: Option<string>): (marks: seq<bool>)
    ensures |marks| == |notes|
    ensures forall i :: 0 <= i < |notes| ==> (marks[i] <==> selectedNote == Some(notes[i].filename))
  {
    if notes == [] then []
    else SelectedMarks(notes[..|notes| - 1], selectedNote) + [selectedNote == Some(notes[|notes| - 1].filename)]
  }

  /** Filenames of a listing are distinct: it lists each store key once. */
  predicate DistinctFilenames(notes: seq<NoteEntry>)
  {
    forall i, j :: 0 <= i < j < |notes| ==> notes[i].filename != notes[j].filename
  }

  /** With distinct filenames, at most one item is marked selected, and none without a selection. */
  lemma AtMostOneMarked(notes: seq<NoteEntry>, selectedNote: Option<string>)
    requires DistinctFilenames(notes)
    ensures var marks := SelectedMarks(notes, selectedNote);
      && (forall i, j :: 0 <= i < |marks| && 0 <= j < |marks| && marks[i] && marks[j] ==> i == j)
      && (selectedNote == None ==> forall i :: 0 <= i < |marks| ==> !marks[i])
  {
  }

  // ---------------------------------------------------------------------
  // The panel's state
  // ---------------------------------------------------------------------

  /** What the list area shows. */
  datatype View = LoadingNotes | NoNotes | Items(notes: seq<NoteEntry>)

  /** The component's `notes`, `loading` and `error` state. */
  class NoteListPanel {
    var notes: seq<NoteEntry>
    var loading: bool
    var error: Option<string>

    constructor ()
      ensures notes == [] && !loading && error == None
    {
      notes := [];
      loading := false;
      error := None;
    }

    /** The list area: a loading message, the empty message, or the items. */
    function ListView(): (v: View)
      reads this
      ensures v == LoadingNotes <==> loading
      ensures v == NoNotes <==> !loading && notes == []
      ensures v.Items? ==> v.notes == notes && notes != []
    {
      if loading then LoadingNotes else if notes == [] then NoNotes else Items(notes)
    }

    /** The refresh button: disabled, and labelled "Loading...", exactly while loading. */
    function RefreshButton(): (button: (bool, string))
      reads this
      ensures button.0 <==> loading
      ensures button.1 == "Loading..." <==> loading
    {
      if loading then (true, "Loading...") else (false, "Refresh")
    }

    /** The start of `loadNotes`: loading, with the previous error cleared. */
    method BeginLoad()
      modifies this
      ensures loading && error == None && notes == old(notes)
    {
      loading := true;
      error := None;
    }

    /**
     * The end of `loadNotes`: the answer's `notes`, or none when it has no
     * `notes`; a failure's message as the error with the list kept; and
     * loading over in every case.
     */
    method FinishLoad(response: Result<Option<seq<NoteEntry>>, string>)
      modifies this
      ensures !loading
      ensures response.Ok? && response.value.Some? ==> notes == response.value.value && error == old(error)
      ensures response.Ok? && response.value.None? ==> notes == [] && error == old(error)
      ensures response.Err? ==> notes == old(notes) && error == Some(response.error)
    {
      match response {
        case Ok(listed) =>
          notes := if listed.Some? then listed.value else [];
        case Err(message) =>
          error := Some(message);
      }
      loading := false;
    }

    /** `loadNotes()` from start to end. */
    method LoadNotes(response: Result<Option<seq<NoteEntry>>, string>)
      modifies this
      ensures !loading
      ensures response.Ok? ==> error == None && notes == (if response.value.Some? then response.value.value else [])
      ensures response.Err? ==> notes == old(notes) && error == Some(response.error)
    {
      BeginLoad();
      FinishLoad(response);
    }

    /**
     * `handleNoteClick(note)` with `download` what the download would answer.
     * Clicking the selected note does nothing: no download, no selection and
     * the error kept. Otherwise the error is cleared and the note downloaded;
     * its data is handed on, or the error reads "Failed to load note: ...".
     */
    method HandleNoteClick(note: NoteEntry, selectedNote: Option<string>, download: Result<NoteContent, string>)
      returns (requested: bool, selected: Option<NoteContent>)
      modifies this
      ensures requested <==> selectedNote != Some(note.filename)
      ensures !requested ==> selected == None && error == old(error)
      ensures requested && download.Ok? ==> selected == Some(download.value) && error == None
      ensures requested && download.Err? ==>
        selected == None && error == Some("Failed to load note: " + download.error)
      ensures notes == old(notes) && loading == old(loading)
    {
      if selectedNote == Some(note.filename) {
        return false, None;
      }
      error := None;
      requested := true;
      match download {
        case Ok(data) =>
          selected := Some(data);
        case Err(message) =>
          selected := None;
          error := Some("Failed to load note: " + message);
      }
    }
  }

  /**
   * The listing the server answers shows every note once: the entries the
   * panel loads from a successful list call have distinct filenames when
   * the listed keys are distinct.
   */
  lemma EntriesDistinct(objs: seq<ListedObject>)
    requires forall i, j :: 0 <= i < j < |objs| ==> objs[i].key != objs[j].key
    ensures DistinctFilenames(Entries(objs))
    decreases |objs|
  {
    if objs != [] {
      var init := objs[..|objs| - 1];
      EntriesDistinct(init);
    }
  }
}
