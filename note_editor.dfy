/**
 * The editor component: the "last saved" text, the save-status indicators,
 * the save button, and the memory of the cursor position kept across a save.
 *
 * Times are milliseconds since the epoch, as JavaScript's `Date` subtraction
 * gives them; the current time is a parameter.
 */
module NoteEditor {
  import opened Prelude
  import opened Text

  // ---------------------------------------------------------------------
  // formatLastSaved
  // ---------------------------------------------------------------------

  /** JavaScript's `a % b` for a positive divisor: the remainder takes the sign of `a`. */
  function JsRem(a: int, b: int): (r: int)
    requires b > 0
    ensures a >= 0 ==> 0 <= r < b && r == a % b
    ensures a < 0 ==> -b < r <= 0
  {
    if a >= 0 then a % b else -((-a) % b)
  }

  /**
   * `JsRem` is JavaScript's `%` for every dividend, negative ones included:
   * `a - b * q` with `q` the quotient `a / b` truncated toward zero.
   */
  lemma JsRemTruncates(a: int, b: int)
    requires b > 0
    ensures a - JsRem(a, b) == b * (if a >= 0 then a / b else -((-a) / b))
  {
    if a < 0 {
      var n := -a;
      assert n == b * (n / b) + n % b;
      assert b * -(n / b) == -(b * (n / b));
    }
  }

  /** `Math.floor(diff / 60000)`; for a positive divisor Dafny's `/` already rounds down. */
  function ElapsedMinutes(diff: int): int
  {
    diff / 60000
  }

  /** `Math.floor((diff % 60000) / 1000)`. */
  function ElapsedSeconds(diff: int): int
  {
    JsRem(diff, 60000) / 1000
  }

  /** `formatLastSaved(date)` at time `now`: empty without a date, else whole minutes or seconds ago. */
  function FormatLastSaved(lastSaved: Option<int>, now: int): (r: string)
    ensures lastSaved.None? ==> r == ""
  {
    match lastSaved
    case None => ""
    case Some(date) =>
      var diff := now - date;
      var minutes := ElapsedMinutes(diff);
      if minutes > 0 then IntToString(minutes) + "m ago" else IntToString(ElapsedSeconds(diff)) + "s ago"
  }

  /**
   * For a non-negative elapsed time, the minutes and seconds are its whole
   * minutes and the whole seconds of the rest: `seconds` lies in 0..59 and
   * together they are the elapsed time rounded down to a second.
   */
  lemma ElapsedSplit(diff: int)
    requires diff >= 0
    ensures 0 <= ElapsedSeconds(diff) < 60
    ensures ElapsedMinutes(diff) >= 0
    ensures ElapsedMinutes(diff) * 60000 + ElapsedSeconds(diff) * 1000 <= diff
    ensures diff < ElapsedMinutes(diff) * 60000 + ElapsedSeconds(diff) * 1000 + 1000
  {
    var m, rest := diff / 60000, diff % 60000;
    assert diff == m * 60000 + rest;
    var s := rest / 1000;
    assert rest == s * 1000 + rest % 1000;
  }

  /**
   * The text reads "<minutes>m ago" exactly when at least a minute has passed,
   * and otherwise "<seconds>s ago" with the seconds rounded down.
   */
  lemma FormatLastSavedCases(date: int, now: int)
    requires now >= date
    ensures now - date >= 60000 ==>
      FormatLastSaved(Some(date), now) == NatToString((now - date) / 60000) + "m ago"
    ensures now - date < 60000 ==>
      FormatLastSaved(Some(date), now) == NatToString((now - date) / 1000) + "s ago"
  {
    ElapsedSplit(now - date);
  }

  // ---------------------------------------------------------------------
  // Save status indicators and save button
  // ---------------------------------------------------------------------

  /** The "Saving..." indicator: status shown and a save running. */
  predicate ShowsSaving(showSaveStatus: bool, saving: bool)
  {
    showSaveStatus && saving
  }

  /** The "Unsaved changes" indicator. */
  predicate ShowsUnsaved(showSaveStatus: bool, saving: bool, hasUnsavedChanges: bool)
  {
    showSaveStatus && !saving && hasUnsavedChanges
  }

  /** The "Saved <time>" indicator, only when a last-saved time is known. */
  predicate ShowsSaved(showSaveStatus: bool, saving: bool, hasUnsavedChanges: bool, lastSaved: Option<int>)
  {
    showSaveStatus && !saving && !hasUnsavedChanges && lastSaved.Some?
  }

  /** The three indicators as one choice. */
  datatype Indicator = Saving | Unsaved | Saved(text: string)

  /**
   * The indicator shown, if any: at most one, with priority saving, then
   * unsaved, then saved; none when the status is hidden.
   */
  function StatusIndicator(showSaveStatus: bool, saving: bool, hasUnsavedChanges: bool,
                           lastSaved: Option<int>, now: int): (r: Option<Indicator>)
    ensures r == Some(Saving) <==> ShowsSaving(showSaveStatus, saving)
    ensures r == Some(Unsaved) <==> ShowsUnsaved(showSaveStatus, saving, hasUnsavedChanges)
    ensures r.Some? && r.value.Saved? <==> ShowsSaved(showSaveStatus, saving, hasUnsavedChanges, lastSaved)
    ensures r.Some? && r.value.Saved? ==> r.value.text == "✓ Saved " + FormatLastSaved(lastSaved, now)
    ensures !showSaveStatus ==> r == None
  {
    if !showSaveStatus then None
    else if saving then Some(Saving)
    else if hasUnsavedChanges then Some(Unsaved)
    else if lastSaved.Some? then Some(Saved("✓ Saved " + FormatLastSaved(lastSaved, now)))
    else None
  }

  /**
   * `saving || !title.trim() || !content.trim()`: the button is disabled
   * exactly while a save runs or while either field is whitespace only.
   */
  predicate SaveDisabled(saving: bool, title: string, content: string): (disabled: bool)
    ensures disabled <==> saving || AllSatisfy(IsJsSpace, title) || AllSatisfy(IsJsSpace, content)
  {
    saving || IsBlank(IsJsSpace, title) || IsBlank(IsJsSpace, content)
  }

  /** The save button's label. */
  function SaveLabel(saving: bool): (caption: string)
    ensures caption == "Saving..." <==> saving
  {
    if saving then "Saving..." else "Save Note"
  }

  // ---------------------------------------------------------------------
  // Cursor memory across a save
  // ---------------------------------------------------------------------

  /** The two fields whose cursor is remembered. */
  datatype Field = TextArea | TitleInput

  /** Where the document's focus is, with that field's `selectionStart`. */
  datatype Focus = InTextArea(selectionStart: nat) | InTitle(selectionStart: nat) | Elsewhere

  /** `cursorPositionRef` and `lastActiveElementRef`. */
  class CursorMemory {
    var cursorPosition: Option<nat>
    var lastActiveElement: Option<Field>

    constructor ()
      ensures cursorPosition == None && lastActiveElement == None
    {
      cursorPosition := None;
      lastActiveElement := None;
    }

    /** `storeCursorPosition()`: remembers the focused field's cursor; with the focus elsewhere, nothing changes. */
    method Store(focus: Focus)
      modifies this
      ensures focus.InTextArea? ==> cursorPosition == Some(focus.selectionStart) && lastActiveElement == Some(TextArea)
      ensures focus.InTitle? ==> cursorPosition == Some(focus.selectionStart) && lastActiveElement == Some(TitleInput)
      ensures focus.Elsewhere? ==> cursorPosition == old(cursorPosition) && lastActiveElement == old(lastActiveElement)
    {
      match focus {
        case InTextArea(pos) =>
          cursorPosition := Some(pos);
          lastActiveElement := Some(TextArea);
        case InTitle(pos) =>
          cursorPosition := Some(pos);
          lastActiveElement := Some(TitleInput);
        case Elsewhere =>
      }
    }

    /**
     * The restoring effect: when both refs are set, focuses the remembered
     * field at the remembered position and clears both refs; otherwise does
     * nothing.
     */
    method Restore() returns (restored: Option<(Field, nat)>)
      modifies this
      ensures old(cursorPosition).Some? && old(lastActiveElement).Some? ==>
        && restored == Some((old(lastActiveElement).value, old(cursorPosition).value))
        && cursorPosition == None && lastActiveElement == None
      ensures !(old(cursorPosition).Some? && old(lastActiveElement).Some?) ==>
        && restored == None
        && cursorPosition == old(cursorPosition) && lastActiveElement == old(lastActiveElement)
    {
      if cursorPosition.Some? && lastActiveElement.Some? {
        restored := Some((lastActiveElement.value, cursorPosition.value));
        cursorPosition := None;
        lastActiveElement := None;
      } else {
        restored := None;
      }
    }

    /**
     * Both effects keyed on `saving`, in their order of declaration: restoring
     * when `saving` is false, then storing when it is true.
     */
    method SavingChanged(saving: bool, focus: Focus) returns (restored: Option<(Field, nat)>)
      modifies this
      ensures saving ==> restored == None
      ensures saving && focus.InTextArea? ==>
        cursorPosition == Some(focus.selectionStart) && lastActiveElement == Some(TextArea)
      ensures saving && focus.InTitle? ==>
        cursorPosition == Some(focus.selectionStart) && lastActiveElement == Some(TitleInput)
      ensures saving && focus.Elsewhere? ==>
        cursorPosition == old(cursorPosition) && lastActiveElement == old(lastActiveElement)
      ensures !saving && old(cursorPosition).Some? && old(lastActiveElement).Some? ==>
        restored == Some((old(lastActiveElement).value, old(cursorPosition).value))
      ensures !saving && old(cursorPosition).Some? && old(lastActiveElement).Some? ==>
        cursorPosition == None && lastActiveElement == None
      ensures !saving && !(old(cursorPosition).Some? && old(lastActiveElement).Some?) ==>
        && restored == None
        && cursorPosition == old(cursorPosition) && lastActiveElement == old(lastActiveElement)
      ensures !saving ==>
        restored.Some? || (cursorPosition == old(cursorPosition) && lastActiveElement == old(lastActiveElement))
    {
      restored := None;
      if !saving {
        restored := Restore();
      }
      if saving {
        Store(focus);
      }
    }
  }

  /** A save that starts with the focus in a field and ends puts the cursor back where it was. */
  method CursorSurvivesSave(focus: Focus) returns (restored: Option<(Field, nat)>)
    requires !focus.Elsewhere?
    ensures restored == Some((if focus.InTextArea? then TextArea else TitleInput, focus.selectionStart))
  {
    var memory := new CursorMemory();
    var none := memory.SavingChanged(true, focus);
    restored := memory.SavingChanged(false, Elsewhere);
  }
}
