/**
 * The top-level page: the editing session (title, body, save in progress,
 * notification, selected note, connection status), the save handler, note
 * selection, "New Note", and the choice of screen by the health check.
 *
 * A save is modelled in two steps, `BeginSave` and `FinishSave`, with the
 * upload's outcome in between, so that the interval in which `saving` is
 * true is a visible state.
 */
module App {
  import opened Prelude
  import opened Text
  import opened NoteEditor
  import NoteKeys
  import S3Service
  import Api

  /** A notification's `type`. */
  datatype Kind = Success | Error

  /** `{ message, type }`. */
  datatype Notification = Notification(message: string, kind: Kind)

  /** `apiStatus`. */
  datatype ApiStatus = ApiStatus(connected: bool, checking: bool)

  /** What the page renders. */
  datatype Screen = Connecting | CannotConnect | Editor

  /** The arguments `uploadNote(title, content)` is called with. */
  datatype UploadRequest = UploadRequest(title: string, content: string)

  const BlankMessage := "Please provide both title and content"

  /** The connecting screen while the check runs, then the editor or the retry screen by its outcome. */
  function ScreenFor(status: ApiStatus): (screen: Screen)
    ensures screen == Connecting <==> status.checking
    ensures screen == Editor <==> !status.checking && status.connected
    ensures screen == CannotConnect <==> !status.checking && !status.connected
  {
    if status.checking then Connecting
    else if !status.connected then CannotConnect
    else Editor
  }

  /** The session state of the page. */
  class Session {
    var title: string
    var content: string
    var saving: bool
    var notification: Option<Notification>
    var selectedNote: Option<string>
    var apiStatus: ApiStatus
    /** Every notification shown so far, oldest first. */
    ghost var shown: seq<Notification>

    constructor ()
      ensures title == "" && content == "" && !saving
      ensures notification == None && selectedNote == None
      ensures apiStatus == ApiStatus(false, true) && ScreenFor(apiStatus) == Connecting
      ensures shown == []
    {
      title := "";
      content := "";
      saving := false;
      notification := None;
      selectedNote := None;
      apiStatus := ApiStatus(false, true);
      shown := [];
    }

    /** What the page shows. */
    function Screen(): (screen: Screen)
      reads this
      ensures screen == Editor ==> !apiStatus.checking && apiStatus.connected
    {
      ScreenFor(apiStatus)
    }

    /**
     * The editor's status indicator: the page passes no `showSaveStatus`,
     * `hasUnsavedChanges` or `lastSaved`, so none is ever shown.
     */
    function EditorIndicator(): (indicator: Option<Indicator>)
      reads this
      ensures indicator == None
    {
      StatusIndicator(false, saving, false, None, 0)
    }

    /** Whether the editor's save button is disabled. */
    function SaveButtonDisabled(): (disabled: bool)
      reads this
      ensures !disabled ==> !saving && !IsBlank(IsJsSpace, title) && !IsBlank(IsJsSpace, content)
    {
      SaveDisabled(saving, title, content)
    }

    /** `checkApiHealth()`, at start-up and on "Retry Connection": the check finished, reachable or not. */
    method HealthChecked(reachable: bool)
      modifies this
      ensures apiStatus == ApiStatus(reachable, false)
      ensures Screen() == (if reachable then Editor else CannotConnect)
      ensures title == old(title) && content == old(content) && saving == old(saving)
      ensures notification == old(notification) && selectedNote == old(selectedNote) && shown == old(shown)
    {
      apiStatus := ApiStatus(reachable, false);
    }

    /** `onTitleChange`: the title input's new value. */
    method SetTitle(value: string)
      modifies this
      ensures title == value
      ensures content == old(content) && saving == old(saving) && apiStatus == old(apiStatus)
      ensures notification == old(notification) && selectedNote == old(selectedNote) && shown == old(shown)
    {
      title := value;
    }

    /** `onContentChange`: the text area's new value. */
    method SetContent(value: string)
      modifies this
      ensures content == value
      ensures title == old(title) && saving == old(saving) && apiStatus == old(apiStatus)
      ensures notification == old(notification) && selectedNote == old(selectedNote) && shown == old(shown)
    {
      content := value;
    }

    /** `showNotification(message, type)`: the notification is replaced. */
    method Notify(message: string, kind: Kind)
      modifies this
      ensures notification == Some(Notification(message, kind))
      ensures shown == old(shown) + [Notification(message, kind)]
      ensures title == old(title) && content == old(content) && saving == old(saving)
      ensures selectedNote == old(selectedNote) && apiStatus == old(apiStatus)
    {
      notification := Some(Notification(message, kind));
      shown := shown + [Notification(message, kind)];
    }

    /**
     * The part of `handleSave` before the upload. A title or body that is
     * whitespace only gives an error notification and no upload, and `saving`
     * is left as it was. Otherwise `saving` becomes true and the upload is
     * asked for with the trimmed title and the body as typed. Whether a save
     * is already running is not checked.
     */
    method BeginSave() returns (request: Option<UploadRequest>)
      modifies this
      ensures request.Some? <==> !IsBlank(IsJsSpace, old(title)) && !IsBlank(IsJsSpace, old(content))
      ensures request.None? ==>
        && notification == Some(Notification(BlankMessage, Error))
        && shown == old(shown) + [Notification(BlankMessage, Error)]
        && saving == old(saving)
      ensures request.Some? ==>
        && request.value == UploadRequest(Trim(IsJsSpace, old(title)), old(content))
        && saving
        && notification == old(notification) && shown == old(shown)
      ensures title == old(title) && content == old(content)
      ensures selectedNote == old(selectedNote) && apiStatus == old(apiStatus)
    {
      var t, c := title, content;
      if IsBlank(IsJsSpace, t) || IsBlank(IsJsSpace, c) {
        Notify(BlankMessage, Error);
        request := None;
      } else {
        saving := true;
        request := Some(UploadRequest(Trim(IsJsSpace, t), c));
      }
    }

    /**
     * The part of `handleSave` after the upload: the upload's filename, or
     * the message it failed with. Success selects the saved note; either way
     * one notification is shown and `saving` ends false, while the title and
     * body are untouched.
     */
    method FinishSave(outcome: Result<string, string>)
      modifies this
      ensures outcome.Ok? ==>
        && notification == Some(Notification("Note saved successfully: " + outcome.value, Success))
        && selectedNote == Some(outcome.value)
      ensures outcome.Err? ==>
        && notification == Some(Notification("Save failed: " + outcome.error, Error))
        && selectedNote == old(selectedNote)
      ensures shown == old(shown) + [notification.value]
      ensures !saving
      ensures title == old(title) && content == old(content) && apiStatus == old(apiStatus)
    {
      match outcome {
        case Ok(filename) =>
          Notify("Note saved successfully: " + filename, Success);
          selectedNote := Some(filename);
        case Err(message) =>
          Notify("Save failed: " + message, Error);
      }
      saving := false;
    }

    /**
     * `handleSave` from start to end, with `outcome` what the upload would
     * answer: exactly one notification, `saving` false after an upload and
     * untouched after a refusal, and the title and body unchanged.
     */
    method HandleSave(outcome: Result<string, string>) returns (request: Option<UploadRequest>)
      modifies this
      ensures |shown| == |old(shown)| + 1 && shown[..|old(shown)|] == old(shown)
      ensures notification == Some(shown[|shown| - 1])
      ensures request.Some? <==> !IsBlank(IsJsSpace, old(title)) && !IsBlank(IsJsSpace, old(content))
      ensures request.Some? ==> request.value == UploadRequest(Trim(IsJsSpace, old(title)), old(content)) && !saving
      ensures request.None? ==> notification == Some(Notification(BlankMessage, Error)) && saving == old(saving)
      ensures request.Some? && outcome.Ok? ==> selectedNote == Some(outcome.value)
      ensures request.None? || outcome.Err? ==> selectedNote == old(selectedNote)
      ensures title == old(title) && content == old(content) && apiStatus == old(apiStatus)
    {
      request := BeginSave();
      if request.Some? {
        FinishSave(outcome);
      }
    }

    /** `handleNoteSelect`: the downloaded note replaces the title, body and selection. */
    method NoteSelect(data: S3Service.NoteContent)
      modifies this
      ensures title == data.title && content == data.content && selectedNote == Some(data.filename)
      ensures saving == old(saving) && apiStatus == old(apiStatus)
      ensures notification == old(notification) && shown == old(shown)
    {
      title := data.title;
      content := data.content;
      selectedNote := Some(data.filename);
    }

    /** `handleNewNote`: an empty title and body and no selection. */
    method NewNote()
      modifies this
      ensures title == "" && content == "" && selectedNote == None
      ensures IsBlank(IsJsSpace, title) && SaveButtonDisabled()
      ensures saving == old(saving) && apiStatus == old(apiStatus)
      ensures notification == old(notification) && shown == old(shown)
    {
      title := "";
      content := "";
      selectedNote := None;
    }
  }

  /**
   * When the save button is enabled, pressing it starts an upload; it never
   * meets the blank-field refusal.
   */
  method PressEnabledSave(session: Session) returns (request: Option<UploadRequest>)
    requires !session.SaveButtonDisabled()
    modifies session
    ensures request.Some? && session.saving
    ensures session.shown == old(session.shown)
  {
    request := session.BeginSave();
  }

  /**
   * `handleSave` has no guard of its own: a second save started before the
   * first one finished issues a second upload. Only the disabled button
   * keeps a user from doing so.
   */
  method SaveTwiceWhileSaving(title: string, content: string)
    returns (first: Option<UploadRequest>, second: Option<UploadRequest>)
    requires !IsBlank(IsJsSpace, title) && !IsBlank(IsJsSpace, content)
    ensures first.Some? && second.Some? && first == second
  {
    var session := new Session();
    session.SetTitle(title);
    session.SetContent(content);
    first := session.BeginSave();
    second := session.BeginSave();
  }

  /**
   * A connection that fails at start-up and succeeds on retry reaches the
   * editor, with the session otherwise as it started.
   */
  method ConnectAfterRetry() returns (session: Session)
    ensures session.Screen() == Editor
    ensures session.title == "" && session.content == "" && session.selectedNote == None
  {
    session := new Session();
    session.HealthChecked(false);
    assert session.Screen() == CannotConnect;
    session.HealthChecked(true);
  }

  // ---------------------------------------------------------------------
  // The page against the server
  // ---------------------------------------------------------------------

  /**
   * What `noteAPI.uploadNote` resolves to or throws: the filename of a 200
   * answer, or the error's `detail`, with a fixed text when the detail is empty.
   */
  function UploadOutcome(response: Api.Response): (outcome: Result<string, string>)
    ensures response.UploadOk? ==> outcome == Ok(response.filename)
    ensures outcome.Err? ==> outcome.error != []
    ensures response.HttpError? && response.detail != [] ==> outcome == Err(response.detail)
  {
    match response
    case UploadOk(_, filename) => Ok(filename)
    case HttpError(_, detail) => Err(if detail == [] then "Failed to upload note" else detail)
    case _ => Err("Failed to upload note")
  }

  /**
   * A save from the page against a configured server whose store is `store`.
   * When the write goes through, the note the page then selects is in the
   * new store under that key, holding the body exactly as typed.
   */
  method SaveToServer(session: Session, isWord: char -> bool, store: S3Service.Store, dateFolder: string,
                      now: string, fault: Option<S3Service.StoreError>)
    returns (newStore: S3Service.Store)
    requires NoteKeys.WordClassOk(isWord)
    modifies session
    ensures |session.shown| == |old(session.shown)| + 1
    ensures session.saving ==>
      old(session.saving) && (IsBlank(IsJsSpace, old(session.title)) || IsBlank(IsJsSpace, old(session.content)))
    ensures session.title == old(session.title) && session.content == old(session.content)
    ensures (IsBlank(IsJsSpace, old(session.title)) || IsBlank(IsJsSpace, old(session.content))) ==> newStore == store
    ensures
      && !IsBlank(IsJsSpace, old(session.title)) && !IsBlank(IsJsSpace, old(session.content))
      && !IsBlank(IsPySpace, Trim(IsJsSpace, old(session.title))) && !IsBlank(IsPySpace, old(session.content))
      && fault.None?
      ==>
      && session.selectedNote.Some?
      && session.selectedNote.value in newStore
      && newStore[session.selectedNote.value].body == old(session.content)
      && session.notification == Some(Notification("Note saved successfully: " + session.selectedNote.value, Success))
  {
    var request := session.BeginSave();
    newStore := store;
    if request.Some? {
      var h := Api.UploadEndpoint(true, isWord, store, dateFolder, now, request.value.title, request.value.content, fault);
      newStore := h.store;
      session.FinishSave(UploadOutcome(h.response));
    }
  }

  /** The page keeps U+001C when it trims, since JavaScript does not count it as whitespace. */
  lemma PageKeepsSeparator()
    ensures !IsBlank(IsJsSpace, "\U{001C}") && Trim(IsJsSpace, "\U{001C}") == "\U{001C}"
  {
    TrimWithoutSpace(IsJsSpace, "\U{001C}");
  }

  /** The server's `strip()` removes U+001C, since Python counts it as whitespace. */
  lemma ServerStripsSeparator()
    ensures IsBlank(IsPySpace, "\U{001C}")
  {
    assert AllSatisfy(IsPySpace, "\U{001C}");
  }

  /** The byte-order mark U+FEFF is whitespace to the page but not to the server. */
  lemma ByteOrderMarkDiffers()
    ensures IsBlank(IsJsSpace, "\U{FEFF}") && !IsBlank(IsPySpace, "\U{FEFF}")
  {
    assert AllSatisfy(IsJsSpace, "\U{FEFF}");
    TrimWithoutSpace(IsPySpace, "\U{FEFF}");
  }

  /**
   * The page and the server count different characters as whitespace. A
   * title of the information separator U+001C passes the page's check and
   * is sent as it is, and the server answers 400.
   */
  lemma PageAcceptsServerRejects(isWord: char -> bool, store: S3Service.Store, dateFolder: string, now: string,
                                 content: string, fault: Option<S3Service.StoreError>)
    requires NoteKeys.WordClassOk(isWord)
    ensures !IsBlank(IsJsSpace, "\U{001C}") && Trim(IsJsSpace, "\U{001C}") == "\U{001C}"
    ensures Api.UploadEndpoint(true, isWord, store, dateFolder, now, "\U{001C}", content, fault).response
            == Api.HttpError(400, "Note title is required")
  {
    PageKeepsSeparator();
    ServerStripsSeparator();
  }
}
