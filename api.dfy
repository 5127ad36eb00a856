/**
 * The HTTP endpoints of the backend: each one checks that the storage service
 * exists, validates its input, calls the service and turns the service's
 * reply into a JSON response or an HTTP error.
 *
 * `configured` is whether the module-level service could be constructed at
 * start-up; when it is false, the service is never called.
 */
module Api {
  import opened Prelude
  import opened Text
  import opened NoteKeys
  import opened S3Service

  /** A response: status 200 with the endpoint's JSON body, or an `HTTPException`. */
  datatype Response =
    | UploadOk(message: string, filename: string)
    | ListOk(message: string, notes: seq<NoteEntry>)
    | DownloadOk(message: string, data: NoteContent)
    | DeleteOk(message: string)
    | HttpError(status: nat, detail: string)
  {
    function Status(): nat
    {
      if HttpError? then status else 200
    }
  }

  const NotConfigured := HttpError(500, "S3 service not configured")

  /** An endpoint's response, the store afterwards, and whether the storage service was called. */
  datatype Handled = Handled(response: Response, store: Store, serviceCalled: bool)

  /** `GET /health`: healthy whenever the server answers, reporting whether storage is configured. */
  function Health(configured: bool): (r: (string, bool))
    ensures r.0 == "healthy" && r.1 == configured
  {
    ("healthy", configured)
  }

  /**
   * `POST /api/upload`: 500 without a service; 400 for a blank title, then for
   * a blank body; otherwise the service's upload, echoed on success and
   * turned into a 500 carrying the service's message on failure.
   */
  function UploadEndpoint(configured: bool, isWord: char -> bool, store: Store, dateFolder: string, now: string,
                          title: string, content: string, fault: Option<StoreError>): (h: Handled)
    requires WordClassOk(isWord)
    ensures !configured ==> h == Handled(NotConfigured, store, false)
    ensures configured && IsBlank(IsPySpace, title) ==>
      h == Handled(HttpError(400, "Note title is required"), store, false)
    ensures configured && !IsBlank(IsPySpace, title) && IsBlank(IsPySpace, content) ==>
      h == Handled(HttpError(400, "Note content is required"), store, false)
    ensures h.serviceCalled <==> configured && !IsBlank(IsPySpace, title) && !IsBlank(IsPySpace, content)
    ensures h.serviceCalled ==>
      var u := UploadNote(isWord, store, dateFolder, now, title, content, fault);
      && h.store == u.store
      && (u.reply.Success? ==> h.response == UploadOk(u.reply.message, u.reply.data))
      && (u.reply.Failure? ==> h.response == HttpError(500, u.reply.message))
  {
    if !configured then Handled(NotConfigured, store, false)
    else if IsBlank(IsPySpace, title) then Handled(HttpError(400, "Note title is required"), store, false)
    else if IsBlank(IsPySpace, content) then Handled(HttpError(400, "Note content is required"), store, false)
    else
      var u := UploadNote(isWord, store, dateFolder, now, title, content, fault);
      var response := match u.reply
        case Success(filename, message) => UploadOk(message, filename)
        case Failure(message) => HttpError(500, message);
      Handled(response, u.store, true)
  }

  /** `GET /api/list`: the service's listing, or 500 with its message. */
  method ListEndpoint(configured: bool, listing: Result<Option<seq<ListedObject>>, StoreError>)
    returns (response: Response, serviceCalled: bool)
    ensures !configured ==> response == NotConfigured && !serviceCalled
    ensures configured ==> serviceCalled
    ensures configured && listing.Err? ==> response == HttpError(500, ErrorMessage(listing.error))
    ensures configured && listing.Ok? ==>
      && response.ListOk?
      && NewestFirst(response.notes)
      && multiset(response.notes) == multiset(Entries(ListedObjects(listing.value)))
      && response.message == FoundMessage(|response.notes|)
  {
    if !configured {
      return NotConfigured, false;
    }
    var reply := ListNotes(listing);
    serviceCalled := true;
    match reply {
      case Success(notes, message) => response := ListOk(message, notes);
      case Failure(message) => response := HttpError(500, message);
    }
  }

  /** `404 if "not found" in message.lower() else 500`. */
  function FailureStatus(message: string): (status: nat)
    ensures status == 404 <==> Contains(Lower(message), "not found")
    ensures status == 404 || status == 500
  {
    if Contains(Lower(message), "not found") then 404 else 500
  }

  /** `GET /api/download/{filename}`: the note, or 404/500 by the wording of the service's message. */
  function DownloadEndpoint(configured: bool, store: Store, filename: string, fault: Option<StoreError>): (r: Response)
    ensures !configured ==> r == NotConfigured
    ensures configured ==> var d := DownloadNote(store, filename, fault);
      && (d.Success? ==> r == DownloadOk(d.message, d.data))
      && (d.Failure? ==> r == HttpError(FailureStatus(d.message), d.message))
  {
    if !configured then NotConfigured
    else match DownloadNote(store, filename, fault)
      case Success(data, message) => DownloadOk(message, data)
      case Failure(message) => HttpError(FailureStatus(message), message)
  }

  /** What the storage service's delete answers: its `success` flag and `message`. */
  datatype DeleteReply = DeleteReply(success: bool, message: string)

  /** `DELETE /api/delete/{filename}`: the service's answer, failures mapped like downloads. */
  function DeleteEndpoint(configured: bool, reply: DeleteReply): (r: Response)
    ensures !configured ==> r == NotConfigured
    ensures configured && reply.success ==> r == DeleteOk(reply.message)
    ensures configured && !reply.success ==>
      && r.HttpError? && r.detail == reply.message
      && (r.status == 404 <==> Contains(Lower(reply.message), "not found"))
  {
    if !configured then NotConfigured
    else if reply.success then DeleteOk(reply.message)
    else HttpError(FailureStatus(reply.message), reply.message)
  }

  // ---------------------------------------------------------------------
  // Properties across endpoints
  // ---------------------------------------------------------------------

  /**
   * What `/health` reports about storage is what the data endpoints do:
   * without a service each of them answers 500 "S3 service not configured"
   * and leaves the store alone; with one, an upload of a non-blank note
   * reaches the service and a download answers 200 exactly for a stored key.
   * (`ListEndpoint` states the same for the listing in its own contract.)
   */
  lemma HealthMatchesEndpoints(configured: bool, isWord: char -> bool, store: Store, dateFolder: string, now: string,
                               title: string, content: string, fault: Option<StoreError>,
                               filename: string, reply: DeleteReply)
    requires WordClassOk(isWord)
    ensures !Health(configured).1 ==>
      && var u := UploadEndpoint(configured, isWord, store, dateFolder, now, title, content, fault);
      && u.response.Status() == 500 && u.response == NotConfigured && !u.serviceCalled && u.store == store
      && DownloadEndpoint(configured, store, filename, fault).Status() == 500
      && DownloadEndpoint(configured, store, filename, fault) == NotConfigured
      && DeleteEndpoint(configured, reply) == NotConfigured
    ensures Health(configured).1 ==>
      && (UploadEndpoint(configured, isWord, store, dateFolder, now, title, content, fault).serviceCalled
          <==> !IsBlank(IsPySpace, title) && !IsBlank(IsPySpace, content))
      && (DownloadEndpoint(configured, store, filename, None).Status() == 200 <==> filename in store)
  {
    if configured && filename !in store {
      MissingNoteIs404(store, filename);
    }
  }

  /** A key that is not in the store is answered 404 "Note not found". */
  lemma MissingNoteIs404(store: Store, filename: string)
    requires filename !in store
    ensures DownloadEndpoint(true, store, filename, None) == HttpError(404, "Note not found")
  {
    assert "Note not found" == "Note " + "not found";
    LowerKeepsLowerSuffix("Note ", "not found");
  }

  /**
   * As written, a missing-credentials failure on download is also answered
   * 404, because its message "AWS credentials not found" contains "not found".
   */
  lemma MissingCredentialsIs404(store: Store, filename: string)
    ensures DownloadEndpoint(true, store, filename, Some(NoCredentials)) == HttpError(404, "AWS credentials not found")
  {
    assert "AWS credentials not found" == "AWS credentials " + "not found";
    LowerKeepsLowerSuffix("AWS credentials ", "not found");
  }

  /** A successful upload followed by a download of the returned key answers 200 with the uploaded body. */
  lemma UploadThenDownloadEndpoint(isWord: char -> bool, store: Store, dateFolder: string, now: string,
                                   title: string, content: string)
    requires WordClassOk(isWord)
    requires '/' !in dateFolder
    requires !IsBlank(IsPySpace, title) && !IsBlank(IsPySpace, content)
    ensures var h := UploadEndpoint(true, isWord, store, dateFolder, now, title, content, None);
      && h.response.UploadOk?
      && var d := DownloadEndpoint(true, h.store, h.response.filename, None);
      && d.DownloadOk?
      && d.data.content == content
      && d.data.title == ReplaceChar(SafeTitle(isWord, title), '_', ' ')
  {
    UploadThenDownload(isWord, store, dateFolder, now, title, content);
  }
}
