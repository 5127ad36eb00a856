/**
 * The storage service of the backend: uploading a note under a key derived
 * from its title, listing the stored notes newest first, and downloading one
 * note. The bucket is an abstract store (a map from key to body and
 * metadata); the failures of a store call are passed in as a parameter, as
 * are the clock readings (`date_folder` and the last-modified timestamp).
 */
module S3Service {
  import opened Prelude
  import opened Text
  import opened NoteKeys

  /** What the store keeps under one key. */
  datatype StoredObject = StoredObject(body: string, lastModified: string, size: nat)

  type Store = map<string, StoredObject>

  /** One object of a listing response (`Key`, `LastModified`, `Size`). */
  datatype ListedObject = ListedObject(key: string, lastModified: string, size: nat)

  /** The three kinds of exception the service catches around a store call. */
  datatype StoreError =
    | NoCredentials
    | ClientError(code: string, text: string)
    | Unexpected(text: string)

  /** The dictionaries the service returns: `success` with a payload, or a failure message. */
  datatype Reply<T> = Success(data: T, message: string) | Failure(message: string)

  /** One element of `notes` in the listing. */
  datatype NoteEntry = NoteEntry(filename: string, title: string, dateFolder: string, lastModified: string, size: nat)

  /** The `data` of a download. */
  datatype NoteContent = NoteContent(filename: string, title: string, content: string, lastModified: string)

  /** The failure message for a store error outside `download_note`. */
  function ErrorMessage(e: StoreError): (m: string)
    ensures e.NoCredentials? ==> m == "AWS credentials not found"
    ensures e.ClientError? ==> StartsWith(m, "AWS S3 error: ")
    ensures e.Unexpected? ==> StartsWith(m, "Unexpected error: ")
  {
    match e
    case NoCredentials => "AWS credentials not found"
    case ClientError(_, text) => ConcatEnds("AWS S3 error: ", text); "AWS S3 error: " + text
    case Unexpected(text) => ConcatEnds("Unexpected error: ", text); "Unexpected error: " + text
  }

  // ---------------------------------------------------------------------
  // upload_note
  // ---------------------------------------------------------------------

  datatype Uploaded = Uploaded(reply: Reply<string>, store: Store)

  /**
   * `upload_note(title, content)` on `date_folder` at time `now`: writes the
   * body under the key derived from the title, or leaves the store alone and
   * reports the failure of the write.
   */
  function UploadNote(isWord: char -> bool, store: Store, dateFolder: string, now: string,
                      title: string, content: string, fault: Option<StoreError>): (u: Uploaded)
    requires WordClassOk(isWord)
    ensures fault.Some? ==> u == Uploaded(Failure(ErrorMessage(fault.value)), store)
    ensures fault.None? ==> var key := UploadKey(isWord, dateFolder, title);
      && u.reply == Success(key, "Note uploaded successfully")
      && StartsWith(key, "ubinote/") && EndsWith(key, ".md")
      && u.store.Keys == store.Keys + {key}
      && u.store[key] == StoredObject(content, now, Utf8Length(content))
      && forall k :: k in store && k != key ==> u.store[k] == store[k]
  {
    match fault
    case Some(e) => Uploaded(Failure(ErrorMessage(e)), store)
    case None =>
      var key := UploadKey(isWord, dateFolder, title);
      Uploaded(Success(key, "Note uploaded successfully"),
               store[key := StoredObject(content, now, Utf8Length(content))])
  }

  // ---------------------------------------------------------------------
  // list_notes
  // ---------------------------------------------------------------------

  /** The entry the listing makes of one markdown object. */
  function EntryOf(o: ListedObject): NoteEntry
  {
    NoteEntry(o.key, DisplayTitle(o.key), DateFolderOf(o.key), o.lastModified, o.size)
  }

  /**
   * The entries the loop of `list_notes` appends, in listing order: one per
   * object whose key ends in `.md`, none for any other object.
   */
  function Entries(objs: seq<ListedObject>): (es: seq<NoteEntry>)
    ensures |es| <= |objs|
    ensures forall e :: e in es ==> IsMarkdownKey(e.filename) && exists o :: o in objs && e == EntryOf(o)
    ensures forall o :: o in objs && IsMarkdownKey(o.key) ==> EntryOf(o) in es
    ensures |es| == |objs| <==> forall o :: o in objs ==> IsMarkdownKey(o.key)
  {
    if objs == [] then []
    else
      var init, last := objs[..|objs| - 1], objs[|objs| - 1];
      assert objs == init + [last];
      Entries(init) + if IsMarkdownKey(last.key) then [EntryOf(last)] else []
  }

  /**
   * One entry for each markdown object: an entry occurs in the listing as
   * many times as the object it is made of occurs among the listed objects.
   */
  lemma {:induction false} EntriesCount(objs: seq<ListedObject>, o: ListedObject)
    requires IsMarkdownKey(o.key)
    ensures multiset(Entries(objs))[EntryOf(o)] == multiset(objs)[o]
    decreases |objs|
  {
    if objs != [] {
      var init, last := objs[..|objs| - 1], objs[|objs| - 1];
      assert objs == init + [last];
      EntriesCount(init, o);
      assert EntryOf(o) == EntryOf(last) ==> o == last;
    }
  }

  /** Newest first: `last_modified` never increases along the sequence. */
  predicate NewestFirst(s: seq<NoteEntry>)
  {
    forall i, j :: 0 <= i < j < |s| ==> StrLe(s[j].lastModified, s[i].lastModified)
  }

  /** Inserts `x` after every entry at least as new, keeping the order newest first. */
  method InsertByDate(sorted: seq<NoteEntry>, x: NoteEntry) returns (r: seq<NoteEntry>)
    requires NewestFirst(sorted)
    ensures NewestFirst(r)
    ensures multiset(r) == multiset(sorted) + multiset{x}
  {
    var j := 0;
    while j < |sorted| && StrLe(x.lastModified, sorted[j].lastModified)
      invariant 0 <= j <= |sorted|
      invariant forall k :: 0 <= k < j ==> StrLe(x.lastModified, sorted[k].lastModified)
    {
      j := j + 1;
    }
    forall k | j <= k < |sorted|
      ensures StrLe(sorted[k].lastModified, x.lastModified)
    {
      StrLeTotal(x.lastModified, sorted[j].lastModified);
      if k > j {
        StrLeTransitive(sorted[k].lastModified, sorted[j].lastModified, x.lastModified);
      }
    }
    r := sorted[..j] + [x] + sorted[j..];
    InsertKeepsOrder(sorted, x, j);
    assert sorted == sorted[..j] + sorted[j..];
  }

  /** Putting `x` between the entries at least as new and those at most as new keeps the order. */
  lemma InsertKeepsOrder(sorted: seq<NoteEntry>, x: NoteEntry, j: nat)
    requires NewestFirst(sorted) && j <= |sorted|
    requires forall k :: 0 <= k < j ==> StrLe(x.lastModified, sorted[k].lastModified)
    requires forall k :: j <= k < |sorted| ==> StrLe(sorted[k].lastModified, x.lastModified)
    ensures NewestFirst(sorted[..j] + [x] + sorted[j..])
  {
    var r := sorted[..j] + [x] + sorted[j..];
    assert forall i :: 0 <= i < j ==> r[i] == sorted[i];
    assert r[j] == x;
    assert forall i :: j < i < |r| ==> r[i] == sorted[i - 1];
    forall p, q | 0 <= p < q < |r|
      ensures StrLe(r[q].lastModified, r[p].lastModified)
    {
      if q < j {
        assert r[p] == sorted[p] && r[q] == sorted[q];
      } else if q == j {
        assert r[p] == sorted[p];
      } else if p < j {
        assert r[p] == sorted[p] && r[q] == sorted[q - 1];
      } else if p == j {
        assert r[q] == sorted[q - 1];
      } else {
        assert r[p] == sorted[p - 1] && r[q] == sorted[q - 1];
      }
    }
  }

  /** `notes.sort(key=lambda x: x['last_modified'], reverse=True)`. */
  method SortNewestFirst(notes: seq<NoteEntry>) returns (r: seq<NoteEntry>)
    ensures NewestFirst(r)
    ensures multiset(r) == multiset(notes)
  {
    r := [];
    for i := 0 to |notes|
      invariant NewestFirst(r)
      invariant multiset(r) == multiset(notes[..i])
    {
      r := InsertByDate(r, notes[i]);
      assert notes[..i + 1] == notes[..i] + [notes[i]];
    }
    assert notes[..|notes|] == notes;
  }

  /** One more object extends the entries by its own entry, if it has one. */
  lemma EntriesSnoc(objs: seq<ListedObject>, i: nat)
    requires i < |objs|
    ensures Entries(objs[..i + 1]) == Entries(objs[..i]) + if IsMarkdownKey(objs[i].key) then [EntryOf(objs[i])] else []
  {
    assert objs[..i + 1][..i] == objs[..i];
  }

  /** The loop of `list_notes`: appends the entry of each markdown object, in listing order. */
  method CollectEntries(objs: seq<ListedObject>) returns (notes: seq<NoteEntry>)
    ensures notes == Entries(objs)
  {
    notes := [];
    for i := 0 to |objs|
      invariant notes == Entries(objs[..i])
    {
      EntriesSnoc(objs, i);
      if IsMarkdownKey(objs[i].key) {
        notes := notes + [EntryOf(objs[i])];
      }
    }
    assert objs[..|objs|] == objs;
  }

  /** The objects of a listing response; an absent `Contents` is no objects. */
  function ListedObjects(contents: Option<seq<ListedObject>>): seq<ListedObject>
  {
    if contents.Some? then contents.value else []
  }

  /** The message of a successful listing. */
  function FoundMessage(n: nat): string
  {
    "Found " + NatToString(n) + " notes"
  }

  /**
   * `list_notes()` given the store's listing response: one entry per markdown
   * key, newest first, or the failure message of the listing call.
   */
  method ListNotes(response: Result<Option<seq<ListedObject>>, StoreError>) returns (reply: Reply<seq<NoteEntry>>)
    ensures response.Err? ==> reply == Failure(ErrorMessage(response.error))
    ensures response.Ok? ==>
      && reply.Success?
      && NewestFirst(reply.data)
      && multiset(reply.data) == multiset(Entries(ListedObjects(response.value)))
      && reply.message == FoundMessage(|reply.data|)
  {
    if response.Err? {
      return Failure(ErrorMessage(response.error));
    }
    var notes := CollectEntries(ListedObjects(response.value));
    var sorted := SortNewestFirst(notes);
    assert |sorted| == |notes| by {
      assert |multiset(sorted)| == |multiset(notes)|;
    }
    reply := Success(sorted, FoundMessage(|sorted|));
  }

  // ---------------------------------------------------------------------
  // download_note
  // ---------------------------------------------------------------------

  /** `get_object(Key=filename)`: the injected failure, the stored object, or `NoSuchKey`. */
  function GetObject(store: Store, key: string, fault: Option<StoreError>): Result<StoredObject, StoreError>
  {
    if fault.Some? then Err(fault.value)
    else if key in store then Ok(store[key])
    else Err(ClientError("NoSuchKey", "The specified key does not exist."))
  }

  /** The failure message of `download_note`: a missing key reads "Note not found". */
  function DownloadErrorMessage(e: StoreError): (m: string)
    ensures e.ClientError? && e.code == "NoSuchKey" ==> m == "Note not found"
    ensures !(e.ClientError? && e.code == "NoSuchKey") ==> m == ErrorMessage(e)
  {
    if e.ClientError? && e.code == "NoSuchKey" then "Note not found" else ErrorMessage(e)
  }

  /** `download_note(filename)`: the body and a display title derived from the key. */
  function DownloadNote(store: Store, filename: string, fault: Option<StoreError>): (r: Reply<NoteContent>)
    ensures r.Success? <==> fault.None? && filename in store
    ensures r.Success? ==> r == Success(
      NoteContent(filename, DisplayTitle(filename), store[filename].body, store[filename].lastModified),
      "Note downloaded successfully")
    ensures fault.None? && filename !in store ==> r == Failure("Note not found")
    ensures fault.Some? ==> r == Failure(DownloadErrorMessage(fault.value))
  {
    match GetObject(store, filename, fault)
    case Err(e) => Failure(DownloadErrorMessage(e))
    case Ok(obj) =>
      Success(NoteContent(filename, DisplayTitle(filename), obj.body, obj.lastModified),
              "Note downloaded successfully")
  }

  // ---------------------------------------------------------------------
  // Upload, then read back
  // ---------------------------------------------------------------------

  /**
   * A note downloaded under the key its upload returned has the uploaded body,
   * and the safe title (with `_` shown as a space) as its title.
   */
  lemma UploadThenDownload(isWord: char -> bool, store: Store, dateFolder: string, now: string,
                           title: string, content: string)
    requires WordClassOk(isWord)
    requires '/' !in dateFolder
    ensures var u := UploadNote(isWord, store, dateFolder, now, title, content, None);
      var d := DownloadNote(u.store, u.reply.data, None);
      && d.Success?
      && d.data.content == content
      && d.data.lastModified == now
      && d.data.title == ReplaceChar(SafeTitle(isWord, title), '_', ' ')
  {
    UploadKeyRoundTrip(isWord, dateFolder, title);
  }

  /** `objs` is a listing of the `ubinote/` prefix of `store`: every such key once, with its metadata. */
  predicate ListingOf(store: Store, objs: seq<ListedObject>)
  {
    && (forall o :: o in objs ==>
          && StartsWith(o.key, "ubinote/") && o.key in store
          && o.lastModified == store[o.key].lastModified && o.size == store[o.key].size)
    && (forall k :: k in store && StartsWith(k, "ubinote/") ==> exists o :: o in objs && o.key == k)
  }

  /**
   * After a successful upload, every listing of the store has an entry for the
   * new key, with the date folder it was stored under and the safe title as
   * its display title.
   */
  lemma UploadThenList(isWord: char -> bool, store: Store, dateFolder: string, now: string,
                       title: string, content: string, objs: seq<ListedObject>)
    requires WordClassOk(isWord)
    requires '/' !in dateFolder
    requires ListingOf(UploadNote(isWord, store, dateFolder, now, title, content, None).store, objs)
    ensures exists e :: (
              && e in Entries(objs)
              && e.filename == UploadKey(isWord, dateFolder, title)
              && e.dateFolder == dateFolder
              && e.title == ReplaceChar(SafeTitle(isWord, title), '_', ' ')
              && e.lastModified == now)
  {
    var key := UploadKey(isWord, dateFolder, title);
    UploadKeyRoundTrip(isWord, dateFolder, title);
    var u := UploadNote(isWord, store, dateFolder, now, title, content, None);
    assert key in u.store && StartsWith(key, "ubinote/");
    var o :| o in objs && o.key == key;
    assert EntryOf(o) in Entries(objs);
  }
}
