# UbiNote in Dafny

UbiNote is a web notepad for Markdown notes kept in an S3 bucket. A FastAPI
backend uploads, lists and downloads notes. A React page edits a note,
saves it and opens saved notes from a sidebar list. This project models:

- the backend's storage service: how a title becomes an object key, how
  the listing is built and sorted, and how a download is answered
  (`S3Service`, with the key rules in `NoteKeys` and the string operations
  they use in `Text`);
- the HTTP endpoints that validate requests and map the service's answers
  to status codes (`Api`);
- the page's session and save handler (`App`);
- the editor (`NoteEditor`), the note list (`NoteList`) and the settings
  dialog (`SettingsPanel`).

The bucket is a map from key to body, last-modified stamp and size. The
clock (`date_folder`, the stamp of a write, the page's current time) and
the failures of bucket calls are parameters. Python's Unicode `\w` class is
a parameter `isWord` constrained by `NoteKeys.WordClassOk`. Python's
whitespace set (`str.isspace`) and JavaScript's (`String.prototype.trim`)
are written out exactly; they differ.

The page has no auto-save. There is no debounce timer, no dirty flag and
no save timestamps. `App` saves only when the button is pressed, and
`handleSave` does not refuse a save while one is in flight
(`App.SaveTwiceWhileSaving`). The editor's status indicator props are never
passed, so no indicator shows (`App.Session.EditorIndicator`). The settings
dialog edits auto-save keys that nothing reads.

## Model

| member | source | states |
|---|---|---|
| Text.IsPySpace | backend/app/s3_service.py:27-28 | Python's whitespace as `str.isspace`, `re`'s `\s` and `strip()` use it; `Text.SpaceClassesDiffer` gives exactly where it parts from JavaScript's |
| Text.IsJsSpace | frontend/src/App.js:35 | the WhiteSpace and LineTerminator characters JavaScript's `trim()` removes; `Text.SpaceClassesDiffer` gives exactly where it parts from Python's |
| Text.SpaceClassesDiffer | frontend/src/App.js:35 | only U+001C..U+001F and U+0085 are whitespace to Python and not to JavaScript, and only U+FEFF the other way round |
| Text.Trim | backend/app/main.py:41-45 | `strip()` / `trim()`: the result starts and ends with a non-whitespace character, and it is empty exactly when the text is all whitespace |
| Text.TrimStartSuffix | backend/app/main.py:41 | what the leading trim leaves is a suffix of the text, and every character it drops is whitespace |
| Text.TrimWithoutSpace | backend/app/s3_service.py:27 | text without whitespace is its own strip |
| Text.IsBlank | backend/app/main.py:41-45 | `not x.strip()` / `!x.trim()` holds exactly when every character of the text is whitespace in the given class |
| Text.Lower | backend/app/main.py:97 | `lower()` keeps the length and maps each character through ASCII lower-casing |
| Text.LowerKeepsLowerSuffix | backend/app/main.py:97 | a text ending in a pattern without capitals still contains that pattern after `lower()` |
| Text.Contains | backend/app/main.py:97 | Python's `pat in s`: the pattern starts at some position of the text; `Text.ContainsInSuffix` and `Text.LowerKeepsLowerSuffix` prove occurrences |
| Text.Split | backend/app/s3_service.py:72 | `split('/')` gives at least one piece, and no piece contains the separator |
| Text.ReplaceChar | backend/app/s3_service.py:73 | `replace('_', ' ')` keeps the length and changes exactly the `_` characters into spaces |
| Text.ReplaceAll | backend/app/s3_service.py:73 | `replace('.md', '')`: occurrences are removed left to right; `Text.RemoveTrailingPattern` and `NoteKeys.ReplaceAllKeepsOut` state what it gives for keys |
| Text.SplitJoin | backend/app/s3_service.py:76 | splitting pieces joined by the separator gives the pieces back when none contains it |
| Text.JoinSplit | backend/app/s3_service.py:76 | joining the pieces of a split gives the text back |
| Text.StrLeTotal | backend/app/s3_service.py:87 | the string order used by the sort is total |
| Text.StrLeTransitive | backend/app/s3_service.py:87 | the string order used by the sort is transitive |
| Text.StrLe | backend/app/s3_service.py:87 | the order Python compares the ISO stamps by, code point by code point; `Text.StrLeTotal` and `Text.StrLeTransitive` make it a total preorder |
| Text.NatToStringRoundTrip | backend/app/s3_service.py:92 | the decimal rendering of a count reads back as that count |
| Text.NatToString | backend/app/s3_service.py:92 | the decimal rendering of a count: at least one digit, only digits, no leading zero |
| Text.IntToString | frontend/src/components/NoteEditor.js:58-60 | a template literal's rendering of a whole number: the decimal digits, with a `-` in front of a negative number |
| Text.Utf8Length | backend/app/s3_service.py:32-37 | a body's stored size is its UTF-8 byte count, between one and four bytes per character |
| NoteKeys.DropDisallowed | backend/app/s3_service.py:27 | `re.sub(r'[^\w\s-]', '', t)` keeps exactly the word, whitespace and `-` characters, and keeps a text made only of them unchanged |
| NoteKeys.DropDisallowedAppend | backend/app/s3_service.py:27 | the deletion distributes over concatenation, so the kept characters keep their order |
| NoteKeys.DropDisallowedCount | backend/app/s3_service.py:27 | every character of `[\w\s-]` keeps all its occurrences and every other character loses all of them |
| NoteKeys.StrippedTitle | backend/app/s3_service.py:27 | the title after the deletion and `strip()`; `NoteKeys.SafeTitleEnds` relates the safe title to it |
| NoteKeys.CollapseRuns | backend/app/s3_service.py:28 | after `re.sub(r'[\s]+', '_', t)` no whitespace is left |
| NoteKeys.SafeTitle | backend/app/s3_service.py:27-28 | the sanitised title holds only word characters or `-`, no whitespace, and no `/` or `.` |
| NoteKeys.CollapseRun | backend/app/s3_service.py:28 | each maximal whitespace run becomes exactly one `_` |
| NoteKeys.CollapseAfterSpace | backend/app/s3_service.py:28 | a whitespace run that starts the text becomes one `_` followed by the collapse of what follows the run |
| NoteKeys.CollapseKeepsClass | backend/app/s3_service.py:28 | collapsing keeps the characters within any class that holds `_` and all the input's characters |
| NoteKeys.CollapseWithoutSpace | backend/app/s3_service.py:28 | a text without whitespace is not changed by the collapse |
| NoteKeys.CollapseKeepsLast | backend/app/s3_service.py:27-28 | a text that ends in a non-whitespace character keeps that last character |
| NoteKeys.SafeTitleEnds | backend/app/s3_service.py:27-28 | the sanitised title is empty iff the stripped title is, and otherwise starts and ends with the stripped title's ends, so no `_` from whitespace sits at either end |
| NoteKeys.SafeTitleIdempotent | backend/app/s3_service.py:27-28 | sanitising a sanitised title returns it unchanged |
| NoteKeys.SafeUnderscoreTitle | backend/app/s3_service.py:27-28 | the title "-_-" is already safe and is kept as it is |
| NoteKeys.SafeSpaceTitle | backend/app/s3_service.py:27-28 | the title "- -" is sanitised to "-_-" |
| NoteKeys.SpaceAndUnderscoreCollide | backend/app/s3_service.py:27-30 | the titles "- -" and "-_-" get the same key, so the second upload overwrites the first |
| NoteKeys.NoteKey | backend/app/s3_service.py:29-30 | every key starts with `ubinote/` and ends with `.md` |
| NoteKeys.NoteKeyPieces | backend/app/s3_service.py:30 | a key splits at `/` into exactly `ubinote`, the date folder and the file name, when neither holds `/` |
| NoteKeys.UploadKey | backend/app/s3_service.py:27-30 | the key `upload_note` builds from the date folder and the sanitised title; `NoteKeys.UploadKeyRoundTrip` reads it back |
| NoteKeys.NoteKeyParts | backend/app/s3_service.py:72-77 | a key built from a folder and a safe title is a Markdown key under `ubinote/` that reads back its folder and its title with `_` shown as spaces |
| NoteKeys.LastSegment | backend/app/s3_service.py:72 | the last `/`-piece of a key holds no `/` |
| NoteKeys.DisplayTitle | backend/app/s3_service.py:73 | the display title holds no `_` and no `/` |
| NoteKeys.ReplaceAllKeepsOut | backend/app/s3_service.py:73 | `replace` adds no character that is in neither the text nor the replacement |
| NoteKeys.DateFolderOf | backend/app/s3_service.py:76-77 | a key with no `/` gets the date folder "unknown"; otherwise the folder holds no `/` |
| NoteKeys.UploadKeyRoundTrip | backend/app/s3_service.py:27-30 | an upload key is a Markdown key under `ubinote/`; the listing reads back its date folder, and its display title is the sanitised title with `_` shown as spaces |
| S3Service.ErrorMessage | backend/app/s3_service.py:44-58 | the three failure messages: missing credentials, "AWS S3 error: …", "Unexpected error: …" |
| S3Service.UploadNote | backend/app/s3_service.py:22-58 | a successful upload writes the body, stamp and size under the derived key, returns that key and leaves every other object as it was; a failed one leaves the store unchanged |
| NoteKeys.IsMarkdownKey | backend/app/s3_service.py:70 | the `.endswith('.md')` filter; `S3Service.Entries` and `S3Service.EntriesCount` state that exactly the objects it accepts give entries |
| S3Service.ListedObjects | backend/app/s3_service.py:68-69 | `response.get('Contents', [])`: an absent `Contents` is no objects; `S3Service.ListNotes` states the result over it |
| S3Service.Entries | backend/app/s3_service.py:67-85 | the listing entries are exactly the entries of the `.md` objects, none for any other object, and as many as the objects when all keys are `.md` |
| S3Service.EntryOf | backend/app/s3_service.py:72-83 | the entry of one object: its key as filename, the display title, the date folder, its stamp and size; `S3Service.EntriesCount` uses that it determines the object |
| S3Service.EntriesCount | backend/app/s3_service.py:69-85 | each `.md` object gives exactly as many entries as it occurs in the listing: one entry per listed key |
| S3Service.EntriesSnoc | backend/app/s3_service.py:70-71 | one more listed object adds its entry at the end exactly when its key ends in `.md` |
| S3Service.CollectEntries | backend/app/s3_service.py:69-85 | the loop over the listed objects collects exactly the listing entries, in listing order |
| S3Service.InsertByDate | backend/app/s3_service.py:87 | inserting into a newest-first sequence keeps it newest first and adds exactly that entry |
| S3Service.InsertKeepsOrder | backend/app/s3_service.py:87 | an entry placed after the newer entries and before the older ones keeps the sequence newest first |
| S3Service.SortNewestFirst | backend/app/s3_service.py:87 | the sort returns a permutation of its input, newest first |
| S3Service.ListNotes | backend/app/s3_service.py:60-108 | a listing succeeds with a newest-first permutation of the `.md` entries and the message "Found n notes"; a failed call gives its failure message |
| S3Service.FoundMessage | backend/app/s3_service.py:92 | the message "Found n notes" with n in decimal, which `Text.NatToStringRoundTrip` reads back |
| S3Service.DownloadErrorMessage | backend/app/s3_service.py:133-152 | a `NoSuchKey` error reads "Note not found"; other failures read as for the other calls |
| S3Service.GetObject | backend/app/s3_service.py:112-115 | the store call: the injected failure, the stored object, or the `NoSuchKey` error; `S3Service.DownloadNote` states the outcome |
| S3Service.DownloadNote | backend/app/s3_service.py:110-152 | a download succeeds iff the call does not fail and the key is stored; it returns the body, stamp and display title, and a missing key gives "Note not found" |
| S3Service.UploadThenDownload | backend/app/s3_service.py:22-152 | downloading the key that an upload returned gives back the body, the stamp and the title with `_` shown as spaces |
| S3Service.UploadThenList | backend/app/s3_service.py:22-87 | after an upload, any listing of the bucket has an entry for the new key with its date folder, title and stamp |
| Api.Health | backend/app/main.py:32-34 | the health check always reports "healthy", together with whether storage is configured |
| Api.HealthMatchesEndpoints | backend/app/main.py:34-39 | when health reports no storage, the upload, download and delete endpoints answer 500 "S3 service not configured" without calling the service; when it reports storage, an upload of a non-blank note reaches the service and a download answers 200 exactly for a stored key |
| Api.UploadEndpoint | backend/app/main.py:36-59 | the order of the checks: 500 without storage, then 400 for a blank title, then 400 for a blank body; storage is called iff all pass, and a failed write gives 500 with the service's message |
| Api.ListEndpoint | backend/app/main.py:61-78 | 500 without storage; otherwise the sorted listing, or 500 with the failure message |
| Api.FailureStatus | backend/app/main.py:97 | 404 iff the lower-cased message contains "not found", else 500 |
| Api.DownloadEndpoint | backend/app/main.py:80-98 | 500 without storage; the note on success; a failure's status follows its wording |
| Api.DeleteEndpoint | backend/app/main.py:100-117 | 500 without storage; the service's message, with 404 iff it contains "not found" |
| Api.MissingNoteIs404 | backend/app/main.py:97 | downloading a key that is not stored gives 404 "Note not found" |
| Api.MissingCredentialsIs404 | backend/app/main.py:97 | a credentials failure on download also gives 404, because its message contains "not found" |
| Api.UploadThenDownloadEndpoint | backend/app/main.py:36-98 | an accepted upload followed by a download of the returned filename gives 200 with the same body |
| NoteEditor.JsRem | frontend/src/components/NoteEditor.js:55 | JavaScript's `%`: for a non-negative dividend it is the usual remainder; for a negative one it lies in (-d, 0] |
| NoteEditor.FormatLastSaved | frontend/src/components/NoteEditor.js:50-62 | no date gives the empty text |
| NoteEditor.JsRemTruncates | frontend/src/components/NoteEditor.js:55 | `JsRem` is JavaScript's `%` for every dividend: the dividend minus the divisor times the quotient truncated toward zero |
| NoteEditor.ElapsedMinutes | frontend/src/components/NoteEditor.js:54 | `Math.floor(diff / 60000)`; `NoteEditor.ElapsedSplit` bounds it |
| NoteEditor.ElapsedSeconds | frontend/src/components/NoteEditor.js:55 | `Math.floor((diff % 60000) / 1000)` with JavaScript's `%`; `NoteEditor.ElapsedSplit` bounds it |
| NoteEditor.ElapsedSplit | frontend/src/components/NoteEditor.js:53-55 | for a non-negative elapsed time the seconds lie in 0..59, and whole minutes plus seconds equal the time rounded down to a second |
| NoteEditor.FormatLastSavedCases | frontend/src/components/NoteEditor.js:57-61 | "<minutes>m ago" iff at least a minute passed, else "<seconds>s ago" |
| NoteEditor.ShowsSaving | frontend/src/components/NoteEditor.js:78 | the "Saving..." indicator's condition; `NoteEditor.StatusIndicator` shows it iff this holds |
| NoteEditor.ShowsUnsaved | frontend/src/components/NoteEditor.js:79 | the "Unsaved changes" indicator's condition; `NoteEditor.StatusIndicator` shows it iff this holds |
| NoteEditor.ShowsSaved | frontend/src/components/NoteEditor.js:80-82 | the "Saved" indicator's condition, which needs a last-saved time; `NoteEditor.StatusIndicator` shows it iff this holds |
| NoteEditor.StatusIndicator | frontend/src/components/NoteEditor.js:76-84 | at most one indicator shows, with priority saving, then unsaved, then saved (the last only with a date); none when the status is hidden |
| NoteEditor.SaveDisabled | frontend/src/components/NoteEditor.js:87 | the button is disabled iff a save runs or the title or body is all whitespace |
| NoteEditor.SaveLabel | frontend/src/components/NoteEditor.js:90 | the label is "Saving..." iff a save runs |
| NoteEditor.CursorMemory.constructor | frontend/src/components/NoteEditor.js:17-18 | both refs start empty |
| NoteEditor.CursorMemory.Store | frontend/src/components/NoteEditor.js:21-29 | the focused field's cursor and the field are recorded; with the focus elsewhere nothing changes |
| NoteEditor.CursorMemory.Restore | frontend/src/components/NoteEditor.js:32-42 | with both refs set, the recorded field and cursor are restored and both refs cleared; otherwise nothing happens |
| NoteEditor.CursorMemory.SavingChanged | frontend/src/components/NoteEditor.js:32-49 | a save's start records the cursor; its end restores and clears it when both refs are set, and otherwise restores nothing and leaves both refs as they were |
| NoteEditor.CursorSurvivesSave | frontend/src/components/NoteEditor.js:32-49 | a save that starts with the cursor in a field puts it back at the same place |
| App.ScreenFor | frontend/src/App.js:65-88 | the connecting screen while the check runs, then the editor iff the check succeeded, else the retry screen |
| App.Session.constructor | frontend/src/App.js:9-14 | the initial state: empty fields, no save, no notification, no selection, check running |
| App.Session.Screen | frontend/src/App.js:65-88 | the editor shows only after a successful health check |
| App.Session.EditorIndicator | frontend/src/App.js:116-123 | the page passes no status props, so the editor never shows a status indicator |
| App.Session.SaveButtonDisabled | frontend/src/App.js:116-123 | an enabled button means no save runs and both fields have a non-whitespace character |
| App.Session.HealthChecked | frontend/src/App.js:20-27 | the check's outcome selects the editor or the retry screen; nothing else changes |
| App.Session.SetTitle | frontend/src/App.js:120 | only the title changes |
| App.Session.SetContent | frontend/src/App.js:118 | only the body changes |
| App.Session.Notify | frontend/src/App.js:29-32 | the notification is replaced and recorded |
| App.Session.BeginSave | frontend/src/App.js:34-42 | a blank field gives one error notification, no upload and `saving` untouched; otherwise `saving` is set and the upload gets the trimmed title and the body as typed |
| App.Session.FinishSave | frontend/src/App.js:42-50 | success selects the returned filename and says so; failure says "Save failed: …" and keeps the selection; `saving` ends false; title and body are unchanged |
| App.Session.HandleSave | frontend/src/App.js:34-51 | each save gives exactly one notification; `saving` is false after an upload and untouched after a refusal |
| App.Session.NoteSelect | frontend/src/App.js:53-57 | title, body and selection are replaced from the opened note |
| App.Session.NewNote | frontend/src/App.js:59-63 | title and body become empty and nothing is selected, so the save button is disabled |
| App.PressEnabledSave | frontend/src/components/NoteEditor.js:85-91 | pressing an enabled save button always starts an upload |
| App.SaveTwiceWhileSaving | frontend/src/App.js:34-42 | a second save during a running one issues a second, identical upload |
| App.ConnectAfterRetry | frontend/src/App.js:76-88 | a failed check followed by a successful retry reaches the editor |
| App.UploadOutcome | frontend/src/services/api.js:14-26 | an upload answer becomes the filename or the error's detail, with a fixed text when the detail is empty |
| App.SaveToServer | frontend/src/App.js:34-51 | when the page and the server accept a save and the write succeeds, the note the page selects is stored under that key with the body as typed |
| App.PageKeepsSeparator | frontend/src/App.js:35 | the page's `trim()` keeps U+001C, so a title made of it is not blank to the page |
| App.ServerStripsSeparator | backend/app/main.py:41 | the server's `strip()` removes U+001C, so the same title is blank to the server |
| App.ByteOrderMarkDiffers | backend/app/main.py:44 | a body of U+FEFF is blank to the page but not to the server |
| App.PageAcceptsServerRejects | backend/app/main.py:41-42 | a U+001C title passes the page's check, and the upload endpoint answers 400 "Note title is required" |
| NoteList.RoundDiv | frontend/src/components/NoteList.js:57-58 | `Math.round(b / d)` is the nearest whole number with halves rounded up |
| NoteList.SizeOf | frontend/src/components/NoteList.js:55-59 | the unit is B below 1024 bytes, KB below 1048576, else MB, and the figure is the bytes or the rounded quotient |
| NoteList.FormatFileSize | frontend/src/components/NoteList.js:55-59 | the figure in decimal, a space and the unit; `NoteList.FileSizeReadsBack` reads it back |
| NoteList.KilobyteFigure | frontend/src/components/NoteList.js:57 | the KB figure lies in 1..1024; 1048575 bytes shows as 1024 KB |
| NoteList.FileSizeReadsBack | frontend/src/components/NoteList.js:55-59 | the text is the figure in decimal, reading back as the computed number, then " B", " KB" or " MB" |
| NoteList.SelectedMarks | frontend/src/components/NoteList.js:92 | a note is marked selected iff its filename equals the selection |
| NoteList.AtMostOneMarked | frontend/src/components/NoteList.js:92 | with distinct filenames at most one note is marked, and none without a selection |
| NoteList.EntriesDistinct | backend/app/s3_service.py:67-85 | distinct listed keys give entries with distinct filenames |
| NoteList.NoteListPanel.constructor | frontend/src/components/NoteList.js:6-8 | no notes, not loading, no error |
| NoteList.NoteListPanel.ListView | frontend/src/components/NoteList.js:80-103 | a loading message while loading, the empty message when there are no notes, else the notes |
| NoteList.NoteListPanel.RefreshButton | frontend/src/components/NoteList.js:65-71 | the button is disabled and reads "Loading..." iff loading |
| NoteList.NoteListPanel.BeginLoad | frontend/src/components/NoteList.js:11-12 | loading starts and the error is cleared |
| NoteList.NoteListPanel.FinishLoad | frontend/src/components/NoteList.js:13-20 | the answer's notes, or none without them; a failure's message with the list kept; loading ends |
| NoteList.NoteListPanel.LoadNotes | frontend/src/components/NoteList.js:10-21 | success leaves no error and the answer's notes; failure keeps the list and sets the error; loading ends false |
| NoteList.NoteListPanel.HandleNoteClick | frontend/src/components/NoteList.js:27-39 | the selected note's click does nothing; otherwise the download's data is handed on, or the error reads "Failed to load note: …" |
| SettingsPanel.Updated | frontend/src/components/Settings.js:8 | the record is set at the key and unchanged at every other key |
| SettingsPanel.UpdateToSameValue | frontend/src/components/Settings.js:8 | setting a key to its current value leaves the record unchanged |
| SettingsPanel.UpdatesCommute | frontend/src/components/Settings.js:8 | updates of two different keys commute |
| SettingsPanel.Truthy | frontend/src/components/Settings.js:44 | JavaScript truthiness of a setting: absent is false, a flag is itself, a number is true unless 0 |
| SettingsPanel.ChooseInterval | frontend/src/components/Settings.js:43-51 | `parseInt` of a chosen option's text gives its number, one of 3, 5, 10, 15, 30 or 60 |
| SettingsPanel.ControlsFor | frontend/src/components/Settings.js:13-78 | nothing renders when closed; the interval and on-change controls are disabled iff auto-save is not on |
| SettingsPanel.AutoSaveGatesControls | frontend/src/components/Settings.js:44-62 | unticking auto-save disables both dependent controls; changing another key leaves them as they were |
| SettingsPanel.Panel.constructor | frontend/src/components/Settings.js:5 | the local copy starts as the owner's settings |
| SettingsPanel.Panel.Render | frontend/src/components/Settings.js:13 | nothing renders iff the dialog is closed |
| SettingsPanel.Panel.HandleSettingChange | frontend/src/components/Settings.js:7-11 | the local copy becomes the record updated at the key, and the same record is handed to the owner |

## Left out

- Bucket calls (`put_object`, `list_objects_v2`, `get_object`), the AWS client and its credentials are an abstract map plus a fault parameter. The bucket name and region are not modelled.
- `datetime.now()`, `strftime` and `isoformat()`: the date folder and the stamps are parameters. Stamps are compared as strings.
- Python's `\w` is a parameter. Only `_` in it and `-`, `.`, `/` and whitespace outside it are assumed.
- Text.Lower: lower-cases ASCII letters only, not the full Unicode case mapping of `str.lower()`.
- S3Service.SortNewestFirst: it does not prove that the sort is stable (that notes with equal stamps keep listing order). It proves only the newest-first order and the permutation.
- S3Service.ListNotes: the listing call returns at most 1000 keys and there is no pagination. The model lists whatever the call returned.
- S3Service.DownloadNote: a body that is not valid UTF-8 fails to decode. The model stores text, so this failure is not modelled.
- `S3Service` has no `delete_note`, although the delete endpoint calls it. As written, every `DELETE` with storage configured raises `AttributeError` and is answered 500. `Api.DeleteEndpoint` models the answer that a service with such a method would give, taking that answer as a parameter.
- The root endpoint (`GET /`), CORS, start-up logging and the failure of service construction are left out. Construction is the `configured` flag.
- The notification's removal after 3000 ms is not modelled, nor the asynchronous interleaving of the page's handlers. Each handler runs to completion, and an upload's outcome is a parameter.
- `formatDate` depends on the locale (`toLocaleDateString('ko-KR')`) and is not modelled.
- NoteEditor.FormatLastSaved: the date is a number of milliseconds, so JavaScript's falsy date 0 is not distinguished. A missing date is `None`.
- The DOM (focus, `setSelectionRange`) is the `Focus` value and the pair returned by `Restore`. The restore assumes both fields are mounted.
- `Preview` (the Markdown rendering) is not part of this model.
- SettingsPanel.Panel.constructor: later changes of the owner's `settings` prop do not reach the local copy, as in `useState`.
