# anki-sync-server-rs, modelled in Dafny

anki-sync-server-rs is a self-hosted sync server for the Anki flashcard
application. Clients talk to it over HTTP at two families of endpoints:

- **collection sync.** These are the twelve methods such as `hostKey`,
  `meta`, `start` and `chunk`. They are handed to the anki library's
  backend.
- **media sync.** These are `begin`, `mediaChanges`, `uploadChanges`,
  `downloadFiles` and `mediaSanity`. The server runs them itself, against
  a per-user SQLite table `media (fname, usn, csum)` and a media folder.

A request arrives either as a GET query or as a multipart POST. It is
parsed into a map of fields, and its `data` payload is ungzipped when the
field `c` is `"1"`. It is then routed by method name. An error becomes a
bare 500 on the way out. The server also keeps sessions (cached in memory
and in a `session` table), a credential store of salted SHA-256 hashes,
and a configuration that derives its file paths from a root directory.

The model has one Dafny module per source file, plus shared value types:

| module | source |
|---|---|
| `Base` | bytes, `Result` with a `Panic` outcome, decimal and hexadecimal text, path joining |
| `Users` | `src/user.rs` |
| `Sessions` | `src/session.rs` |
| `Config` | `src/config.rs` |
| `Errors` | `src/error.rs` |
| `Http`, `SyncVersion`, `Response` | `src/response.rs` and the HTTP values it builds |
| `Request` | `src/request.rs` |
| `CollectionSync` | `src/collecction.rs` |
| `MediaTable`, `MediaFiles`, `MediaUpload`, `MediaDownload`, `Media` | `src/media.rs` |
| `Sync` | `src/sync.rs` |

Code that changes state is modelled as classes, each proved against ghost
specification functions:

- `Media.MediaManager` owns the media table (a map from file name to usn
  and checksum) and the folder (a map from file name to bytes).
- `Sessions.SessionManager` holds the session cache and the table.
- `Users.AuthDb` holds the `auth` table.
- `CollectionSync.Backend` holds the backend's collection slot.

Each Rust call ends as `Ok`, as `Err` or as `Panic`, the last one being a
failed `unwrap` or `expect`. Libraries the server calls become
function-typed parameters. These are hashing, gzip and zstd, UTF-8, file
name normalisation, zip and JSON decoding, the query parser, the anki
backend, `load_session` and the opening of the media database.

The model uses constants from the anki crate, which is not in the
repository:

- sync protocol versions 8 to 11, with zstd bodies from version 11 on;
- the header name `anki-original-size`;
- `SYNC_VERSION_10_V2_TIMEZONE` for form requests.

## Model

| member | source | states |
|---|---|---|
| Base.Decimal | src/config.rs:49-51 | `format!("{}")` of a number is a non-empty digit string without a leading zero |
| Base.DecimalRoundTrip | src/config.rs:49-51 | reading back the decimal text of a number gives the number |
| Base.DecimalInjective | src/media.rs:379 | different indices give different in-zip names |
| Base.SignedDecimal | src/collecction.rs:99 | the text of a signed timestamp starts with `-` exactly when it is negative |
| Base.Hex | src/user.rs:39 | `hex::encode` gives two lower-case hex digits per byte |
| Base.HexRoundTrip | src/user.rs:35-40 | decoding the hex text of bytes gives those bytes back |
| Base.HexInjective | src/media.rs:543 | different digests give different checksum texts |
| Base.PathJoin | src/session.rs:31-35 | `join` ends with the component and adds exactly one `/` after a directory that does not end in one |
| Base.LastIndex | src/collecction.rs:60-67 | the last occurrence of a separator, or -1 |
| Base.Segments | src/collecction.rs:60-67 | a path's non-empty segments, none holding `/` |
| Base.SegmentsJoin | src/collecction.rs:60-67 | joining a plain component adds exactly that one segment |
| Base.LastIndexIs | src/collecction.rs:60-67 | the last occurrence is the one with none after it |
| Users.CreateSalt | src/user.rs:35-40 | the salt is 16 hex digits that decode to the 8 random bytes |
| Users.CreatePassHash | src/user.rs:165-176 | 64 hex digits of SHA-256(username ++ password ++ salt), then the salt |
| Users.SaltOf | src/user.rs:188 | the salt is the last 16 characters; a shorter stored hash has none |
| Users.SaltRecovered | src/user.rs:165-176 | the salt cut off a hash made with a 16-character salt is that salt |
| Users.CheckPassword | src/user.rs:187-204 | no row or a mismatch is an authentication error; a stored hash under 16 characters panics |
| Users.PassHashAuthenticates | src/user.rs:165-204 | a hash made from fresh salt authenticates the same credentials |
| Users.WrongPasswordRefused | src/user.rs:187-204 | a password whose digest differs is refused, and so is a missing user |
| Users.LookupHash | src/user.rs:184-185 | some hash is found iff the user has a row, and it is that row's hash |
| Users.UserList | src/user.rs:141-154 | `None` for an empty table, else every stored username, each once (listed in row order; see Left out) |
| Users.ListsEachUserOnce | src/user.rs:141-154 | with unique usernames, the listing holds each stored user exactly once and no other name |
| Users.UserExists | src/user.rs:155-164 | true iff some row has that username |
| Users.SetHash | src/user.rs:49-51 | the update keeps every username and order and changes only that user's hash |
| Users.Without | src/user.rs:94-100 | the delete leaves exactly the other rows |
| Users.WithoutUnique | src/user.rs:94-100 | deleting keeps usernames unique |
| Users.WithoutAllRemoves | src/user.rs:122-126 | after `WithoutAll` deletes a list, none of those users is left and every other row is kept |
| Users.WithoutAllSubset | src/user.rs:122-126 | deleting never adds rows |
| Users.WithoutAllSnoc | src/user.rs:122-126 | deleting one more name is one more `del_user` |
| Users.LookupAppend | src/user.rs:71-73 | an inserted row for a new name is found, and names stay unique |
| Users.LookupSetHash | src/user.rs:49-51 | after the update the user's hash is the new one, and names stay unique |
| Users.AuthDb.constructor | src/user.rs:101-109 | a table with unique usernames |
| Users.AuthDb.Authenticate | src/user.rs:178-205 | succeeds iff the user exists, the stored hash is long enough, and recomputing with its salt matches it |
| Users.AuthDb.AddUserToAuthDb | src/user.rs:64-81 | insert fails with the unique-constraint SQLite error iff the name exists; on success one row is appended and the new credentials authenticate |
| Users.AuthDb.SetPasswordForUser | src/user.rs:41-56 | always `Ok`; the table becomes `Repassword`: an existing user's hash is replaced and the new password authenticates; otherwise no change |
| Users.AuthDb.DelUser | src/user.rs:94-100 | the table minus that user's rows |
| Users.AuthDb.DelUsers | src/user.rs:122-126 | the table becomes `WithoutAll` of the listed users, deleted in order; none of them remains afterwards |
| Users.AuthDb.EditUsers | src/user.rs:119-129 | outcome and final table equal `UserEdit`: too few `add` values panic untouched; a duplicate add fails untouched; otherwise the add, then the deletes, are written; too few `pass` values then panic with those writes kept; otherwise the password is set |
| Users.AuthDb.UserManage | src/user.rs:111-140 | the final table is `UserEdit`'s; success, error and panic follow `UserEdit`'s outcome; after success the listing is every name |
| Users.EditAfterDeletes | src/user.rs:119-129 | when the add is accepted, the edited table is the table after add and deletes, re-passworded when `pass` is given |
| Users.RepasswordKeeps | src/user.rs:41-56 | setting a password keeps every username in order and every other user's row |
| Users.EditRemovesDeleted | src/user.rs:119-129 | when the add is accepted, no user named in `del` is left in the edited table |
| Users.EditKeepsOthers | src/user.rs:119-129 | every row of a user neither deleted nor re-passworded survives the edit |
| Users.EditAddsUser | src/user.rs:119-129 | an accepted add of a user not deleted afterwards leaves that user in the table, with the new credentials unless `pass` targets it |
| Users.EditSetsPassword | src/user.rs:46-53 | after a successful `pass` for a user present at the end, that user's stored hash is the one made from the new password |
| Sessions.GetColPath | src/session.rs:31-35 | the collection file `collection.anki2` inside the user directory |
| Sessions.GetMdMf | src/session.rs:36-41 | the media database and the media folder in the user directory, different from each other and from the collection |
| Sessions.From | src/session.rs:51-62 | the given key, name and path, no versions, zero usns, not newer |
| Sessions.New | src/session.rs:64-85 | the key is the last 8 hex digits of SHA-256 of the random text; the rest as `from` |
| Sessions.MapSkeySession | src/session.rs:87-96 | the session iff its key is the requested one, an error otherwise |
| Sessions.RowRoundTrip | src/session.rs:150-207 | a fresh session written as a row is rebuilt by `from` unchanged |
| Sessions.SessionManager.constructor | src/session.rs:117-121 | an empty cache over the stored table |
| Sessions.SessionManager.Save | src/session.rs:150-175 | cache and table both map the host key to the session |
| Sessions.SessionManager.Load | src/session.rs:176-207 | a cache hit wins; otherwise the row is rebuilt and cached; otherwise `None` with nothing changed |
| Sessions.SessionManager.LoadFromSkey | src/session.rs:123-149 | any answer has the requested key; a cached match is returned when one exists; otherwise the table row is used |
| Sessions.SaveThenLoad | src/session.rs:123-207 | after `save(h, s)`, `load(h)` gives `s` back, `load_from_skey(s.skey)` finds a session with that key, and the table maps `h` to the session's row |
| Sessions.SavedSurvivesRestart | src/session.rs:176-207 | after a restart, a saved fresh session is rebuilt from its row |
| Config.Default | src/config.rs:16-26 | `0.0.0.0:27701`, root `.`, an encryption section with SSL off, no account |
| Config.EncryptionEnabled | src/config.rs:42-47 | true iff there is an encryption section with `ssl_enable` set |
| Config.ListenOn | src/config.rs:49-51 | the host, a colon, then the decimal port |
| Config.DataRootPath | src/config.rs:53-55 | the root followed by `/collections/` |
| Config.AuthDbPath | src/config.rs:57-59 | the root followed by `/auth.db` |
| Config.SessionDbPath | src/config.rs:61-63 | the root followed by `/session.db` |
| Config.NonEmpty | src/config.rs:113-127 | an empty value counts as absent, any other value is kept |
| Config.AccountUsername | src/config.rs:114-120 | `None` iff the username is missing or empty |
| Config.AccountPassword | src/config.rs:122-127 | `None` iff the password is missing or empty |
| Config.ListenOnSplits | src/config.rs:49-51 | the text after the last colon of the listen address reads back as the port |
| Config.PathsDistinct | src/config.rs:53-63 | the three derived paths differ, and each determines the root |
| Config.DefaultListensUnencrypted | src/config.rs:16-26 | the default listens on `0.0.0.0:27701` without SSL, with data under `./collections/` |
| Errors.ErrorResponse | src/error.rs:49-67 | 403 iff a user error, 404 iff an unknown URL, 500 otherwise; never headers or a body |
| Errors.StatusByVariant | src/error.rs:49-67 | two errors that agree on being a user error and on being an unknown URL get the same response, whatever else they carry |
| Errors.AuthenticationForbiddenSessionNot | src/error.rs:49-67 | a failed login is 403 but a session error is 500 |
| Response.MakeResponse | src/response.rs:6-15 | always 200; zstd clients get the zstd body and an `anki-original-size` header with the raw length; others get the raw body with no header |
| Response.ResponseRoundTrip | src/response.rs:6-15 | a client with the inverse decoder reads the data back for any version |
| Response.OriginalSizeReadsBack | src/response.rs:9 | the size header parses back to the length of the data |
| Request.TextOf | src/request.rs:34-41 | the text of the last chunk, `""` with no chunks; a chunk that is not UTF-8 panics |
| Request.FieldText | src/request.rs:34-41 | a field whose chunk stream fails panics; otherwise `TextOf` its chunks; never an error |
| Request.Text | src/request.rs:34-41 | the chunk loop yields `FieldText`, panicking when the stream fails |
| Request.Concat | src/request.rs:42-49 | no chunks give no bytes |
| Request.ConcatAppend | src/request.rs:42-49 | concatenation distributes over splitting the chunk list |
| Request.BytesOf | src/request.rs:42-49 | the loop yields `FieldBytes`: the chunks written into the buffer one after another, or a panic when the stream fails |
| Request.FieldBytes | src/request.rs:42-49 | `Ok` iff the chunk stream does not fail, then the concatenation of the chunks; never an error |
| Request.FieldStep | src/request.rs:62-76 | `c` sets compression to "text is not 0"; `k`/`sk` set the host key, `s` the session key, `v` the media client version; `data` stores its bytes; other names change nothing; a failing stream or bad text panics |
| Request.FoldParts | src/request.rs:61-77 | the loop is a fold of `FieldStep`; it never fails; it stops at the first stream error |
| Request.FinishData | src/request.rs:79-89 | missing or empty data becomes `{}`; compressed data is ungzipped, panicking if that fails; otherwise it is kept |
| Request.FormRequest | src/request.rs:90-100 | the form's keys, versions and data, protocol version 10 and an empty client version |
| Request.FromMultipart | src/request.rs:50-101 | a panic of the field loop is a panic; otherwise the request built from the folded form |
| Request.FoldSnoc | src/request.rs:61-77 | one more field is one more step |
| Request.LastHostKeyWins | src/request.rs:69-71 | the last `k`/`sk` field sets the host key |
| Request.LastCompressionFlagWins | src/request.rs:63-68 | the last `c` field decides compression |
| Request.BrokenStopsFold | src/request.rs:61 | fields after a stream error are ignored |
| Request.CompressedFormDelivers | src/request.rs:50-101 | a form with `c = 1` and gzipped data delivers the original data |
| Request.FromHeaderAndStream | src/request.rs:102-120 | ok iff the version is supported and the body unzstds; the header's keys and version are kept |
| Request.AsciiText | src/request.rs:175 | a visible-ASCII header value read as text, byte for byte |
| Request.BuildRequest | src/request.rs:150-196 | never an error; no peer address panics; a sync header that is not visible ASCII or valid JSON panics; a valid one gives `FromHeaderAndStream` of its value; without one, success iff the field fold and `FinishData` succeed, giving `FormRequest` of their results |
| Request.HeaderRequestsKeepVersion | src/request.rs:170-183 | a successful request with a sync header has a valid header, and keeps that header's supported protocol version and client version, with no media client version |
| Request.FormRequestsAssumeVersion10 | src/request.rs:90-100 | a successful request without a sync header has protocol version 10 and an empty client version |
| Request.ValidHeaderRequestSucceeds | src/request.rs:170-183 | a valid header with a supported version and a zstd body gives exactly the request built from the header |
| Request.HostKey | src/request.rs:226-256 | never panics; errors are authentication errors; an unknown user fails; success returns a stored key of that user |
| Request.HostKeyFirstMatch | src/request.rs:234-249 | only the first user of that name is tried; success iff its recomputed hash equals its key |
| Request.RefusedLoginForbidden | src/request.rs:226-256 | a refused login is answered 403 |
| CollectionSync.MapSyncMethod | src/collecction.rs:42-58 | a method iff the name is one of `OPERATIONS` |
| CollectionSync.MethodName | src/collecction.rs:27-40 | every method has a name in `OPERATIONS` |
| CollectionSync.MethodNameMaps | src/collecction.rs:27-58 | `map_sync_method` maps each method's name back to it |
| CollectionSync.MapSyncMethodNamed | src/collecction.rs:42-58 | a name reaches a method only as that method's name |
| CollectionSync.Components | src/collecction.rs:60-67 | a path's normal components, none empty, `.` or holding `/` |
| CollectionSync.NormalOnly | src/collecction.rs:60-67 | the kept components are non-empty, not `.` and hold no `/` |
| CollectionSync.ExtractUsrname | src/collecction.rs:60-67 | the parent directory's name; panics when there is no such normal parent |
| CollectionSync.ExtractUsrnameRoundTrip | src/collecction.rs:60-67 | any file in `<root>/<user>` gives back `<user>` |
| CollectionSync.GenHostkey | src/collecction.rs:92-103 | 32 hex digits of MD5 of `HostkeyInput`, the text `username:secs:rand` |
| CollectionSync.HostkeyInputDetermines | src/collecction.rs:100 | the digested `HostkeyInput` string determines user, time and random text |
| CollectionSync.SignedDecimalColonFree | src/collecction.rs:99-100 | a timestamp's text has no colon |
| CollectionSync.SignedDecimalInjective | src/collecction.rs:99-100 | different timestamps give different texts |
| CollectionSync.ReprocessDataFrame | src/collecction.rs:128-144 | only a full upload writes the data, to `collection.anki2.tmp`, and hands on that path; a write failure is an I/O error |
| CollectionSync.TmpFileOwner | src/collecction.rs:60-67 | the upload file `collection.anki2.tmp` in `<root>/<user>` is owned, by `extract_usrname`, by that user |
| CollectionSync.UploadFileBesideCollection | src/collecction.rs:128-144 | the upload file is the collection path plus `.tmp` |
| CollectionSync.UserDirectoryPath | src/collecction.rs:81-82 | a user directory path is non-empty and does not end in `/` |
| CollectionSync.Backend.constructor | src/collecction.rs:173-201 | a backend with the given slot |
| CollectionSync.Backend.ReopenCol | src/collecction.rs:173-201 | only `meta` touches the slot: the same user's collection is kept; otherwise the session's collection is opened, or the error is returned |
| CollectionSync.ColPathOwner | src/collecction.rs:60-67 | the collection file of a session in `<root>/<user>` is owned, by `extract_usrname`, by that user |
| CollectionSync.MetaLeavesOwnCollection | src/collecction.rs:173-201 | a `meta` call that `reopen_col` answers with success leaves in the slot a collection owned by the session's user |
| CollectionSync.RespData | src/collecction.rs:206-246 | the backend's error wins; then `hostKey` gives the host key data, `upload` gives `OK`, `download` gives the file's bytes, and anything else the backend output |
| MediaTable.ChangeOf | src/media.rs:443 | a changes row: name, usn, and the checksum or `""` when null |
| MediaTable.MaxUsn | src/media.rs:471-479 | the greatest usn in the table, 0 when empty |
| MediaTable.LastUsnUnique | src/media.rs:471-479 | the last usn is unique |
| MediaTable.Reversed | src/media.rs:164-165 | the same rows in the opposite order |
| MediaTable.PartialBatchStart | src/media.rs:437-444 | no rows taken yet is a valid start of the query |
| MediaTable.PartialBatchStep | src/media.rs:437-444 | taking the newest remaining row continues the `order by usn desc` list |
| MediaTable.PartialBatchDone | src/media.rs:432-448 | a list of `limit` rows (all rows for a negative limit) is an `IsChangeBatch` answer of the query |
| MediaTable.ReversedAscending | src/media.rs:162-165 | a newest-first list, reversed, is oldest first |
| MediaTable.DistinctNamesCover | src/media.rs:437-444 | a full-length answer holds every row |
| MediaTable.DistinctNamesBound | src/media.rs:437-444 | an answer has at most as many rows as the table |
| MediaTable.DescendingBelowTop | src/media.rs:437-444 | with distinct usns, the i-th row's usn is at most the last usn minus i |
| MediaTable.ChangesCoverNewer | src/media.rs:432-448 | with distinct usns, the limit `server - client` returns every row newer than the client |
| MediaTable.ReversedBatchCovers | src/media.rs:151-175 | with distinct usns, every row newer than the client appears in the reversed batch |
| MediaTable.ChangesMissRepeatedUsn | src/media.rs:432-448 | with two rows at usn 1 and the client at 0, `limit 1` omits one of them |
| MediaTable.MediaCount | src/media.rs:451-455 | the rows with a checksum; equal to the table size iff no row is a deletion |
| MediaTable.RecordsAddLastWins | src/media.rs:481-487 | a name written by `RecordsAddAll` holds its last record's usn and checksum |
| MediaTable.RecordsAddUntouched | src/media.rs:481-487 | names no record carries are unchanged |
| MediaTable.Without | src/media.rs:312-316 | the map without the listed names, other entries unchanged |
| MediaTable.DeleteAllSnoc | src/media.rs:491-503 | `DeleteAll` of one more name is one more `DeleteOne` loop step |
| MediaTable.WithoutSnoc | src/media.rs:491-503 | removing one more file |
| MediaTable.DeleteOneRaises | src/media.rs:498-500 | marking an existing row deleted raises the last usn by exactly one |
| MediaTable.DeleteAllEffect | src/media.rs:491-503 | after `DeleteAll` no row is added or removed; unlisted rows are unchanged; listed rows get a null checksum and a usn above the old last usn |
| MediaTable.DeleteUsnsConsecutive | src/media.rs:491-503 | distinct existing names get usns last+1, last+2, … in order |
| MediaUpload.SplitManifestRemoves | src/media.rs:252-269 | in `SplitManifest`, a name is deleted iff some manifest line has no id or an empty id |
| MediaUpload.SplitManifestLastIdWins | src/media.rs:255-264 | an id maps to the name of its last manifest line |
| MediaUpload.SplitManifestIds | src/media.rs:255-264 | only non-empty ids from the manifest are mapped |
| MediaUpload.AddFile | src/media.rs:514-545 | the record is (normalised name, usn, hex SHA-1); a normal name is written under itself, another name through the unique-name helper |
| MediaUpload.AddFileRecordReadsBack | src/media.rs:514-545 | the checksum is 40 hex digits that decode to the SHA-1; a normal name's file holds the data; no file is lost |
| MediaUpload.PayloadCount | src/media.rs:274-298 | the entries that are not `_meta` |
| MediaUpload.AddLoopEffect | src/media.rs:272-298 | `AddLoop` stops early iff a payload entry has no id in the manifest; otherwise one record per payload entry with usns last+1, last+2, … |
| MediaUpload.FindMeta | src/media.rs:243-245 | the first `_meta` entry, or none when there is none |
| MediaUpload.AdoptFailureKeepsTable | src/media.rs:236-310 | a failed `Adopt` (the whole upload: unzip, `SplitManifest`, `AddLoop`, deletes) never changes the table |
| MediaUpload.AdoptFailsOnUnknownEntry | src/media.rs:274-290 | the upload succeeds iff every payload entry has an id in the manifest, and otherwise is `ValueNotFound` |
| MediaUpload.AdoptOutcome | src/media.rs:299-309 | success answers (payload entries + removals, the last usn read after the loop); the new records have usns last+1, … |
| MediaUpload.UploadUsnCollision | src/media.rs:272-309 | an upload that adds `b.png` and deletes `a.png` on a table at usn 5 gives both usn 6 |
| MediaDownload.Trichotomy | src/media.rs:355-387 | every requested name is exactly one of missing, archived or rejected |
| MediaDownload.ArchivedUpToValid | src/media.rs:340-388 | the reference archive holds accepted files at their request indices |
| MediaDownload.ZipStepKeeps | src/media.rs:340-388 | one loop step keeps the scan invariant |
| MediaDownload.AcceptedStepKeeps | src/media.rs:363-381 | archiving a file keeps the invariant |
| MediaDownload.RejectedStepKeeps | src/media.rs:355-377 | rejecting a file keeps the invariant |
| MediaDownload.MissingStepKeeps | src/media.rs:382-387 | a missing file keeps the invariant and becomes the manifest's `""` entry, replacing any earlier one |
| MediaDownload.ZipScanKeeps | src/media.rs:340-388 | the scan ends with all names examined or over the byte budget |
| MediaDownload.ZipScanResult | src/media.rs:327-408 | `ZipScan`, the fold of `ZipStep`: the archive is the accepted files among the names examined; the budget is exceeded only by the last file; the manifest's keys are exactly the accepted indices, plus `""` iff a missing name was examined; each index maps to its name and `""` to the last missing name; the rejected names are the examined rejected names |
| MediaDownload.LastMissing | src/media.rs:382-387 | the index of the last missing name among those examined, none iff no examined name is missing |
| MediaDownload.RejectedUpToMembers | src/media.rs:389-395 | a row is removed iff its name was examined and rejected |
| Media.MediaChangesCoverNewer | src/media.rs:151-175 | with distinct usns, a client behind the server gets every newer row |
| Media.SanityAnswer | src/media.rs:176-188 | a bad body is a JSON error; otherwise `OK` iff the client's count equals the rows with a checksum |
| Media.UploadAnswer | src/media.rs:115-126 | the adoption's (count, last usn) as the reply, or its error |
| Media.MediaManager.constructor | src/media.rs:410-415 | a manager over the given table and folder |
| Media.MediaManager.LastUsn | src/media.rs:471-479 | the greatest usn, 0 for an empty table |
| Media.MediaManager.PickNewest | src/media.rs:437 | a remaining row with the greatest usn |
| Media.MediaManager.Changes | src/media.rs:432-448 | an `IsChangeBatch` answer of `order by usn desc limit server-client` |
| Media.MediaManager.Begin | src/media.rs:100-110 | the session key and the last usn |
| Media.MediaManager.MediaChanges | src/media.rs:151-175 | a bad body is a JSON error; a client behind (or at 0) gets the change batch oldest first, otherwise nothing |
| Media.MediaManager.MediaSanity | src/media.rs:176-188 | the sanity answer on the current table |
| Media.MediaManager.AddFile | src/media.rs:514-545 | the folder and the record as `MediaUpload.AddFile` states |
| Media.MediaManager.RecordsAdd | src/media.rs:481-487 | the table becomes `RecordsAddAll`: each record inserted or replaced in turn; the folder unchanged |
| Media.MediaManager.Delete | src/media.rs:491-503 | the files removed, and the table becomes `DeleteAll`: rows marked deleted with the last usn re-read each time |
| Media.MediaManager.RemoveEntry | src/media.rs:312-316 | the table without that row; the folder unchanged |
| Media.MediaManager.AdoptMediaChangesFromZip | src/media.rs:236-310 | the outcome, table and folder equal `Adopt` (`SplitManifest`, then the `AddLoop`, then the deletes) |
| Media.MediaManager.ZipFiles | src/media.rs:327-408 | the archive and manifest of `ZipScan`; the table without the rejected names |
| Media.MediaManager.UploadChanges | src/media.rs:115-126 | the reply and new state of `Adopt` |
| Media.MediaManager.DownloadFiles | src/media.rs:127-132 | a bad body is a JSON error with nothing changed; otherwise the zip reply |
| Media.MediaManager.MediaSync | src/media.rs:192-206 | satisfies `MediaOutcome`: dispatch by name; only `uploadChanges` and `downloadFiles` change the table, only `uploadChanges` the folder; an unknown name is an empty 200 |
| Sync.Decode | src/sync.rs:25-49 | ungzips only when `c` is exactly `1` and the data is non-empty; a gzip failure is an I/O error; otherwise the data is unchanged |
| Sync.DecodeRoundTrip | src/sync.rs:25-49 | gzipped data flagged `1` decodes to the original |
| Sync.JoinValuesAppend | src/sync.rs:105-107 | `JoinValues` (joining with `""`) splits over concatenation |
| Sync.ParseGet | src/sync.rs:84-110 | a missing path or an empty query is a `ParseGET` error; otherwise each query key maps to its values joined |
| Sync.ParseGetRequest | src/sync.rs:84-110 | the key-by-key loop yields `ParseGet` |
| Sync.ParsePayload | src/sync.rs:51-72 | the field loop yields `PayloadFrom`, the payload map |
| Sync.PayloadOkIffNamed | src/sync.rs:51-72 | `PayloadFrom` succeeds iff every field is named and readable; a failure is a multipart error |
| Sync.PayloadLastFieldWins | src/sync.rs:55-70 | a name maps to the chunks of its last field |
| Sync.PayloadUntouched | src/sync.rs:55-70 | a name no field carries is not added |
| Sync.ParseRequestMethod | src/sync.rs:112-123 | yields `ParseRequest`: GET requests are parsed from the query; every other method from the multipart body |
| Sync.OperationsDisjoint | src/sync.rs:186-199 | no name is both a collection and a media method |
| Sync.RouteOf | src/sync.rs:186-205 | collection iff in `OPERATIONS`, media iff in `MOPERATIONS`, else not found |
| Sync.MediaResponse | src/media.rs:100-206 | 200 for every reply; errors pass through |
| Sync.SyncApp | src/sync.rs:167-206 | satisfies `SyncAppOutcome`: parse errors end the request; the payload is decoded before routing; then the collection handler, media sync on the user's media, or 404 |
| Sync.NoFail | src/sync.rs:139-165 | never an error: an error becomes a bare 500; any other outcome passes through |
| Sync.SyncAppNoFail | src/sync.rs:139-165 | the outcome of `sync_app` with errors turned into 500 |
| Sync.BadGzipIsServerError | src/sync.rs:179-181 | bad gzip data flagged `1` gives a 500, even for an unknown method name |
| Sync.UnknownNameNotFound | src/sync.rs:204 | a well-formed request for an unknown name is answered 404 |

## Left out

- I/O failures of SQLite, the file system and zip writing are not modelled. Writes succeed, except where an explicit failure flag models one. Library error messages are replaced by constants.
- The internals of JSON, zip, gzip, zstd, SHA-1, SHA-256, MD5, URL parsing and file name normalisation are parameters.
- `i32` and `usize` overflow are not modelled. Usns and counts are unbounded integers, and the `lastusn as usize` cast in `upload_changes` is taken as the identity.
- Mutex locking and concurrency are not modelled, and neither are actix's middleware and async plumbing.
- The Apple-only NFC check in `zip_files` is not modelled.
- `create_dir_all` and directory creation (`create_user_dir`, `Session::new` creating the user path, the session table created on first use) are left out.
- The content of `create_media.sql` is not part of this model.
- `MediaManager::new` becomes the `openMedia` parameter. `load_session` (not in this repository's `session.rs`) becomes `loadSession`.
- `CollectionManager::collection_sync`, `operation_hostkey` and `operate_hostkey_no_fail` call backend APIs that are not shown. They become the `collectionSync` parameter, while their parts `reprocess_data_frame`, `reopen_col` and `resp_data` are modelled.
- `create_auth_db`, `create_user_from_conf`, `Config::from_file`, `to_string` and `encryption_config` are TOML, file and schema plumbing.
- Paths are modelled by their join semantics. The media folder is keyed by file name.
- Hash-map iteration order is not modelled. `load_from_skey` may return any cached match, `changes` may list rows with equal usns in any order, and the GET map is built key by key.
- An archive with two `_meta` entries is read through the first one.
- Media.MediaManager.ZipFiles: the serialised zip bytes are the `writeZip` parameter. The contract states the entries and the manifest, not the archive encoding.
- Sync.MediaResponse: the JSON serialisation of replies is the `json` parameter. The contract states the status and error passing, not the encoded body.
- Users.AuthDb.UserManage: the listing is returned instead of printed, in row order (see the next line).
- Users.UserList: `SELECT username FROM auth` has no `ORDER BY`, so SQLite may give the names in any order (typically by the primary key). The model lists them in row (insertion) order; only the set of names is promised by the source.
- `Session::col_path` and `Session::username`, called from `collecction.rs` but not defined in this repository's `session.rs`, are taken as `get_col_path` (`Sessions.GetColPath`) and the session's `name` field.
