/** The media sync engine (`src/media.rs`): a manager owning one user's media
    table and media folder, and the five media sync methods. */
module Media {
  import opened Base
  import opened MediaTable
  import opened MediaFiles
  import opened MediaUpload
  import opened MediaDownload
  import opened Errors
  import Sessions

  /** `MOPERATIONS`: the media sync method names. */
  const MOPERATIONS: seq<string> := ["begin", "mediaChanges", "mediaSanity", "uploadChanges", "downloadFiles"]

  /** The JSON replies of the media methods, before serialisation. */
  datatype MediaReply =
    | BeginReply(syncKey: string, usn: int)               // `SyncBeginResult`
    | UploadReply(processed: nat, lastUsn: int)           // `UploadChangesResult`
    | ChangesReply(records: seq<Change>)                  // `MediaRecordResult`
    | SanityReply(status: string)                         // `FinalizeResponse`
    | ZipReply(entries: seq<Archived>, meta: map<string, string>)  // the zip body
    | EmptyOk                                             // `Ok().finish()`

  const BAD_REQUEST := "malformed request body"

  /** The answers `mediaChanges` may give on `db`: a malformed body is a
      JSON error; a client behind the server, or at usn 0, gets the change
      batch limited to `server - client` rows, oldest first; any other client
      gets no rows. The rows are the reversal of an answer of the limited
      query. */
  ghost predicate ChangesAnswer(lib: MediaLib, db: Table, data: Bytes, r: Result<MediaReply, AppError>)
  {
    match lib.decodeLastUsn(data)
    case None => r == Err(JsonParsing(BAD_REQUEST))
    case Some(client) => r.Ok? && BatchReply(db, client, r.value)
  }

  /** The reply to a client at usn `client`. */
  ghost predicate BatchReply(db: Table, client: int, reply: MediaReply)
  {
    var server := MaxUsn(db);
    && reply.ChangesReply?
    && (client < server || client == 0 ==>
          exists batch :: IsChangeBatch(db, server - client, batch) && reply.records == Reversed(batch))
    && (!(client < server || client == 0) ==> reply.records == [])
  }

  /** When usns never repeat, a client behind the server receives every row
      changed after its usn, oldest first. */
  lemma MediaChangesCoverNewer(lib: MediaLib, db: Table, data: Bytes, r: Result<MediaReply, AppError>)
    requires ChangesAnswer(lib, db, data, r) && DistinctUsns(db)
    requires lib.decodeLastUsn(data).Some? && lib.decodeLastUsn(data).value < MaxUsn(db)
    ensures r.Ok? && r.value.ChangesReply?
    ensures forall k :: k in db && db[k].usn > lib.decodeLastUsn(data).value ==>
              exists i :: 0 <= i < |r.value.records| && r.value.records[i] == ChangeOf(k, db[k])
  {
    var client := lib.decodeLastUsn(data).value;
    assert BatchReply(db, client, r.value);
    var batch: seq<Change> :| IsChangeBatch(db, MaxUsn(db) - client, batch) && r.value.records == Reversed(batch);
    ReversedBatchCovers(db, client, batch);
  }

  /** The answer of `mediaSanity`: "OK" iff the client holds as many files
      as the table has live rows. */
  function SanityAnswer(lib: MediaLib, db: Table, data: Bytes): (r: Result<MediaReply, AppError>)
    ensures lib.decodeLocal(data).None? <==> r == Err(JsonParsing(BAD_REQUEST))
    ensures lib.decodeLocal(data).Some? ==>
              && r.Ok? && r.value.SanityReply?
              && (r.value.status == "OK" <==> MediaCount(db) == lib.decodeLocal(data).value)
              && (r.value.status == "OK" || r.value.status == "FAILED")
  {
    match lib.decodeLocal(data)
    case None => Err(JsonParsing(BAD_REQUEST))
    case Some(local) => Ok(SanityReply(if MediaCount(db) == local then "OK" else "FAILED"))
  }

  /** `upload_changes`: the adoption's outcome as a reply. */
  function UploadAnswer(res: Result<(nat, int), AppError>): (r: Result<MediaReply, AppError>)
    ensures res.Ok? <==> r.Ok?
    ensures res.Ok? ==> r.value == UploadReply(res.value.0, res.value.1)
    ensures res.Err? <==> r.Err?
    ensures res.Err? ==> r.error == res.error
  {
    match res
    case Ok((count, last)) => Ok(UploadReply(count, last))
    case Err(e) => Err(e)
    case Panic => Panic
  }

  /** What `media_sync` may answer for method `name` and leave behind as
      table `db1` and folder `folder1`, starting from `db` and `folder`. */
  ghost predicate MediaOutcome(lib: MediaLib, name: string, session: Sessions.Session, db: Table, folder: Folder,
                               data: Bytes, r: Result<MediaReply, AppError>, db1: Table, folder1: Folder)
  {
    if name == "begin" then
      r == Ok(BeginReply(session.skey, MaxUsn(db))) && db1 == db && folder1 == folder
    else if name == "uploadChanges" then
      var a := Adopt(lib, db, folder, data);
      r == UploadAnswer(a.result) && db1 == a.db && folder1 == a.folder
    else if name == "mediaChanges" then
      ChangesAnswer(lib, db, data, r) && db1 == db && folder1 == folder
    else if name == "downloadFiles" then
      folder1 == folder &&
      match lib.decodeFiles(data)
      case None => r == Err(JsonParsing(BAD_REQUEST)) && db1 == db
      case Some(files) =>
        var st := ZipScan(lib, folder, files, ZIP_START);
        r == Ok(ZipReply(st.entries, st.meta)) && db1 == Without(db, st.invalid)
    else if name == "mediaSanity" then
      r == SanityAnswer(lib, db, data) && db1 == db && folder1 == folder
    else
      r == Ok(EmptyOk) && db1 == db && folder1 == folder
  }

  class MediaManager {
    /** The `media` table of the media database. */
    var db: Table
    /** The media folder. */
    var folder: Folder

    constructor (db: Table, folder: Folder)
      ensures this.db == db && this.folder == folder
    {
      this.db := db;
      this.folder := folder;
    }

    /** `last_usn`: the greatest usn in the table, 0 for an empty table. */
    method LastUsn() returns (u: int)
      ensures u == MaxUsn(db)
    {
      var todo := db.Keys;
      u := 0;
      var seen := false;
      ghost var top: string := "";
      while todo != {}
        invariant todo <= db.Keys
        invariant !seen ==> todo == db.Keys && u == 0
        invariant seen ==> top in db && top !in todo && db[top].usn == u
        invariant seen ==> forall k :: k in db && k !in todo ==> db[k].usn <= u
        decreases |todo|
      {
        var k :| k in todo;
        if !seen || db[k].usn > u {
          u := db[k].usn;
          top := k;
        }
        seen := true;
        todo := todo - {k};
      }
      LastUsnUnique(db, u);
    }

    /** A name among `remaining` whose row has the greatest usn. */
    method PickNewest(remaining: set<string>) returns (k: string)
      requires remaining != {} && remaining <= db.Keys
      ensures k in remaining && forall j :: j in remaining ==> db[j].usn <= db[k].usn
    {
      k :| k in remaining;
      var todo := remaining - {k};
      while todo != {}
        invariant todo <= remaining && k in remaining && k !in todo
        invariant forall j :: j in remaining && j !in todo ==> db[j].usn <= db[k].usn
        decreases |todo|
      {
        var j :| j in todo;
        if db[j].usn > db[k].usn {
          k := j;
        }
        todo := todo - {j};
      }
    }

    /** `changes(client, server)`: the rows of `order by usn desc limit
        server - client`, a null checksum reported as "". */
    method Changes(clientLastUsn: int, serverLastUsn: int) returns (v: seq<Change>)
      ensures IsChangeBatch(db, serverLastUsn - clientLastUsn, v)
    {
      var limit := serverLastUsn - clientLastUsn;
      var want := if limit < 0 || limit >= |db| then |db| else limit;
      var remaining := db.Keys;
      v := [];
      PartialBatchStart(db);
      while |v| < want
        invariant PartialBatch(db, remaining, v) && |v| <= want
        decreases want - |v|
      {
        var k := PickNewest(remaining);
        PartialBatchStep(db, remaining, v, k);
        v := v + [ChangeOf(k, db[k])];
        remaining := remaining - {k};
      }
      PartialBatchDone(db, limit, remaining, v);
    }

    /** `begin`: the session key and the last usn. */
    method Begin(session: Sessions.Session) returns (r: MediaReply)
      ensures r == BeginReply(session.skey, MaxUsn(db))
    {
      var u := LastUsn();
      r := BeginReply(session.skey, u);
    }

    /** `media_changes`: the change batch, oldest first, for a client behind
        the server or at usn 0; the table is only read. */
    method MediaChanges(lib: MediaLib, data: Bytes) returns (r: Result<MediaReply, AppError>)
      ensures ChangesAnswer(lib, db, data, r)
      ensures r.Ok? ==> forall i, j :: 0 <= i < j < |r.value.records| ==> r.value.records[i].1 <= r.value.records[j].1
    {
      var req := lib.decodeLastUsn(data);
      if req.None? {
        return Err(JsonParsing(BAD_REQUEST));
      }
      var client := req.value;
      var server := LastUsn();
      if client < server || client == 0 {
        var changes := Changes(client, server);
        var records := Reversed(changes);
        ReversedAscending(changes);
        r := Ok(ChangesReply(records));
      } else {
        r := Ok(ChangesReply([]));
      }
    }

    /** `media_sanity`: compares the live row count with the client's. */
    method MediaSanity(lib: MediaLib, data: Bytes) returns (r: Result<MediaReply, AppError>)
      ensures r == SanityAnswer(lib, db, data)
    {
      var req := lib.decodeLocal(data);
      if req.None? {
        return Err(JsonParsing(BAD_REQUEST));
      }
      var count := MediaCount(db);
      r := Ok(SanityReply(if count == req.value then "OK" else "FAILED"));
    }

    /** `add_file`: writes the data into the folder and returns its record;
        the table is not touched. */
    method AddFile(lib: MediaLib, fname: string, data: Bytes, usn: int) returns (rec: MediaRecord)
      modifies this
      ensures var a := MediaUpload.AddFile(lib, old(folder), fname, data, usn);
              folder == a.folder && rec == a.rec && db == old(db)
    {
      var sha1 := lib.sha1(data);
      var normalized := lib.normalize(fname);
      if normalized.Borrowed? {
        folder := folder[fname := data];
      } else {
        var newName := lib.addUniquely(folder, fname, data, sha1);
        folder := folder[newName := data];
      }
      rec := MediaRecord(NormalizedName(lib, fname), usn, Hex(sha1));
    }

    /** `records_add`: inserts or replaces each record's row. */
    method RecordsAdd(adds: seq<MediaRecord>)
      modifies this
      ensures db == RecordsAddAll(old(db), adds) && folder == old(folder)
    {
      for i := 0 to |adds|
        invariant db == RecordsAddAll(old(db), adds[..i]) && folder == old(folder)
      {
        assert adds[..i + 1][..i] == adds[..i];
        db := db[adds[i].fname := RowOf(adds[i])];
      }
      assert adds[..|adds|] == adds;
    }

    /** `delete`: removes each file from the folder and marks its row
        deleted with the then last usn plus one. */
    method Delete(rms: seq<string>)
      modifies this
      ensures db == DeleteAll(old(db), rms) && folder == Without(old(folder), rms)
    {
      for i := 0 to |rms|
        invariant db == DeleteAll(old(db), rms[..i]) && folder == Without(old(folder), rms[..i])
      {
        var name := rms[i];
        assert rms[..i + 1] == rms[..i] + [name];
        DeleteAllSnoc(old(db), rms[..i], name);
        WithoutSnoc(old(folder), rms[..i], name);
        if name in folder {
          folder := folder - {name};
        }
        var usn := LastUsn();
        usn := usn + 1;
        if name in db {
          db := db[name := MediaRow(usn, None)];
        }
      }
      assert rms[..|rms|] == rms;
    }

    /** `remove_entry`: deletes the row of that name, if any. */
    method RemoveEntry(fname: string)
      modifies this
      ensures db == Without(old(db), [fname]) && folder == old(folder)
    {
      db := db - {fname};
    }

    /** `adopt_media_changes_from_zip`, step for step as `Adopt` states it. */
    method AdoptMediaChangesFromZip(lib: MediaLib, zipData: Bytes) returns (r: Result<(nat, int), AppError>)
      modifies this
      ensures Adoption(r, db, folder) == Adopt(lib, old(db), old(folder), zipData)
    {
      var archive := lib.unzip(zipData);
      if archive.None? {
        return Err(ZipParsing(NOT_A_ZIP));
      }
      var entries := archive.value;
      var metaFile := FindMeta(entries);
      if metaFile.None? {
        return Panic;
      }
      var manifest := lib.decodeManifest(metaFile.value);
      if manifest.None? {
        return Err(JsonParsing(BAD_MANIFEST));
      }
      var d := manifest.value;
      var removes: seq<string> := [];
      var fmap: map<string, string> := map[];
      for i := 0 to |d|
        invariant Manifest(removes, fmap) == SplitManifest(d[..i])
      {
        assert d[..i + 1][..i] == d[..i];
        var fname := d[i].0;
        var zipName := d[i].1;
        if zipName.Some? {
          if zipName.value == "" {
            removes := removes + [fname];
          } else {
            fmap := fmap[zipName.value := fname];
          }
        } else {
          removes := removes + [fname];
        }
      }
      assert d[..|d|] == d;
      var usn := LastUsn();
      var adds: seq<MediaRecord> := [];
      ghost var run := AddLoop(lib, fmap, entries, 0, AddState(folder, adds, usn));
      for i := 0 to |entries|
        invariant run == AddLoop(lib, fmap, entries, i, AddState(folder, adds, usn))
        invariant db == old(db)
      {
        var name := entries[i].0;
        if name == META {
          continue;
        }
        if name !in fmap {
          return Err(ValueNotFound(MissingIdMessage(name)));
        }
        AddLoopStep(lib, fmap, entries, i, folder, adds, usn);
        usn := usn + 1;
        var rec := AddFile(lib, fmap[name], entries[i].1, usn);
        adds := adds + [rec];
      }
      var count := |adds| + |removes|;
      var lastUsn := LastUsn();
      if removes != [] {
        Delete(removes);
      }
      if adds != [] {
        RecordsAdd(adds);
      }
      return Ok((count, lastUsn));
    }

    /** `zip_files`: archives the requested files within the byte budget,
        then removes the rows of the rejected ones. */
    method ZipFiles(lib: MediaLib, files: seq<string>) returns (entries: seq<Archived>, meta: map<string, string>)
      modifies this
      ensures var st := ZipScan(lib, old(folder), files, ZIP_START);
              entries == st.entries && meta == st.meta
              && db == Without(old(db), st.invalid) && folder == old(folder)
    {
      var acc: nat := 0;
      entries, meta := [], map[];
      var invalid: seq<string> := [];
      var idx := 0;
      while idx < |files|
        invariant idx <= |files|
        invariant ZipScan(lib, folder, files, ZIP_START) == ZipScan(lib, folder, files, ZipState(acc, entries, meta, invalid, idx))
        decreases |files| - idx
      {
        if acc > SYNC_MAX_BYTES {
          break;
        }
        var file := files[idx];
        if lib.unreadable(folder, file) {
          invalid := invalid + [file];
          idx := idx + 1;
          continue;
        }
        if file in folder {
          var data := folder[file];
          if lib.normalize(file).Owned? || |data| == 0 || |data| > SYNC_SINGLE_FILE_MAX_BYTES {
            invalid := invalid + [file];
            idx := idx + 1;
            continue;
          }
          acc := acc + |data|;
          entries := entries + [Archived(idx, data)];
        }
        var inZipName := if file in folder then Decimal(idx) else "";
        meta := meta[inZipName := file];
        idx := idx + 1;
      }
      assert ZipScan(lib, folder, files, ZIP_START) == ZipState(acc, entries, meta, invalid, idx);
      for i := 0 to |invalid|
        invariant db == Without(old(db), invalid[..i]) && folder == old(folder)
      {
        assert invalid[..i + 1] == invalid[..i] + [invalid[i]];
        RemoveEntry(invalid[i]);
      }
      assert invalid[..|invalid|] == invalid;
    }

    /** `upload_changes`. */
    method UploadChanges(lib: MediaLib, data: Bytes) returns (r: Result<MediaReply, AppError>)
      modifies this
      ensures var a := Adopt(lib, old(db), old(folder), data);
              r == UploadAnswer(a.result) && db == a.db && folder == a.folder
    {
      var res := AdoptMediaChangesFromZip(lib, data);
      r := UploadAnswer(res);
    }

    /** `download_files`: a malformed request is a JSON error. */
    method DownloadFiles(lib: MediaLib, data: Bytes) returns (r: Result<MediaReply, AppError>)
      modifies this
      ensures lib.decodeFiles(data).None? ==> r == Err(JsonParsing(BAD_REQUEST)) && db == old(db) && folder == old(folder)
      ensures lib.decodeFiles(data).Some? ==>
                var st := ZipScan(lib, old(folder), lib.decodeFiles(data).value, ZIP_START);
                r == Ok(ZipReply(st.entries, st.meta)) && db == Without(old(db), st.invalid) && folder == old(folder)
    {
      var req := lib.decodeFiles(data);
      if req.None? {
        return Err(JsonParsing(BAD_REQUEST));
      }
      var entries, meta := ZipFiles(lib, req.value);
      r := Ok(ZipReply(entries, meta));
    }

    /** `media_sync`: dispatch on the method name; an unknown name is a bare
        200 and changes nothing. */
    method MediaSync(lib: MediaLib, name: string, session: Sessions.Session, data: Bytes) returns (r: Result<MediaReply, AppError>)
      modifies this
      ensures MediaOutcome(lib, name, session, old(db), old(folder), data, r, db, folder)
      ensures name != "uploadChanges" && name != "downloadFiles" ==> db == old(db)
      ensures name != "uploadChanges" ==> folder == old(folder)
      ensures name !in MOPERATIONS ==> r == Ok(EmptyOk)
    {
      if name == "begin" {
        var reply := Begin(session);
        r := Ok(reply);
      } else if name == "uploadChanges" {
        r := UploadChanges(lib, data);
      } else if name == "mediaChanges" {
        r := MediaChanges(lib, data);
      } else if name == "downloadFiles" {
        r := DownloadFiles(lib, data);
      } else if name == "mediaSanity" {
        r := MediaSanity(lib, data);
      } else {
        r := Ok(EmptyOk);
      }
    }
  }
}
