/** What `uploadChanges` does to the server (`adopt_media_changes_from_zip`
    in `src/media.rs`), stated as functions of the table, the folder and the
    uploaded archive. */
module MediaUpload {
  import opened Base
  import opened MediaTable
  import opened MediaFiles
  import opened Errors

  // ------------------------------------------------------------ manifest

  /** The manifest split into the names to delete (in manifest order, with
      repeats) and the map from archive id to file name. */
  datatype Manifest = Manifest(removes: seq<string>, fmap: map<string, string>)

  /** A manifest line with no id, or the empty id, asks for a deletion. */
  predicate IsRemoval(e: ManifestEntry)
  {
    e.1.None? || e.1.value == ""
  }

  /** The split after reading the manifest lines in order. */
  function SplitManifest(d: seq<ManifestEntry>): (m: Manifest)
    decreases |d|
  {
    if d == [] then Manifest([], map[])
    else
      var m := SplitManifest(d[..|d| - 1]);
      var e := d[|d| - 1];
      if IsRemoval(e) then Manifest(m.removes + [e.0], m.fmap)
      else Manifest(m.removes, m.fmap[e.1.value := e.0])
  }

  /** A name is on the removal list iff some line deletes it. */
  lemma {:induction false} SplitManifestRemoves(d: seq<ManifestEntry>, x: string)
    ensures x in SplitManifest(d).removes <==> exists i :: 0 <= i < |d| && IsRemoval(d[i]) && d[i].0 == x
    decreases |d|
  {
    if d != [] {
      var n := |d| - 1;
      SplitManifestRemoves(d[..n], x);
      if exists i :: 0 <= i < |d| && IsRemoval(d[i]) && d[i].0 == x {
        var i :| 0 <= i < |d| && IsRemoval(d[i]) && d[i].0 == x;
        if i < n { assert d[..n][i] == d[i]; }
      }
      if exists i :: 0 <= i < n && IsRemoval(d[..n][i]) && d[..n][i].0 == x {
        var i :| 0 <= i < n && IsRemoval(d[..n][i]) && d[..n][i].0 == x;
        assert d[i] == d[..n][i];
      }
    }
  }

  /** An id is mapped iff some line carries it, and it maps to the file name
      of the last such line. */
  lemma {:induction false} SplitManifestLastIdWins(d: seq<ManifestEntry>, j: nat)
    requires j < |d| && !IsRemoval(d[j])
    requires forall i :: j < i < |d| ==> d[i].1 != d[j].1
    ensures d[j].1.value in SplitManifest(d).fmap
    ensures SplitManifest(d).fmap[d[j].1.value] == d[j].0
    decreases |d|
  {
    var n := |d| - 1;
    if j < n {
      forall i | j < i < n ensures d[..n][i].1 != d[..n][j].1 {
        assert d[..n][i] == d[i];
      }
      assert d[..n][j] == d[j];
      SplitManifestLastIdWins(d[..n], j);
    }
  }

  /** Only ids some line carries are mapped. */
  lemma {:induction false} SplitManifestIds(d: seq<ManifestEntry>, id: string)
    requires id in SplitManifest(d).fmap
    ensures id != "" && exists i :: 0 <= i < |d| && d[i].1 == Some(id)
    decreases |d|
  {
    var n := |d| - 1;
    var e := d[n];
    if IsRemoval(e) || e.1.value != id {
      SplitManifestIds(d[..n], id);
      var i :| 0 <= i < n && d[..n][i].1 == Some(id);
      assert d[i] == d[..n][i];
    } else {
      assert d[n].1 == Some(id);
    }
  }

  // ------------------------------------------------------------ add_file

  /** The folder after `add_file` and the record it returns. */
  datatype Added = Added(folder: Folder, rec: MediaRecord)

  /** `add_file(fname, data, usn)`: a name already in normal form is written
      as is; any other is handed to `add_data_to_folder_uniquely`. The record
      carries the normalised name, the usn and the hexadecimal SHA-1. */
  function AddFile(lib: MediaLib, folder: Folder, fname: string, data: Bytes, usn: int): (a: Added)
    ensures a.rec == MediaRecord(NormalizedName(lib, fname), usn, Hex(lib.sha1(data)))
    ensures lib.normalize(fname).Borrowed? ==> a.folder == folder[fname := data]
    ensures lib.normalize(fname).Owned? ==>
              a.folder == folder[lib.addUniquely(folder, fname, data, lib.sha1(data)) := data]
  {
    var sha1 := lib.sha1(data);
    var rec := MediaRecord(NormalizedName(lib, fname), usn, Hex(sha1));
    match lib.normalize(fname)
    case Borrowed => Added(folder[fname := data], rec)
    case Owned(_) => Added(folder[lib.addUniquely(folder, fname, data, sha1) := data], rec)
  }

  /** The record's checksum is 40 hexadecimal digits that decode to the
      SHA-1 of the data; for a name already in normal form, the folder holds
      the data under the record's name. */
  lemma AddFileRecordReadsBack(lib: MediaLib, folder: Folder, fname: string, data: Bytes, usn: int)
    ensures var a := AddFile(lib, folder, fname, data, usn);
            |a.rec.sha1| == 40 && AllHex(a.rec.sha1) && UnHex(a.rec.sha1) == lib.sha1(data)
            && (lib.normalize(fname).Borrowed? ==> a.rec.fname in a.folder && a.folder[a.rec.fname] == data)
            && (forall k :: k in folder ==> k in a.folder)
  {
    HexRoundTrip(lib.sha1(data));
  }

  // ------------------------------------------------------------ payload loop

  /** The loop's state: the folder, the records collected, the running usn. */
  datatype AddState = AddState(folder: Folder, adds: seq<MediaRecord>, usn: int)

  /** How the loop ends: normally, or at an entry whose name has no id in
      the manifest (`missing`), with the files written so far kept. */
  datatype AddRun = AddRun(st: AddState, missing: Option<string>)

  /** The loop over the archive entries from index `i`: `_meta` is skipped;
      every other entry must be a manifest id, and its data is added under
      the mapped name with the next usn. */
  function AddLoop(lib: MediaLib, fmap: map<string, string>, entries: seq<ZipEntry>, i: nat, st: AddState): (run: AddRun)
    decreases |entries| - i
  {
    if i >= |entries| then AddRun(st, None)
    else
      var name := entries[i].0;
      if name == META then AddLoop(lib, fmap, entries, i + 1, st)
      else if name !in fmap then AddRun(st, Some(name))
      else
        var a := AddFile(lib, st.folder, fmap[name], entries[i].1, st.usn + 1);
        AddLoop(lib, fmap, entries, i + 1, AddState(a.folder, st.adds + [a.rec], st.usn + 1))
  }

  /** One payload entry of the loop: its file is added with the next usn. */
  lemma AddLoopStep(lib: MediaLib, fmap: map<string, string>, entries: seq<ZipEntry>, i: nat,
                    folder: Folder, adds: seq<MediaRecord>, usn: int)
    requires i < |entries| && entries[i].0 != META && entries[i].0 in fmap
    ensures var a := AddFile(lib, folder, fmap[entries[i].0], entries[i].1, usn + 1);
            AddLoop(lib, fmap, entries, i, AddState(folder, adds, usn))
            == AddLoop(lib, fmap, entries, i + 1, AddState(a.folder, adds + [a.rec], usn + 1))
  {
  }

  /** The entries from index `i` on that are payload, not `_meta`. */
  function PayloadCount(entries: seq<ZipEntry>, i: nat): (n: nat)
    ensures n <= |entries| - i || i > |entries|
    decreases |entries| - i
  {
    if i >= |entries| then 0
    else (if entries[i].0 == META then 0 else 1) + PayloadCount(entries, i + 1)
  }

  /** `usns` are `base + 1`, `base + 2`, ... in order. */
  predicate UsnsFrom(adds: seq<MediaRecord>, base: int)
  {
    forall k :: 0 <= k < |adds| ==> adds[k].usn == base + 1 + k
  }

  /** The loop stops early exactly when a later payload entry is not a
      manifest id; otherwise it adds one record per payload entry. Records
      keep counting usns up from the usn read before the loop. */
  lemma {:induction false} AddLoopEffect(lib: MediaLib, fmap: map<string, string>, entries: seq<ZipEntry>, i: nat, st: AddState, base: int)
    requires UsnsFrom(st.adds, base) && st.usn == base + |st.adds|
    ensures var run := AddLoop(lib, fmap, entries, i, st);
            && UsnsFrom(run.st.adds, base) && run.st.usn == base + |run.st.adds|
            && |st.adds| <= |run.st.adds| && run.st.adds[..|st.adds|] == st.adds
            && (run.missing.Some? <==> exists j :: i <= j < |entries| && entries[j].0 != META && entries[j].0 !in fmap)
            && (run.missing.None? ==> |run.st.adds| == |st.adds| + PayloadCount(entries, i))
    decreases |entries| - i
  {
    if i < |entries| {
      var name := entries[i].0;
      if name == META {
        AddLoopEffect(lib, fmap, entries, i + 1, st, base);
        var run := AddLoop(lib, fmap, entries, i + 1, st);
        if run.missing.Some? {
          var j :| i + 1 <= j < |entries| && entries[j].0 != META && entries[j].0 !in fmap;
        }
      } else if name in fmap {
        var a := AddFile(lib, st.folder, fmap[name], entries[i].1, st.usn + 1);
        var next := AddState(a.folder, st.adds + [a.rec], st.usn + 1);
        AddLoopEffect(lib, fmap, entries, i + 1, next, base);
        var run := AddLoop(lib, fmap, entries, i + 1, next);
        assert next.adds[..|st.adds|] == st.adds;
        assert run.st.adds[..|st.adds|] == run.st.adds[..|next.adds|][..|st.adds|];
        if run.missing.Some? {
          var j :| i + 1 <= j < |entries| && entries[j].0 != META && entries[j].0 !in fmap;
        }
      }
    }
  }

  // ------------------------------------------------------------ adoption

  /** What an upload leaves behind: its outcome (number of manifest lines
      processed and the last usn), the table and the folder. */
  datatype Adoption = Adoption(result: Result<(nat, int), AppError>, db: Table, folder: Folder)

  /** The first entry called `_meta` (`ZipArchive::by_name`). */
  function FindMeta(entries: seq<ZipEntry>): (m: Option<Bytes>)
    ensures m.None? <==> forall i :: 0 <= i < |entries| ==> entries[i].0 != META
    ensures m.Some? ==> exists i :: 0 <= i < |entries| && entries[i] == (META, m.value)
  {
    if entries == [] then None
    else if entries[0].0 == META then Some(entries[0].1)
    else FindMeta(entries[1..])
  }

  const NOT_A_ZIP := "invalid Zip archive"
  const BAD_MANIFEST := "invalid manifest"

  function MissingIdMessage(name: string): string
  {
    "Could not find name " + name + " in fmap"
  }

  /** `adopt_media_changes_from_zip`, step by step: open the archive, read
      and split the manifest, read the last usn, add every payload entry with
      the next usn, count, read the last usn again (the table is still
      untouched), then delete and insert. */
  ghost function Adopt(lib: MediaLib, db: Table, folder: Folder, zipData: Bytes): (a: Adoption)
  {
    match lib.unzip(zipData)
    case None => Adoption(Err(ZipParsing(NOT_A_ZIP)), db, folder)
    case Some(entries) =>
      match FindMeta(entries)
      case None => Adoption(Panic, db, folder)
      case Some(metaData) =>
        match lib.decodeManifest(metaData)
        case None => Adoption(Err(JsonParsing(BAD_MANIFEST)), db, folder)
        case Some(d) =>
          var m := SplitManifest(d);
          var run := AddLoop(lib, m.fmap, entries, 0, AddState(folder, [], MaxUsn(db)));
          if run.missing.Some? then
            Adoption(Err(ValueNotFound(MissingIdMessage(run.missing.value))), db, run.st.folder)
          else
            var count := |run.st.adds| + |m.removes|;
            var lastUsn := MaxUsn(db);
            var db1 := if m.removes != [] then DeleteAll(db, m.removes) else db;
            var folder1 := if m.removes != [] then Without(run.st.folder, m.removes) else run.st.folder;
            var db2 := if run.st.adds != [] then RecordsAddAll(db1, run.st.adds) else db1;
            Adoption(Ok((count, lastUsn)), db2, folder1)
  }

  /** A failed upload never touches the table (files already written stay). */
  lemma AdoptFailureKeepsTable(lib: MediaLib, db: Table, folder: Folder, zipData: Bytes)
    requires !Adopt(lib, db, folder, zipData).result.Ok?
    ensures Adopt(lib, db, folder, zipData).db == db
  {
  }

  /** The upload is refused exactly when the archive is not a zip, has no
      manifest, has a malformed manifest, or has a payload entry whose name
      is not an id of the manifest; the last case is a `ValueNotFound`. */
  lemma {:induction false} AdoptFailsOnUnknownEntry(lib: MediaLib, db: Table, folder: Folder, zipData: Bytes,
                                                    entries: seq<ZipEntry>, d: seq<ManifestEntry>)
    requires lib.unzip(zipData) == Some(entries)
    requires FindMeta(entries).Some? && lib.decodeManifest(FindMeta(entries).value) == Some(d)
    ensures Adopt(lib, db, folder, zipData).result.Ok? <==>
              forall j :: 0 <= j < |entries| && entries[j].0 != META ==> entries[j].0 in SplitManifest(d).fmap
    ensures !Adopt(lib, db, folder, zipData).result.Ok? ==>
              Adopt(lib, db, folder, zipData).result.Err? && Adopt(lib, db, folder, zipData).result.error.ValueNotFound?
  {
    AddLoopEffect(lib, SplitManifest(d).fmap, entries, 0, AddState(folder, [], MaxUsn(db)), MaxUsn(db));
  }

  /** A successful upload answers the number of payload entries plus the
      number of removal lines, and the last usn as it was before the upload;
      the i-th payload entry is recorded with that usn plus i + 1. */
  lemma {:induction false} AdoptOutcome(lib: MediaLib, db: Table, folder: Folder, zipData: Bytes,
                                        entries: seq<ZipEntry>, d: seq<ManifestEntry>)
    requires lib.unzip(zipData) == Some(entries)
    requires FindMeta(entries).Some? && lib.decodeManifest(FindMeta(entries).value) == Some(d)
    requires Adopt(lib, db, folder, zipData).result.Ok?
    ensures var m := SplitManifest(d);
            var run := AddLoop(lib, m.fmap, entries, 0, AddState(folder, [], MaxUsn(db)));
            && Adopt(lib, db, folder, zipData).result.value == (PayloadCount(entries, 0) + |m.removes|, MaxUsn(db))
            && |run.st.adds| == PayloadCount(entries, 0)
            && UsnsFrom(run.st.adds, MaxUsn(db))
  {
    AddLoopEffect(lib, SplitManifest(d).fmap, entries, 0, AddState(folder, [], MaxUsn(db)), MaxUsn(db));
  }

  /** Deletions take their usn from the table after the payload loop but
      before the new records are inserted, so a deletion and the first
      addition can share a usn: with one row at usn 5, deleting it and adding
      one file gives both usn 6. */
  lemma UploadUsnCollision(lib: MediaLib, zipData: Bytes, manifestData: Bytes, fileData: Bytes)
    requires lib.unzip(zipData) == Some([(META, manifestData), ("0", fileData)])
    requires lib.decodeManifest(manifestData) == Some([("a.png", None), ("b.png", Some("0"))])
    requires lib.normalize("b.png") == Borrowed
    ensures var db := map["a.png" := MediaRow(5, Some("x"))];
            var a := Adopt(lib, db, map[], zipData);
            && a.result == Ok((2, 5))
            && a.db.Keys == {"a.png", "b.png"}
            && a.db["a.png"] == MediaRow(6, None)
            && a.db["b.png"].usn == 6
  {
    var db := map["a.png" := MediaRow(5, Some("x"))];
    assert "a.png" in db && db["a.png"].usn == 5;
    LastUsnUnique(db, 5);
    var entries: seq<ZipEntry> := [(META, manifestData), ("0", fileData)];
    assert FindMeta(entries) == Some(manifestData);
    CollisionManifest();
    var a := AddFile(lib, map[], "b.png", fileData, 6);
    CollisionAdds(lib, manifestData, fileData);
    CollisionRows(db, a.rec);
  }

  lemma CollisionManifest()
    ensures SplitManifest([("a.png", None), ("b.png", Some("0"))]) == Manifest(["a.png"], map["0" := "b.png"])
  {
    var d: seq<ManifestEntry> := [("a.png", None), ("b.png", Some("0"))];
    assert d[..1] == [("a.png", None)];
    assert d[..1][..0] == [];
    assert SplitManifest(d[..1]) == Manifest(["a.png"], map[]);
  }

  lemma CollisionAdds(lib: MediaLib, manifestData: Bytes, fileData: Bytes)
    requires lib.normalize("b.png") == Borrowed
    ensures var a := AddFile(lib, map[], "b.png", fileData, 6);
            && a.rec.fname == "b.png" && a.rec.usn == 6
            && AddLoop(lib, map["0" := "b.png"], [(META, manifestData), ("0", fileData)], 0, AddState(map[], [], 5))
               == AddRun(AddState(a.folder, [a.rec], 6), None)
  {
    var entries: seq<ZipEntry> := [(META, manifestData), ("0", fileData)];
    var fmap := map["0" := "b.png"];
    var st0 := AddState(map[], [], 5);
    var a := AddFile(lib, map[], "b.png", fileData, 6);
    var st1 := AddState(a.folder, [a.rec], 6);
    assert AddLoop(lib, fmap, entries, 2, st1) == AddRun(st1, None);
    assert entries[1].0 in fmap && fmap[entries[1].0] == "b.png" && entries[1].1 == fileData;
    assert st0.adds + [a.rec] == [a.rec];
    assert AddLoop(lib, fmap, entries, 1, st0) == AddLoop(lib, fmap, entries, 2, st1);
  }

  lemma CollisionRows(db: Table, rec: MediaRecord)
    requires db == map["a.png" := MediaRow(5, Some("x"))] && rec.fname == "b.png" && rec.usn == 6
    ensures DeleteAll(db, ["a.png"]) == map["a.png" := MediaRow(6, None)]
    ensures RecordsAddAll(map["a.png" := MediaRow(6, None)], [rec]) == map["a.png" := MediaRow(6, None), "b.png" := RowOf(rec)]
  {
    assert "a.png" in db && db["a.png"].usn == 5;
    LastUsnUnique(db, 5);
    var removes := ["a.png"];
    assert removes[..0] == [];
    var adds := [rec];
    assert adds[..0] == [];
  }
}
