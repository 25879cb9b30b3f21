/** What `downloadFiles` sends (`zip_files` in `src/media.rs`), stated as
    functions of the folder and the requested names. */
module MediaDownload {
  import opened Base
  import opened MediaFiles

  /** A file put into the archive: its index in the request (the entry is
      named by that index in decimal) and its bytes. */
  datatype Archived = Archived(index: nat, data: Bytes)

  /** The loop's state: bytes archived so far, the entries, the manifest
      (entry name to file name), the names found invalid, and how many
      requested names have been examined. */
  datatype ZipState = ZipState(acc: nat, entries: seq<Archived>, meta: map<string, string>,
                               invalid: seq<string>, scanned: nat)

  const ZIP_START := ZipState(0, [], map[], [], 0)

  /** A name `data_for_file` reads without error but finds no file for. */
  predicate Missing(lib: MediaLib, folder: Folder, name: string)
  {
    !lib.unreadable(folder, name) && name !in folder
  }

  /** A name whose file is read, normalised and within the size limits. */
  predicate Accepted(lib: MediaLib, folder: Folder, name: string)
  {
    && !lib.unreadable(folder, name)
    && name in folder
    && lib.normalize(name).Borrowed?
    && 0 < |folder[name]| <= SYNC_SINGLE_FILE_MAX_BYTES
  }

  /** A name whose row `zip_files` removes: unreadable, or present but not
      normalised, empty or too large. */
  predicate Rejected(lib: MediaLib, folder: Folder, name: string)
  {
    lib.unreadable(folder, name)
    || (name in folder && (lib.normalize(name).Owned? || |folder[name]| == 0 || |folder[name]| > SYNC_SINGLE_FILE_MAX_BYTES))
  }

  /** Every name is exactly one of missing, accepted and rejected. */
  lemma Trichotomy(lib: MediaLib, folder: Folder, name: string)
    ensures Missing(lib, folder, name) || Accepted(lib, folder, name) || Rejected(lib, folder, name)
    ensures !(Missing(lib, folder, name) && Accepted(lib, folder, name))
    ensures !(Missing(lib, folder, name) && Rejected(lib, folder, name))
    ensures !(Accepted(lib, folder, name) && Rejected(lib, folder, name))
  {
  }

  /** One iteration for the name at index `st.scanned`. */
  function ZipStep(lib: MediaLib, folder: Folder, st: ZipState, name: string): (r: ZipState)
  {
    var idx := st.scanned;
    if lib.unreadable(folder, name) then
      st.(invalid := st.invalid + [name], scanned := idx + 1)
    else if name in folder then
      var data := folder[name];
      if lib.normalize(name).Owned? || |data| == 0 || |data| > SYNC_SINGLE_FILE_MAX_BYTES then
        st.(invalid := st.invalid + [name], scanned := idx + 1)
      else
        st.(acc := st.acc + |data|, entries := st.entries + [Archived(idx, data)],
            meta := st.meta[Decimal(idx) := name], scanned := idx + 1)
    else
      st.(meta := st.meta["" := name], scanned := idx + 1)
  }

  /** The loop from `st.scanned` on: it stops before the next name once the
      archived bytes exceed `SYNC_MAX_BYTES`. */
  function ZipScan(lib: MediaLib, folder: Folder, files: seq<string>, st: ZipState): (r: ZipState)
    decreases |files| - st.scanned
  {
    if st.scanned >= |files| || st.acc > SYNC_MAX_BYTES then st
    else ZipScan(lib, folder, files, ZipStep(lib, folder, st, files[st.scanned]))
  }

  // ------------------------------------------------------------ reference

  /** The archive a scan of the first `n` names should hold, budget aside:
      every accepted name, under its index, in request order. */
  function ArchivedUpTo(lib: MediaLib, folder: Folder, files: seq<string>, n: nat): seq<Archived>
    requires n <= |files|
  {
    if n == 0 then []
    else
      var name := files[n - 1];
      ArchivedUpTo(lib, folder, files, n - 1)
      + (if Accepted(lib, folder, name) then [Archived(n - 1, folder[name])] else [])
  }

  /** The rejected names among the first `n`, in request order. */
  function RejectedUpTo(lib: MediaLib, folder: Folder, files: seq<string>, n: nat): seq<string>
    requires n <= |files|
  {
    if n == 0 then []
    else RejectedUpTo(lib, folder, files, n - 1) + (if Rejected(lib, folder, files[n - 1]) then [files[n - 1]] else [])
  }

  /** The index of the last missing name among the first `n`: the one whose
      name the manifest keeps under "" (each missing name overwrites it). */
  function LastMissing(lib: MediaLib, folder: Folder, files: seq<string>, n: nat): (r: Option<nat>)
    requires n <= |files|
    ensures r.None? <==> forall i :: 0 <= i < n ==> !Missing(lib, folder, files[i])
    ensures r.Some? ==> r.value < n && Missing(lib, folder, files[r.value])
                        && forall i :: r.value < i < n ==> !Missing(lib, folder, files[i])
  {
    if n == 0 then None
    else if Missing(lib, folder, files[n - 1]) then Some(n - 1)
    else LastMissing(lib, folder, files, n - 1)
  }

  /** The entry names of the accepted files among the first `n`. */
  ghost function AcceptedKeys(lib: MediaLib, folder: Folder, files: seq<string>, n: nat): set<string>
    requires n <= |files|
  {
    set i | 0 <= i < n && Accepted(lib, folder, files[i]) :: Decimal(i)
  }

  function Size(entries: seq<Archived>): nat
  {
    if entries == [] then 0 else Size(entries[..|entries| - 1]) + |entries[|entries| - 1].data|
  }

  /** Each archived entry is the accepted file at its request index; the
      indices increase. */
  predicate EntriesValid(lib: MediaLib, folder: Folder, files: seq<string>, entries: seq<Archived>, n: nat)
  {
    && (forall j :: 0 <= j < |entries| ==>
          && entries[j].index < n && entries[j].index < |files|
          && Accepted(lib, folder, files[entries[j].index])
          && entries[j].data == folder[files[entries[j].index]])
    && (forall j, k :: 0 <= j < k < |entries| ==> entries[j].index < entries[k].index)
  }

  lemma {:induction false} ArchivedUpToValid(lib: MediaLib, folder: Folder, files: seq<string>, n: nat)
    requires n <= |files|
    ensures EntriesValid(lib, folder, files, ArchivedUpTo(lib, folder, files, n), n)
  {
    if n > 0 {
      ArchivedUpToValid(lib, folder, files, n - 1);
    }
  }

  // ------------------------------------------------------------ scan invariant

  /** What holds after every iteration of the scan. */
  ghost predicate ScanInvariant(lib: MediaLib, folder: Folder, files: seq<string>, st: ZipState)
  {
    && st.scanned <= |files|
    && st.entries == ArchivedUpTo(lib, folder, files, st.scanned)
    && st.invalid == RejectedUpTo(lib, folder, files, st.scanned)
    && st.acc == Size(st.entries)
    && (forall j :: 0 <= j < |st.entries| ==> Size(st.entries[..j]) <= SYNC_MAX_BYTES)
    && MetaInvariant(lib, folder, files, st.scanned, st.meta)
  }

  /** The manifest after examining the first `n` names: each accepted index
      names its file, no other key but "", and "" holds the last missing name. */
  ghost predicate MetaInvariant(lib: MediaLib, folder: Folder, files: seq<string>, n: nat, meta: map<string, string>)
    requires n <= |files|
  {
    && (forall i :: 0 <= i < n && Accepted(lib, folder, files[i]) ==>
          Decimal(i) in meta && meta[Decimal(i)] == files[i])
    && (forall k :: k in meta && k != "" ==>
          exists i :: 0 <= i < n && Accepted(lib, folder, files[i]) && k == Decimal(i))
    && ("" in meta <==> LastMissing(lib, folder, files, n).Some?)
    && ("" in meta ==> meta[""] == files[LastMissing(lib, folder, files, n).value])
  }

  lemma {:induction false} ZipStepKeeps(lib: MediaLib, folder: Folder, files: seq<string>, st: ZipState)
    requires ScanInvariant(lib, folder, files, st)
    requires st.scanned < |files| && st.acc <= SYNC_MAX_BYTES
    ensures ScanInvariant(lib, folder, files, ZipStep(lib, folder, st, files[st.scanned]))
  {
    var name := files[st.scanned];
    Trichotomy(lib, folder, name);
    if Accepted(lib, folder, name) {
      AcceptedStepKeeps(lib, folder, files, st);
    } else if Rejected(lib, folder, name) {
      RejectedStepKeeps(lib, folder, files, st);
    } else {
      MissingStepKeeps(lib, folder, files, st);
    }
  }

  lemma {:induction false} AcceptedStepKeeps(lib: MediaLib, folder: Folder, files: seq<string>, st: ZipState)
    requires ScanInvariant(lib, folder, files, st)
    requires st.scanned < |files| && st.acc <= SYNC_MAX_BYTES && Accepted(lib, folder, files[st.scanned])
    ensures ScanInvariant(lib, folder, files, ZipStep(lib, folder, st, files[st.scanned]))
  {
    var idx := st.scanned;
    var name := files[idx];
    var e := Archived(idx, folder[name]);
    var r := ZipStep(lib, folder, st, name);
    assert r == st.(acc := st.acc + |e.data|, entries := st.entries + [e], meta := st.meta[Decimal(idx) := name], scanned := idx + 1);
    assert r.entries == ArchivedUpTo(lib, folder, files, idx + 1);
    assert r.invalid == RejectedUpTo(lib, folder, files, idx + 1);
    SizePrefixes(st.entries, e);
    MetaAccepts(lib, folder, files, idx, st.meta);
  }

  /** An archived name is entered under its index; "" is untouched. */
  lemma MetaAccepts(lib: MediaLib, folder: Folder, files: seq<string>, idx: nat, meta: map<string, string>)
    requires idx < |files| && MetaInvariant(lib, folder, files, idx, meta)
    requires Accepted(lib, folder, files[idx]) && !Missing(lib, folder, files[idx])
    ensures MetaInvariant(lib, folder, files, idx + 1, meta[Decimal(idx) := files[idx]])
  {
    var m := meta[Decimal(idx) := files[idx]];
    MetaExtends(lib, folder, files, idx, meta);
    assert LastMissing(lib, folder, files, idx + 1) == LastMissing(lib, folder, files, idx);
    assert Decimal(idx) != "";
    forall k | k in m && k != ""
      ensures exists i :: 0 <= i < idx + 1 && Accepted(lib, folder, files[i]) && k == Decimal(i)
    {
      if k != Decimal(idx) {
        assert k in meta;
      }
    }
  }

  /** Appending an entry after a within-budget prefix keeps every shorter
      prefix within the budget. */
  lemma SizePrefixes(entries: seq<Archived>, e: Archived)
    requires forall j :: 0 <= j < |entries| ==> Size(entries[..j]) <= SYNC_MAX_BYTES
    requires Size(entries) <= SYNC_MAX_BYTES
    ensures Size(entries + [e]) == Size(entries) + |e.data|
    ensures forall j :: 0 <= j < |entries + [e]| ==> Size((entries + [e])[..j]) <= SYNC_MAX_BYTES
  {
    var r := entries + [e];
    assert r[..|entries|] == entries;
    forall j | 0 <= j < |r| ensures Size(r[..j]) <= SYNC_MAX_BYTES {
      assert r[..j] == entries[..j];
    }
  }

  /** Naming the entry at `idx` keeps the names of the earlier accepted entries. */
  lemma MetaExtends(lib: MediaLib, folder: Folder, files: seq<string>, idx: nat, meta: map<string, string>)
    requires idx < |files|
    requires forall i :: 0 <= i < idx && Accepted(lib, folder, files[i]) ==> Decimal(i) in meta && meta[Decimal(i)] == files[i]
    ensures var m := meta[Decimal(idx) := files[idx]];
            forall i :: 0 <= i < idx + 1 && Accepted(lib, folder, files[i]) ==> Decimal(i) in m && m[Decimal(i)] == files[i]
  {
    var m := meta[Decimal(idx) := files[idx]];
    forall i | 0 <= i < idx + 1 && Accepted(lib, folder, files[i])
      ensures Decimal(i) in m && m[Decimal(i)] == files[i]
    {
      if i < idx && Decimal(i) == Decimal(idx) {
        DecimalInjective(i, idx);
      }
    }
  }

  lemma {:induction false} RejectedStepKeeps(lib: MediaLib, folder: Folder, files: seq<string>, st: ZipState)
    requires ScanInvariant(lib, folder, files, st)
    requires st.scanned < |files| && st.acc <= SYNC_MAX_BYTES && Rejected(lib, folder, files[st.scanned])
    ensures ScanInvariant(lib, folder, files, ZipStep(lib, folder, st, files[st.scanned]))
  {
    var idx := st.scanned;
    var name := files[idx];
    var r := ZipStep(lib, folder, st, name);
    assert r == st.(invalid := st.invalid + [name], scanned := idx + 1);
    assert !Accepted(lib, folder, name) && !Missing(lib, folder, name);
    assert ArchivedUpTo(lib, folder, files, idx + 1) == ArchivedUpTo(lib, folder, files, idx) + [];
    assert r.invalid == RejectedUpTo(lib, folder, files, idx + 1);
    MetaSkips(lib, folder, files, idx, st.meta);
  }

  /** Examining a name that is neither archived nor missing leaves the manifest valid. */
  lemma MetaSkips(lib: MediaLib, folder: Folder, files: seq<string>, idx: nat, meta: map<string, string>)
    requires idx < |files| && MetaInvariant(lib, folder, files, idx, meta)
    requires !Accepted(lib, folder, files[idx]) && !Missing(lib, folder, files[idx])
    ensures MetaInvariant(lib, folder, files, idx + 1, meta)
  {
    assert LastMissing(lib, folder, files, idx + 1) == LastMissing(lib, folder, files, idx);
    forall k | k in meta && k != ""
      ensures exists i :: 0 <= i < idx + 1 && Accepted(lib, folder, files[i]) && k == Decimal(i)
    {
      var i :| 0 <= i < idx && Accepted(lib, folder, files[i]) && k == Decimal(i);
    }
  }

  lemma {:induction false} MissingStepKeeps(lib: MediaLib, folder: Folder, files: seq<string>, st: ZipState)
    requires ScanInvariant(lib, folder, files, st)
    requires st.scanned < |files| && st.acc <= SYNC_MAX_BYTES && Missing(lib, folder, files[st.scanned])
    ensures ScanInvariant(lib, folder, files, ZipStep(lib, folder, st, files[st.scanned]))
  {
    var idx := st.scanned;
    var name := files[idx];
    var r := ZipStep(lib, folder, st, name);
    assert r == st.(meta := st.meta["" := name], scanned := idx + 1);
    assert !Accepted(lib, folder, name) && !Rejected(lib, folder, name);
    assert r.entries == ArchivedUpTo(lib, folder, files, idx + 1);
    assert r.invalid == RejectedUpTo(lib, folder, files, idx + 1);
    MetaMissing(lib, folder, files, idx, st.meta);
  }

  /** A missing name replaces the manifest's "" entry and touches no other. */
  lemma MetaMissing(lib: MediaLib, folder: Folder, files: seq<string>, idx: nat, meta: map<string, string>)
    requires idx < |files| && MetaInvariant(lib, folder, files, idx, meta)
    requires Missing(lib, folder, files[idx]) && !Accepted(lib, folder, files[idx])
    ensures MetaInvariant(lib, folder, files, idx + 1, meta["" := files[idx]])
  {
    var m := meta["" := files[idx]];
    forall i | 0 <= i < idx + 1 && Accepted(lib, folder, files[i])
      ensures Decimal(i) in m && m[Decimal(i)] == files[i]
    {
      assert Decimal(i) != "";
    }
    assert LastMissing(lib, folder, files, idx + 1) == Some(idx);
    forall k | k in m && k != ""
      ensures exists i :: 0 <= i < idx + 1 && Accepted(lib, folder, files[i]) && k == Decimal(i)
    {
      assert k in meta;
    }
  }

  /** The scan from the start keeps the invariant to its end. */
  lemma {:induction false} ZipScanKeeps(lib: MediaLib, folder: Folder, files: seq<string>, st: ZipState)
    requires ScanInvariant(lib, folder, files, st)
    ensures ScanInvariant(lib, folder, files, ZipScan(lib, folder, files, st))
    ensures var r := ZipScan(lib, folder, files, st); r.scanned == |files| || r.acc > SYNC_MAX_BYTES
    decreases |files| - st.scanned
  {
    if st.scanned < |files| && st.acc <= SYNC_MAX_BYTES {
      ZipStepKeeps(lib, folder, files, st);
      ZipScanKeeps(lib, folder, files, ZipStep(lib, folder, st, files[st.scanned]));
    }
  }

  /** The archive `zip_files` builds: the accepted files among the names it
      examined, under their request indices, each non-empty, at most 100 MiB
      and already normalised; it examines every name unless the bytes
      archived before some name exceed 2.5 MiB, and every entry but the last
      starts within that budget; the manifest maps each entry's index back to
      its name; exactly the rejected names examined are to be removed, so a
      missing file is never removed but leaves its name under the key "". */
  lemma ZipScanResult(lib: MediaLib, folder: Folder, files: seq<string>)
    ensures var r := ZipScan(lib, folder, files, ZIP_START);
            && r.scanned <= |files|
            && (r.scanned == |files| || Size(r.entries) > SYNC_MAX_BYTES)
            && r.entries == ArchivedUpTo(lib, folder, files, r.scanned)
            && EntriesValid(lib, folder, files, r.entries, r.scanned)
            && (forall j :: 0 <= j < |r.entries| ==> Size(r.entries[..j]) <= SYNC_MAX_BYTES)
            && (forall j :: 0 <= j < |r.entries| ==>
                  Decimal(r.entries[j].index) in r.meta && r.meta[Decimal(r.entries[j].index)] == files[r.entries[j].index])
            && r.invalid == RejectedUpTo(lib, folder, files, r.scanned)
            && r.meta.Keys == AcceptedKeys(lib, folder, files, r.scanned)
                              + (if LastMissing(lib, folder, files, r.scanned).Some? then {""} else {})
            && ("" in r.meta ==> r.meta[""] == files[LastMissing(lib, folder, files, r.scanned).value])
  {
    assert ScanInvariant(lib, folder, files, ZIP_START);
    ZipScanKeeps(lib, folder, files, ZIP_START);
    var r := ZipScan(lib, folder, files, ZIP_START);
    ArchivedUpToValid(lib, folder, files, r.scanned);
    MetaKeys(lib, folder, files, r);
  }

  /** The invariant pins the manifest's keys down: the accepted indices, and
      "" exactly when some examined name was missing. */
  lemma MetaKeys(lib: MediaLib, folder: Folder, files: seq<string>, st: ZipState)
    requires ScanInvariant(lib, folder, files, st)
    ensures st.meta.Keys == AcceptedKeys(lib, folder, files, st.scanned)
                            + (if LastMissing(lib, folder, files, st.scanned).Some? then {""} else {})
  {
    var keys := AcceptedKeys(lib, folder, files, st.scanned);
    forall k | k in keys ensures k in st.meta {
      var i :| 0 <= i < st.scanned && Accepted(lib, folder, files[i]) && k == Decimal(i);
    }
    forall k | k in st.meta && k != "" ensures k in keys {
      var i :| 0 <= i < st.scanned && Accepted(lib, folder, files[i]) && k == Decimal(i);
    }
    assert "" !in keys;
  }

  /** The rejected names are exactly the examined names that are rejected. */
  lemma {:induction false} RejectedUpToMembers(lib: MediaLib, folder: Folder, files: seq<string>, n: nat, name: string)
    requires n <= |files|
    ensures name in RejectedUpTo(lib, folder, files, n) <==> Rejected(lib, folder, name) && name in files[..n]
  {
    if n > 0 {
      RejectedUpToMembers(lib, folder, files, n - 1, name);
      assert files[..n] == files[..n - 1] + [files[n - 1]];
    }
  }
}
