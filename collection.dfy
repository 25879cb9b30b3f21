/** Collection-sync helpers (`src/collecction.rs`): the method names, the
    host-key generator, the owner of an open collection, the full-upload
    frame, the single collection slot of the backend and the post-processing
    of the backend's answer. */
module CollectionSync {
  import opened Base
  import Sessions
  import Errors

  /** The anki crate's `sync_server_method_request::Method`. */
  datatype Method =
    | HostKey | Meta | ApplyChanges | Start | ApplyGraves | Chunk
    | ApplyChunk | SanityCheck | Finish | FullUpload | FullDownload | Abort

  /** The collection-sync endpoint names. */
  const OPERATIONS: seq<string> := [
    "hostKey", "meta", "upload", "download", "applyChanges", "start",
    "applyGraves", "chunk", "applyChunk", "sanityCheck2", "finish", "abort"]

  /** `map_sync_method`: the endpoint name to its method; `None` for any other name. */
  function MapSyncMethod(name: string): (m: Option<Method>)
    ensures m.Some? <==> name in OPERATIONS
  {
    match name
    case "hostKey" => Some(HostKey)
    case "meta" => Some(Meta)
    case "applyChanges" => Some(ApplyChanges)
    case "start" => Some(Start)
    case "applyGraves" => Some(ApplyGraves)
    case "chunk" => Some(Chunk)
    case "applyChunk" => Some(ApplyChunk)
    case "sanityCheck2" => Some(SanityCheck)
    case "finish" => Some(Finish)
    case "upload" => Some(FullUpload)
    case "download" => Some(FullDownload)
    case "abort" => Some(Abort)
    case _ => None
  }

  /** The endpoint name of each method, read off `OPERATIONS`. */
  function MethodName(m: Method): (name: string)
    ensures name in OPERATIONS
  {
    match m
    case HostKey => OPERATIONS[0]
    case Meta => OPERATIONS[1]
    case FullUpload => OPERATIONS[2]
    case FullDownload => OPERATIONS[3]
    case ApplyChanges => OPERATIONS[4]
    case Start => OPERATIONS[5]
    case ApplyGraves => OPERATIONS[6]
    case Chunk => OPERATIONS[7]
    case ApplyChunk => OPERATIONS[8]
    case SanityCheck => OPERATIONS[9]
    case Finish => OPERATIONS[10]
    case Abort => OPERATIONS[11]
  }

  /** Every method is reached from its own name: `map_sync_method` inverts `MethodName`. */
  lemma MethodNameMaps(m: Method)
    ensures MapSyncMethod(MethodName(m)) == Some(m)
  {
  }

  /** A name reaches a method only if it is that method's name, so the
      mapping is a bijection between `OPERATIONS` and the methods. */
  lemma MapSyncMethodNamed(name: string)
    ensures MapSyncMethod(name).Some? ==> name == MethodName(MapSyncMethod(name).value)
  {
    if MapSyncMethod(name).Some? {
      var i :| 0 <= i < |OPERATIONS| && OPERATIONS[i] == name;
      var methods := [HostKey, Meta, FullUpload, FullDownload, ApplyChanges, Start,
                      ApplyGraves, Chunk, ApplyChunk, SanityCheck, Finish, Abort];
      assert MethodName(methods[i]) == name;
      MethodNameMaps(methods[i]);
    }
  }

  // ------------------------------------------------------------ usernames

  /** The path's normal components: its segments without `.` (as `Path`
      iterates them, ignoring repeated and trailing separators). */
  function Components(p: string): (cs: seq<string>)
    ensures forall i :: 0 <= i < |cs| ==> cs[i] != "" && cs[i] != "." && '/' !in cs[i]
  {
    NormalOnly(Segments(p))
  }

  function NormalOnly(segs: seq<string>): (cs: seq<string>)
    requires forall i :: 0 <= i < |segs| ==> segs[i] != "" && '/' !in segs[i]
    ensures forall i :: 0 <= i < |cs| ==> cs[i] != "" && cs[i] != "." && '/' !in cs[i]
  {
    if segs == [] then []
    else
      var rest := NormalOnly(segs[..|segs| - 1]);
      if segs[|segs| - 1] == "." then rest else rest + [segs[|segs| - 1]]
  }

  /** `extract_usrname`: the name of the directory holding the collection file.
      A path without such a directory (a bare file name, a file under the
      root, or a parent named `..`) panics. */
  function ExtractUsrname(colPath: string): (r: Result<string, ()>)
    ensures !r.Err?
    ensures r.Ok? <==> |Components(colPath)| >= 2 && Components(colPath)[|Components(colPath)| - 2] != ".."
    ensures r.Ok? ==> r.value == Components(colPath)[|Components(colPath)| - 2]
  {
    var cs := Components(colPath);
    if |cs| >= 2 && cs[|cs| - 2] != ".." then Ok(cs[|cs| - 2]) else Panic
  }

  /** A user name the server can use as a directory name. */
  predicate DirectoryName(name: string)
  {
    name != "" && name != "." && name != ".." && '/' !in name
  }

  /** The owner read back from any file in a user's directory is that user:
      the path built by joining the data root, the user name and a file name
      (the collection file, its temporary upload copy) yields the user name
      again, whatever the root. */
  lemma {:induction false} ExtractUsrnameRoundTrip(root: string, username: string, file: string)
    requires DirectoryName(username) && file != "" && file != "." && '/' !in file
    ensures ExtractUsrname(PathJoin(PathJoin(root, username), file)) == Ok(username)
  {
    var dir := PathJoin(root, username);
    SegmentsJoin(root, username);
    SegmentsJoin(dir, file);
    var segs := Segments(root) + [username];
    assert Segments(PathJoin(dir, file)) == segs + [file];
    assert (segs + [file])[..|segs|] == segs;
    assert segs[..|segs| - 1] == Segments(root);
    assert NormalOnly(segs) == NormalOnly(Segments(root)) + [username];
  }

  // ------------------------------------------------------------ host keys

  /** MD5 (kept abstract). */
  type Digest16 = b: Bytes | |b| == 16 witness seq(16, _ => 0)
  type Md5 = string -> Digest16

  predicate Alphanumeric(c: char)
  {
    '0' <= c <= '9' || 'a' <= c <= 'z' || 'A' <= c <= 'Z'
  }

  /** The string `gen_hostkey` digests: name, seconds and random text, joined by `:`. */
  function HostkeyInput(username: string, secs: int, rand: string): string
  {
    username + ":" + SignedDecimal(secs) + ":" + rand
  }

  /** `gen_hostkey`: the lowercase hex MD5 of `username:secs:rand`, where
      `rand` is the 8 random alphanumeric characters and `secs` the clock. */
  function GenHostkey(md5: Md5, username: string, secs: int, rand: string): (key: string)
    requires |rand| == 8 && forall i :: 0 <= i < |rand| ==> Alphanumeric(rand[i])
    ensures |key| == 32 && AllHex(key)
    ensures UnHex(key) == md5(HostkeyInput(username, secs, rand))
  {
    HexRoundTrip(md5(HostkeyInput(username, secs, rand)));
    Hex(md5(HostkeyInput(username, secs, rand)))
  }

  /** The digested string determines the user, the time and the random text:
      two host keys can only coincide through an MD5 collision or a repeated
      (user, second, random text) triple. */
  lemma {:induction false} HostkeyInputDetermines(u1: string, t1: int, r1: string, u2: string, t2: int, r2: string)
    requires |r1| == 8 && |r2| == 8
    requires forall i :: 0 <= i < 8 ==> Alphanumeric(r1[i]) && Alphanumeric(r2[i])
    requires HostkeyInput(u1, t1, r1) == HostkeyInput(u2, t2, r2)
    ensures u1 == u2 && t1 == t2 && r1 == r2
  {
    var s := HostkeyInput(u1, t1, r1);
    var d1, d2 := SignedDecimal(t1), SignedDecimal(t2);
    var p1, p2 := u1 + ":" + d1, u2 + ":" + d2;
    assert s == p1 + ":" + r1 && s == p2 + ":" + r2;
    assert r1 == s[|s| - 8..] == r2;
    assert p1 == s[..|s| - 9] == p2;
    SignedDecimalColonFree(t1);
    SignedDecimalColonFree(t2);
    LastIndexIs(p1, ':', |u1|);
    LastIndexIs(p2, ':', |u2|);
    assert d1 == p1[|p1| - |d1|..] == p2[|p2| - |d2|..] == d2;
    assert u1 == p1[..|u1|] == p2[..|u2|] == u2;
    SignedDecimalInjective(t1, t2);
  }

  lemma SignedDecimalColonFree(t: int)
    ensures forall i :: 0 <= i < |SignedDecimal(t)| ==> SignedDecimal(t)[i] != ':'
  {
    if t < 0 {
      assert forall i :: 1 <= i < |SignedDecimal(t)| ==> SignedDecimal(t)[i] == Decimal(-t)[i - 1];
    }
  }

  lemma {:induction false} SignedDecimalInjective(a: int, b: int)
    requires SignedDecimal(a) == SignedDecimal(b)
    ensures a == b
  {
    if a < 0 && b < 0 {
      assert Decimal(-a) == SignedDecimal(a)[1..] == SignedDecimal(b)[1..] == Decimal(-b);
      DecimalInjective(-a, -b);
    } else if a >= 0 && b >= 0 {
      DecimalInjective(a, b);
    }
  }

  // ------------------------------------------------------------ full upload

  /** A request frame after `reprocess_data_frame`: the data handed to the
      backend, and the temporary file written on the way, if any. */
  datatype Frame = Frame(payload: Bytes, written: Option<(string, Bytes)>)

  const TMP_SUFFIX := ".tmp"

  /** `reprocess_data_frame`: a full upload writes the data to
      `<collection path>.tmp` and hands the backend that path as bytes
      (`writeFails` stands for the file system refusing the write); every
      other method hands the data through unchanged. */
  function ReprocessDataFrame(mtd: Option<Method>, data: Bytes, session: Sessions.Session,
                              utf8: Utf8Encode, writeFails: bool): (r: Result<Frame, Errors.AppError>)
    ensures !r.Panic?
    ensures mtd != Some(FullUpload) ==> r == Ok(Frame(data, None))
    ensures mtd == Some(FullUpload) && writeFails ==> r.Err? && r.error.IO?
    ensures mtd == Some(FullUpload) && !writeFails ==>
      var tmp := Sessions.GetColPath(session) + TMP_SUFFIX;
      r == Ok(Frame(utf8(tmp), Some((tmp, data))))
  {
    if mtd == Some(FullUpload) then
      var colpath := Sessions.GetColPath(session) + TMP_SUFFIX;
      if writeFails then Err(Errors.IO("cannot write " + colpath))
      else Ok(Frame(utf8(colpath), Some((colpath, data))))
    else Ok(Frame(data, None))
  }

  /** The temporary upload file sits next to the collection file, in the
      user's directory, and is never the collection file itself. */
  lemma {:induction false} UploadFileBesideCollection(root: string, session: Sessions.Session, data: Bytes,
                                                       utf8: Utf8Encode)
    requires DirectoryName(session.name) && session.path == PathJoin(root, session.name)
    ensures var r := ReprocessDataFrame(Some(FullUpload), data, session, utf8, false);
            r.Ok? && r.value.written.Some?
            && r.value.written.value.0 != Sessions.GetColPath(session)
            && r.value.written.value.1 == data
            && ExtractUsrname(r.value.written.value.0) == Ok(session.name)
  {
    var col := Sessions.GetColPath(session);
    TmpFileOwner(root, session.name);
    assert |col + TMP_SUFFIX| != |col|;
  }

  /** The temporary file's owner, read back from its path, is the user. */
  lemma TmpFileOwner(root: string, username: string)
    requires DirectoryName(username)
    ensures var dir := PathJoin(root, username);
            ExtractUsrname(PathJoin(dir, Sessions.COLLECTION_FILE) + TMP_SUFFIX) == Ok(username)
  {
    var dir := PathJoin(root, username);
    var file := Sessions.COLLECTION_FILE + TMP_SUFFIX;
    UserDirectoryPath(root, username);
    assert PathJoin(dir, Sessions.COLLECTION_FILE) + TMP_SUFFIX == PathJoin(dir, file);
    ExtractUsrnameRoundTrip(root, username, file);
  }

  /** A user's directory is a non-empty path that does not end in `/`. */
  lemma UserDirectoryPath(root: string, username: string)
    requires DirectoryName(username)
    ensures var dir := PathJoin(root, username);
            dir != "" && dir[|dir| - 1] != '/'
  {
    var dir := PathJoin(root, username);
    assert dir[|dir| - 1] == username[|username| - 1];
  }

  // ------------------------------------------------------------ backend

  /** An open collection, known by its file path. */
  datatype Collection = Collection(colPath: string)

  /** The part of the anki `Backend` the server touches: its single collection slot. */
  class Backend {
    var col: Option<Collection>

    constructor (col: Option<Collection>)
      ensures this.col == col
    {
      this.col := col;
    }

    /** `reopen_col`: only for `meta`, the collection is taken out of the slot;
        it goes back if the session's user owns it, otherwise the session's
        collection is opened and stored (`openResult` is the outcome of that open,
        which leaves the slot empty when it fails). */
    method ReopenCol(mtd: Option<Method>, session: Sessions.Session,
                     openResult: Result<Collection, Errors.AppError>) returns (r: Result<(), Errors.AppError>)
      modifies this
      ensures mtd != Some(Meta) ==> r == Ok(()) && col == old(col)
      ensures mtd == Some(Meta) && old(col).Some? && ExtractUsrname(old(col).value.colPath) == Ok(session.name) ==>
        r == Ok(()) && col == old(col)
      ensures mtd == Some(Meta) && old(col).Some? && ExtractUsrname(old(col).value.colPath).Panic? ==>
        r.Panic?
      ensures mtd == Some(Meta) && (old(col).None? || ExtractUsrname(old(col).value.colPath) != Ok(session.name))
              && !(old(col).Some? && ExtractUsrname(old(col).value.colPath).Panic?) ==>
        match openResult
        case Ok(c) => r == Ok(()) && col == Some(c)
        case Err(e) => r == Err(e) && col == None
        case Panic => r.Panic? && col == None
    {
      if mtd == Some(Meta) {
        var taken := col;
        col := None;
        if taken.Some? {
          var owner := ExtractUsrname(taken.value.colPath);
          if owner.Panic? {
            return Panic;
          }
          if owner.value == session.name {
            col := taken;
            return Ok(());
          }
        }
        match openResult {
          case Ok(c) =>
            col := Some(c);
            return Ok(());
          case Err(e) =>
            return Err(e);
          case Panic =>
            return Panic;
        }
      }
      return Ok(());
    }
  }

  /** The collection file of a session whose directory is `<root>/<user>`
      belongs, by `extract_usrname`, to that user. */
  lemma ColPathOwner(root: string, session: Sessions.Session)
    requires DirectoryName(session.name) && session.path == PathJoin(root, session.name)
    ensures ExtractUsrname(Sessions.GetColPath(session)) == Ok(session.name)
  {
    ExtractUsrnameRoundTrip(root, session.name, Sessions.COLLECTION_FILE);
  }

  /** A `meta` request on any backend: when `reopen_col` succeeds, the slot
      holds a collection the session's user owns, provided a freshly opened
      collection is the session's collection file. */
  method MetaLeavesOwnCollection(backend: Backend, root: string, session: Sessions.Session,
                                 openResult: Result<Collection, Errors.AppError>)
      returns (r: Result<(), Errors.AppError>)
    requires DirectoryName(session.name) && session.path == PathJoin(root, session.name)
    requires openResult.Ok? ==> openResult.value.colPath == Sessions.GetColPath(session)
    modifies backend
    ensures r.Ok? ==> backend.col.Some? && ExtractUsrname(backend.col.value.colPath) == Ok(session.name)
  {
    r := backend.ReopenCol(Some(Meta), session, openResult);
    ColPathOwner(root, session);
  }

  // ------------------------------------------------------------ responses

  /** The outcome of the backend's `sync_server_method` (kept abstract). */
  type BackendOutcome = Result<Bytes, Errors.AppError>

  /** Reading a whole file (kept abstract). */
  type ReadFile = string -> Result<Bytes, Errors.AppError>

  /** `resp_data`: the backend always runs first and its error wins; then a
      host-key request answers with the host-key reply, a full upload with
      `OK`, a full download with the contents of the file whose path the
      backend returned, and every other method with the backend's output.
      Without a method the call panics. */
  function RespData(mtd: Option<Method>, backend: BackendOutcome, hostkeyData: Bytes,
                    utf8: Utf8Decode, readFile: ReadFile): (r: Result<Bytes, Errors.AppError>)
    ensures mtd.None? ==> r.Panic?
    ensures mtd.Some? && backend.Err? ==> r == Err(backend.error)
    ensures mtd.Some? && backend.Panic? ==> r.Panic?
    ensures mtd.Some? && backend.Ok? ==>
      match mtd.value
      case HostKey => r == Ok(hostkeyData)
      case FullUpload => r == Ok(OK_BYTES)
      case FullDownload =>
        (utf8(backend.value).None? ==> r.Err? && r.error.Utf8Error?)
        && (utf8(backend.value).Some? ==> r == readFile(utf8(backend.value).value))
      case _ => r == backend
  {
    if mtd.None? then Panic
    else match backend
      case Err(e) => Err(e)
      case Panic => Panic
      case Ok(out) =>
        if mtd == Some(HostKey) then Ok(hostkeyData)
        else if mtd == Some(FullUpload) then Ok(OK_BYTES)
        else if mtd == Some(FullDownload) then
          (match utf8(out)
           case None => Err(Errors.Utf8Error("invalid utf-8 path"))
           case Some(file) => readFile(file))
        else Ok(out)
  }
}
