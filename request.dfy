/** Building a `SyncRequest` out of an incoming HTTP request (`src/request.rs`):
    from the legacy multipart form, or from the sync header and a zstd body;
    and the host-key login check. */
module Request {
  import opened Base
  import opened SyncVersion
  import Errors
  import Users

  type IpAddr = string

  /** A multipart field: its name, the chunks its stream yields, and whether
      the stream then yields an error instead of ending. */
  datatype Field = Field(name: string, chunks: seq<Bytes>, broken: bool)

  /** One item of the multipart stream: a field, or a stream error. */
  datatype Part = Part(field: Field) | Broken

  /** The anki crate's `SyncRequest<Vec<u8>>`. */
  datatype SyncRequest = SyncRequest(
    ip: IpAddr,
    syncKey: string,
    sessionKey: string,
    mediaClientVersion: Option<string>,
    data: Bytes,
    syncVersion: SyncVersion,
    clientVersion: string)

  /** The anki crate's `SyncHeader`, sent JSON-encoded in one request header. */
  datatype SyncHeader = SyncHeader(syncVersion: SyncVersion, syncKey: string, clientVer: string, sessionKey: string)

  // ---------------------------------------------------------------- fields

  /** What `text` yields: the decoding of the last chunk ("" for no chunk),
      or a panic when any chunk is not UTF-8. */
  function TextOf(utf8: Utf8Decode, chunks: seq<Bytes>): (r: Result<string, ()>)
    ensures !r.Err?
    ensures r.Panic? <==> exists i :: 0 <= i < |chunks| && utf8(chunks[i]).None?
    ensures r.Ok? && chunks == [] ==> r.value == ""
    ensures r.Ok? && chunks != [] ==> Some(r.value) == utf8(chunks[|chunks| - 1])
  {
    if forall i | 0 <= i < |chunks| :: utf8(chunks[i]).Some? then
      Ok(if chunks == [] then "" else utf8(chunks[|chunks| - 1]).value)
    else
      Panic
  }

  /** What `text` yields for a whole field: a stream error panics (it is
      unwrapped), as does a chunk that is not UTF-8; otherwise `TextOf`. */
  function FieldText(utf8: Utf8Decode, f: Field): (r: Result<string, ()>)
    ensures !r.Err?
    ensures r.Panic? <==> f.broken || TextOf(utf8, f.chunks).Panic?
    ensures r.Ok? ==> r == TextOf(utf8, f.chunks)
  {
    if f.broken then Panic else TextOf(utf8, f.chunks)
  }

  /** `text`: each chunk is decoded and replaces the text read so far. */
  method Text(utf8: Utf8Decode, field: Field) returns (r: Result<string, ()>)
    ensures r == FieldText(utf8, field)
  {
    var c := "";
    var i := 0;
    while i < |field.chunks|
      invariant 0 <= i <= |field.chunks|
      invariant forall j :: 0 <= j < i ==> utf8(field.chunks[j]).Some?
      invariant i == 0 ==> c == ""
      invariant i > 0 ==> Some(c) == utf8(field.chunks[i - 1])
    {
      match utf8(field.chunks[i]) {
        case None =>
          return Panic;
        case Some(s) =>
          c := s;
      }
      i := i + 1;
    }
    if field.broken {
      return Panic;
    }
    return Ok(c);
  }

  /** All chunks, in order, one after another. */
  function Concat(chunks: seq<Bytes>): (b: Bytes)
    ensures chunks == [] ==> b == []
  {
    if chunks == [] then [] else Concat(chunks[..|chunks| - 1]) + chunks[|chunks| - 1]
  }

  /** Concatenation distributes over splitting the chunk sequence. */
  lemma {:induction false} ConcatAppend(a: seq<Bytes>, b: seq<Bytes>)
    ensures Concat(a + b) == Concat(a) + Concat(b)
    decreases |b|
  {
    if b == [] {
      assert a + b == a;
    } else {
      var b' := b[..|b| - 1];
      assert (a + b)[..|a + b| - 1] == a + b';
      ConcatAppend(a, b');
    }
  }

  /** What `bytes` yields for a whole field: every chunk, in order, or a
      panic when the stream yields an error (it is unwrapped). */
  function FieldBytes(f: Field): (r: Result<Bytes, ()>)
    ensures !r.Err?
    ensures r.Ok? <==> !f.broken
    ensures r.Ok? ==> r.value == Concat(f.chunks)
  {
    if f.broken then Panic else Ok(Concat(f.chunks))
  }

  /** `bytes`: the chunks written one after another into a buffer. */
  method BytesOf(field: Field) returns (r: Result<Bytes, ()>)
    ensures r == FieldBytes(field)
  {
    var b := [];
    var i := 0;
    while i < |field.chunks|
      invariant 0 <= i <= |field.chunks|
      invariant b == Concat(field.chunks[..i])
    {
      assert field.chunks[..i + 1][..i] == field.chunks[..i];
      b := b + field.chunks[i];
      i := i + 1;
    }
    assert field.chunks[..i] == field.chunks;
    if field.broken {
      return Panic;
    }
    return Ok(b);
  }

  // ------------------------------------------------------------- multipart

  /** The variables `from_multipart` accumulates. */
  datatype FormState = FormState(
    hostKey: string,
    sessionKey: string,
    mediaClientVersion: Option<string>,
    compressed: bool,
    data: Option<Bytes>)

  const INITIAL_FORM := FormState("", "", None, false, None)

  /** The effect of one field: `c` sets `compressed` to "text is not 0", `k` and
      `sk` set the host key, `s` the session key, `v` the media client version,
      `data` the data; any other name is ignored without being read. A text
      that is not UTF-8, or a stream error inside a field that is read, panics. */
  function FieldStep(utf8: Utf8Decode, st: FormState, f: Field): (r: Result<FormState, ()>)
    ensures !r.Err?
    ensures f.name !in {"c", "k", "sk", "s", "v", "data"} ==> r == Ok(st)
    ensures f.name in {"c", "k", "sk", "s", "v"} ==> (r.Panic? <==> FieldText(utf8, f).Panic?)
    ensures r.Ok? && f.name == "c" ==>
      FieldText(utf8, f).Ok? && r.value == st.(compressed := FieldText(utf8, f).value != "0")
    ensures r.Ok? && f.name in {"k", "sk"} ==>
      FieldText(utf8, f).Ok? && r.value == st.(hostKey := FieldText(utf8, f).value)
    ensures r.Ok? && f.name == "s" ==>
      FieldText(utf8, f).Ok? && r.value == st.(sessionKey := FieldText(utf8, f).value)
    ensures r.Ok? && f.name == "v" ==>
      FieldText(utf8, f).Ok? && r.value == st.(mediaClientVersion := Some(FieldText(utf8, f).value))
    ensures f.name == "data" ==> (r.Panic? <==> f.broken)
    ensures f.name == "data" && r.Ok? ==> r.value == st.(data := Some(Concat(f.chunks)))
  {
    if f.name == "data" then
      match FieldBytes(f)
      case Ok(b) => Ok(st.(data := Some(b)))
      case _ => Panic
    else if f.name in {"c", "k", "sk", "s", "v"} then
      match FieldText(utf8, f)
      case Ok(t) =>
        Ok(if f.name == "c" then st.(compressed := t != "0")
           else if f.name == "s" then st.(sessionKey := t)
           else if f.name == "v" then st.(mediaClientVersion := Some(t))
           else st.(hostKey := t))
      case _ => Panic
    else Ok(st)
  }

  /** The field loop: fields are applied in order until the stream ends or
      yields an error, which ends the loop silently. */
  function FoldParts(utf8: Utf8Decode, st: FormState, parts: seq<Part>): (r: Result<FormState, ()>)
    ensures !r.Err?
    decreases |parts|
  {
    if parts == [] || parts[0].Broken? then Ok(st)
    else match FieldStep(utf8, st, parts[0].field)
      case Ok(st') => FoldParts(utf8, st', parts[1..])
      case _ => Panic
  }

  /** The request data after the field loop: `{}` when absent or empty
      (AnkiDroid omits it when downloading), gunzipped when compressed
      (panicking if that fails), otherwise as received. */
  function FinishData(gunzip: Gunzip, data: Option<Bytes>, compressed: bool): (r: Result<Bytes, ()>)
    ensures !r.Err?
    ensures data.None? || data.value == [] ==> r == Ok(EMPTY_JSON_OBJECT)
    ensures data.Some? && data.value != [] && !compressed ==> r == Ok(data.value)
    ensures data.Some? && data.value != [] && compressed ==>
      (r.Panic? <==> gunzip(data.value).None?) && (r.Ok? ==> Some(r.value) == gunzip(data.value))
  {
    var d := if data.Some? then data.value else [];
    if d == [] then Ok(EMPTY_JSON_OBJECT)
    else if compressed then (match gunzip(d) case Some(u) => Ok(u) case None => Panic)
    else Ok(d)
  }

  /** The request a finished form gives: protocol version 10 and an empty client version. */
  function FormRequest(ip: IpAddr, st: FormState, data: Bytes): (r: SyncRequest)
    ensures r.syncKey == st.hostKey && r.sessionKey == st.sessionKey && r.data == data
    ensures r.mediaClientVersion == st.mediaClientVersion && r.ip == ip
    ensures r.syncVersion == SYNC_VERSION_10_V2_TIMEZONE && r.clientVersion == ""
  {
    SyncRequest(ip, st.hostKey, st.sessionKey, st.mediaClientVersion, data, SYNC_VERSION_10_V2_TIMEZONE, "")
  }

  /** `from_multipart`. */
  method FromMultipart(utf8: Utf8Decode, gunzip: Gunzip, ip: IpAddr, parts: seq<Part>)
    returns (r: Result<SyncRequest, ()>)
    ensures FoldParts(utf8, INITIAL_FORM, parts).Panic? ==> r.Panic?
    ensures FoldParts(utf8, INITIAL_FORM, parts).Ok? ==>
      var st := FoldParts(utf8, INITIAL_FORM, parts).value;
      match FinishData(gunzip, st.data, st.compressed)
      case Ok(d) => r == Ok(FormRequest(ip, st, d))
      case _ => r.Panic?
  {
    var st := INITIAL_FORM;
    var i := 0;
    while i < |parts| && parts[i].Part?
      invariant 0 <= i <= |parts|
      invariant FoldParts(utf8, INITIAL_FORM, parts) == FoldParts(utf8, st, parts[i..])
    {
      var f := parts[i].field;
      assert parts[i..][1..] == parts[i + 1..];
      if f.name == "c" {
        var c := Text(utf8, f);
        if c.Ok? { st := st.(compressed := c.value != "0"); } else { return Panic; }
      } else if f.name == "k" || f.name == "sk" {
        var t := Text(utf8, f);
        if t.Ok? { st := st.(hostKey := t.value); } else { return Panic; }
      } else if f.name == "s" {
        var t := Text(utf8, f);
        if t.Ok? { st := st.(sessionKey := t.value); } else { return Panic; }
      } else if f.name == "v" {
        var t := Text(utf8, f);
        if t.Ok? { st := st.(mediaClientVersion := Some(t.value)); } else { return Panic; }
      } else if f.name == "data" {
        var b := BytesOf(f);
        if b.Ok? { st := st.(data := Some(b.value)); } else { return Panic; }
      }
      i := i + 1;
    }
    var data := if st.data.Some? then st.data.value else [];
    if data == [] {
      data := EMPTY_JSON_OBJECT;
    } else if st.compressed {
      match gunzip(data) {
        case None => return Panic;
        case Some(u) => data := u;
      }
    }
    return Ok(FormRequest(ip, st, data));
  }

  /** Applying a list of fields and then one more is applying the list and
      then that field. */
  lemma {:induction false} FoldSnoc(utf8: Utf8Decode, st: FormState, fields: seq<Field>, f: Field)
    ensures FoldParts(utf8, st, Parts(fields + [f])) ==
      match FoldParts(utf8, st, Parts(fields))
      case Ok(s) => FieldStep(utf8, s, f)
      case _ => Panic
    decreases |fields|
  {
    if fields == [] {
      assert Parts([f]) == [Part(f)];
      assert Parts([f])[1..] == [];
    } else {
      assert Parts(fields + [f])[1..] == Parts(fields[1..] + [f]);
      assert Parts(fields)[1..] == Parts(fields[1..]);
      assert (fields + [f])[0] == fields[0];
      match FieldStep(utf8, st, fields[0]) {
        case Ok(s) => FoldSnoc(utf8, s, fields[1..], f);
        case Panic =>
        case Err(_) =>
      }
    }
  }

  function Parts(fields: seq<Field>): (ps: seq<Part>)
    ensures |ps| == |fields| && forall i :: 0 <= i < |ps| ==> ps[i] == Part(fields[i])
  {
    if fields == [] then [] else [Part(fields[0])] + Parts(fields[1..])
  }

  /** The last `k`/`sk` field wins: whatever came before, a final host-key
      field with readable text decides the host key. */
  lemma {:induction false} LastHostKeyWins(utf8: Utf8Decode, fields: seq<Field>, f: Field)
    requires f.name in {"k", "sk"} && FieldText(utf8, f).Ok?
    requires FoldParts(utf8, INITIAL_FORM, Parts(fields)).Ok?
    ensures var r := FoldParts(utf8, INITIAL_FORM, Parts(fields + [f]));
            r.Ok? && r.value.hostKey == FieldText(utf8, f).value
  {
    FoldSnoc(utf8, INITIAL_FORM, fields, f);
  }

  /** A final `c` field decides compression: on exactly when its text is not `0`. */
  lemma {:induction false} LastCompressionFlagWins(utf8: Utf8Decode, fields: seq<Field>, f: Field)
    requires f.name == "c" && FieldText(utf8, f).Ok?
    requires FoldParts(utf8, INITIAL_FORM, Parts(fields)).Ok?
    ensures var r := FoldParts(utf8, INITIAL_FORM, Parts(fields + [f]));
            r.Ok? && (r.value.compressed <==> FieldText(utf8, f).value != "0")
  {
    FoldSnoc(utf8, INITIAL_FORM, fields, f);
  }

  /** Everything after a stream error is ignored. */
  lemma {:induction false} BrokenStopsFold(utf8: Utf8Decode, st: FormState, fields: seq<Field>, rest: seq<Part>)
    ensures FoldParts(utf8, st, Parts(fields) + [Broken] + rest) == FoldParts(utf8, st, Parts(fields))
    decreases |fields|
  {
    if fields == [] {
      assert (Parts(fields) + [Broken] + rest)[0] == Broken;
    } else {
      assert (Parts(fields) + [Broken] + rest)[1..] == Parts(fields[1..]) + [Broken] + rest;
      assert Parts(fields)[1..] == Parts(fields[1..]);
      match FieldStep(utf8, st, fields[0]) {
        case Ok(s) => BrokenStopsFold(utf8, s, fields[1..], rest);
        case Panic =>
        case Err(_) =>
      }
    }
  }

  /** A form whose `data` field holds a gzip of `d` and whose `c` field is
      `1` gives a request carrying `d` itself (when `d` is not empty). */
  lemma {:induction false} CompressedFormDelivers(utf8: Utf8Decode, gunzip: Gunzip, gz: Bytes, d: Bytes)
    requires gunzip(gz) == Some(d) && gz != []
    requires utf8([49]) == Some("1")
    ensures var fields := [Field("c", [[49]], false), Field("data", [gz], false)];
            var r := FoldParts(utf8, INITIAL_FORM, Parts(fields));
            r.Ok? && FinishData(gunzip, r.value.data, r.value.compressed) == Ok(d)
  {
    var fields := [Field("c", [[49]], false), Field("data", [gz], false)];
    var st1 := INITIAL_FORM.(compressed := true);
    assert FieldStep(utf8, INITIAL_FORM, fields[0]) == Ok(st1);
    assert Concat([gz]) == gz by { assert [gz][..0] == []; }
    assert FieldStep(utf8, st1, fields[1]) == Ok(st1.(data := Some(gz)));
    var st2 := st1.(data := Some(gz));
    assert Parts(fields[1..])[1..] == [];
    assert FoldParts(utf8, st1, Parts(fields[1..])) == Ok(st2);
    assert Parts(fields)[1..] == Parts(fields[1..]);
    assert FoldParts(utf8, INITIAL_FORM, Parts(fields)) == Ok(st2);
  }

  // ---------------------------------------------------- header and stream

  /** `from_header_and_stream`: an unsupported protocol version panics, so
      does a body that is not a zstd stream; otherwise the header's keys and
      versions and the decoded body make the request. */
  function FromHeaderAndStream(unzstd: ZstdDecode, h: SyncHeader, body: Bytes, ip: IpAddr): (r: Result<SyncRequest, ()>)
    ensures !r.Err?
    ensures r.Ok? <==> IsSupported(h.syncVersion) && unzstd(body).Some?
    ensures r.Ok? ==> r.value == SyncRequest(ip, h.syncKey, h.sessionKey, None, unzstd(body).value,
                                             h.syncVersion, h.clientVer)
  {
    if !IsSupported(h.syncVersion) then Panic
    else match unzstd(body)
      case Some(d) => Ok(SyncRequest(ip, h.syncKey, h.sessionKey, None, d, h.syncVersion, h.clientVer))
      case None => Panic
  }

  /** `HeaderValue::to_str` succeeds on visible ASCII and tab only. */
  predicate VisibleAscii(v: Bytes)
  {
    forall i :: 0 <= i < |v| ==> v[i] == 9 || 32 <= v[i] < 127
  }

  function AsciiText(v: Bytes): (s: string)
    requires VisibleAscii(v)
    ensures |s| == |v| && forall i :: 0 <= i < |v| ==> s[i] as int == v[i]
  {
    if v == [] then "" else [v[0] as char] + AsciiText(v[1..])
  }

  /** JSON decoding of the header (kept abstract): `None` when the text is not
      JSON of the right shape, `Some(None)` for JSON `null`. */
  type HeaderJson = string -> Option<Option<SyncHeader>>

  /** Splitting a request body into multipart items (kept abstract). */
  type MultipartParse = Bytes -> seq<Part>

  /** A sync header `call` can use: visible ASCII holding a JSON sync header (not `null`). */
  predicate ValidHeader(json: HeaderJson, v: Bytes)
  {
    VisibleAscii(v) && json(AsciiText(v)).Some? && json(AsciiText(v)).value.Some?
  }

  /** The wrapper's `call`: with a sync header, the header must be visible
      ASCII holding a JSON sync header, and the request is built from it and
      the zstd body; without one, the body is read as a multipart form. Either
      way a missing peer address panics. */
  function BuildRequest(utf8: Utf8Decode, gunzip: Gunzip, unzstd: ZstdDecode, json: HeaderJson,
                        splitForm: MultipartParse, syncHeader: Option<Bytes>, ip: Option<IpAddr>,
                        body: Bytes): (r: Result<SyncRequest, ()>)
    ensures !r.Err?
    ensures ip.None? ==> r.Panic?
    ensures syncHeader.Some? && !ValidHeader(json, syncHeader.value) ==> r.Panic?
    ensures syncHeader.Some? && ValidHeader(json, syncHeader.value) && ip.Some? ==>
      r == FromHeaderAndStream(unzstd, json(AsciiText(syncHeader.value)).value.value, body, ip.value)
    ensures syncHeader.None? && ip.Some? ==>
      var st := FoldParts(utf8, INITIAL_FORM, splitForm(body));
      && (r.Ok? <==> st.Ok? && FinishData(gunzip, st.value.data, st.value.compressed).Ok?)
      && (r.Ok? ==> r.value == FormRequest(ip.value, st.value, FinishData(gunzip, st.value.data, st.value.compressed).value))
  {
    match syncHeader
    case Some(v) =>
      if !VisibleAscii(v) then Panic
      else (match json(AsciiText(v))
        case Some(Some(h)) => if ip.None? then Panic else FromHeaderAndStream(unzstd, h, body, ip.value)
        case _ => Panic)
    case None =>
      if ip.None? then Panic
      else match FoldParts(utf8, INITIAL_FORM, splitForm(body))
        case Ok(st) =>
          (match FinishData(gunzip, st.data, st.compressed)
           case Ok(d) => Ok(FormRequest(ip.value, st, d))
           case _ => Panic)
        case _ => Panic
  }

  /** A request that arrives with a sync header is never read as a form: it
      carries the header's (supported) version and client version, and no
      media client version. */
  lemma HeaderRequestsKeepVersion(utf8: Utf8Decode, gunzip: Gunzip, unzstd: ZstdDecode, json: HeaderJson,
                                  splitForm: MultipartParse, v: Bytes, ip: Option<IpAddr>, body: Bytes)
    ensures var r := BuildRequest(utf8, gunzip, unzstd, json, splitForm, Some(v), ip, body);
            r.Ok? ==> && ValidHeader(json, v)
                      && var h := json(AsciiText(v)).value.value;
                      && r.value.syncVersion == h.syncVersion && IsSupported(h.syncVersion)
                      && r.value.clientVersion == h.clientVer
                      && r.value.mediaClientVersion.None?
  {
  }

  /** A request read as a form claims protocol version 10 and no client
      version, whatever the form holds. */
  lemma FormRequestsAssumeVersion10(utf8: Utf8Decode, gunzip: Gunzip, unzstd: ZstdDecode, json: HeaderJson,
                                    splitForm: MultipartParse, ip: Option<IpAddr>, body: Bytes)
    ensures var r := BuildRequest(utf8, gunzip, unzstd, json, splitForm, None, ip, body);
            r.Ok? ==> r.value.syncVersion == SYNC_VERSION_10_V2_TIMEZONE && r.value.clientVersion == ""
  {
  }

  /** A well-formed header request from a known peer with a supported version
      and a zstd body succeeds. */
  lemma ValidHeaderRequestSucceeds(utf8: Utf8Decode, gunzip: Gunzip, unzstd: ZstdDecode, json: HeaderJson,
                                   splitForm: MultipartParse, v: Bytes, ip: IpAddr, body: Bytes, h: SyncHeader)
    requires VisibleAscii(v) && json(AsciiText(v)) == Some(Some(h))
    requires IsSupported(h.syncVersion) && unzstd(body).Some?
    ensures BuildRequest(utf8, gunzip, unzstd, json, splitForm, Some(v), Some(ip), body)
            == Ok(SyncRequest(ip, h.syncKey, h.sessionKey, None, unzstd(body).value, h.syncVersion, h.clientVer))
  {
  }

  // -------------------------------------------------------------- host key

  /** The password hash the server compares a login against (kept abstract:
      it is not defined in this repository's `user.rs`). */
  type ComputeHash = (string, string, string) -> string

  datatype HostKeyRequest = HostKeyRequest(username: string, password: string)

  /** `host_key`: the first user (in the server's iteration order) named like
      the request decides; the login succeeds, returning that user's stored
      hash as the host key, when the hash computed from the request's
      credentials and the stored hash equals it; otherwise, and for an unknown
      name, an authentication error. */
  function HostKey(computeHash: ComputeHash, users: seq<(string, string)>, req: HostKeyRequest)
    : (r: Result<string, Errors.AppError>)
    ensures !r.Panic?
    ensures r.Err? ==> r.error.UserError? && r.error.user.Authentication?
    ensures (forall i :: 0 <= i < |users| ==> users[i].1 != req.username) ==> r.Err?
    ensures r.Ok? ==> exists i :: 0 <= i < |users| && users[i] == (r.value, req.username)
                        && computeHash(req.username, req.password, r.value) == r.value
  {
    if users == [] then
      Err(Errors.UserError(Users.Authentication("Authentication failed for nonexistent user " + req.username)))
    else if users[0].1 == req.username then
      var hash := users[0].0;
      if computeHash(req.username, req.password, hash) == hash then Ok(hash)
      else Err(Errors.UserError(Users.Authentication("Authentication failed for user " + req.username)))
    else
      match HostKey(computeHash, users[1..], req)
      case Ok(k) => Ok(k)
      case Err(e) => Err(e)
      case Panic => Panic
  }

  /** Only the first user with the requested name is consulted: a later user of
      the same name cannot rescue a failed login. */
  lemma {:induction false} HostKeyFirstMatch(computeHash: ComputeHash, users: seq<(string, string)>,
                                             req: HostKeyRequest, i: nat)
    requires i < |users| && users[i].1 == req.username
    requires forall j :: 0 <= j < i ==> users[j].1 != req.username
    ensures HostKey(computeHash, users, req).Ok? <==> computeHash(req.username, req.password, users[i].0) == users[i].0
    ensures HostKey(computeHash, users, req).Ok? ==> HostKey(computeHash, users, req).value == users[i].0
  {
    if i > 0 {
      HostKeyFirstMatch(computeHash, users[1..], req, i - 1);
    }
  }

  /** A refused login is answered with 403 Forbidden. */
  lemma RefusedLoginForbidden(computeHash: ComputeHash, users: seq<(string, string)>, req: HostKeyRequest)
    ensures var r := HostKey(computeHash, users, req);
            r.Err? ==> Errors.ErrorResponse(r.error).status == 403
  {
  }
}
