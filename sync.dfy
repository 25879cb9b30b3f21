/** The sync endpoint (`src/sync.rs`): turning a GET query or a multipart
    POST into a map of request fields, ungzipping the payload, and routing
    the request to collection sync, to media sync, or to a 404. */
module Sync {
  import opened Base
  import opened Http
  import opened Errors
  import CollectionSync
  import Request
  import Sessions
  import opened MediaTable
  import opened MediaFiles
  import opened MediaDownload
  import opened Media

  /** The request fields by name (`HashMap<String, Vec<u8>>`). */
  type RequestMap = map<string, Bytes>

  // ------------------------------------------------------------ decode

  const BAD_GZIP := "invalid gzip header"

  /** `decode`: the payload is ungzipped only when the compression field is
      exactly the byte "1" and the payload is not empty; a gzip failure is an
      I/O error. */
  function Decode(gunzip: Gunzip, data: Bytes, compression: Option<Bytes>): (r: Result<Bytes, AppError>)
    ensures !r.Panic?
    ensures !(compression == Some(ASCII_ONE) && data != []) ==> r == Ok(data)
    ensures r.Ok? && r.value != data ==> compression == Some(ASCII_ONE) && data != [] && gunzip(data) == Some(r.value)
    ensures r.Err? <==> compression == Some(ASCII_ONE) && data != [] && gunzip(data).None?
    ensures r.Err? ==> r.error.IO?
  {
    match compression
    case Some(c) =>
      if c == ASCII_ONE then
        if data == [] then Ok(data)
        else
          match gunzip(data)
          case Some(b) => Ok(b)
          case None => Err(IO(BAD_GZIP))
      else Ok(data)
    case None => Ok(data)
  }

  /** A gzipped payload sent with the flag "1" comes back as the original. */
  lemma DecodeRoundTrip(gzip: Bytes -> Bytes, gunzip: Gunzip, d: Bytes)
    requires gunzip(gzip(d)) == Some(d) && gzip(d) != []
    ensures Decode(gunzip, gzip(d), Some(ASCII_ONE)) == Ok(d)
  {
  }

  // ------------------------------------------------------------ GET

  /** `urlparse(..).get_parsed_query()`: the values of each query key, or
      `None` for a missing or empty query. */
  type QueryParse = string -> Option<map<string, seq<string>>>

  /** `values.join("")`. */
  function JoinValues(vs: seq<string>): (s: string)
  {
    if vs == [] then "" else JoinValues(vs[..|vs| - 1]) + vs[|vs| - 1]
  }

  /** Joining splits over concatenation, and a single value joins to itself. */
  lemma {:induction false} JoinValuesAppend(a: seq<string>, b: seq<string>)
    ensures JoinValues(a + b) == JoinValues(a) + JoinValues(b)
    ensures JoinValues([JoinValues(a)]) == JoinValues(a)
    decreases |b|
  {
    assert [JoinValues(a)][..0] == [];
    if b == [] {
      assert a + b == a;
    } else {
      var n := |b| - 1;
      assert (a + b)[..|a + b| - 1] == a + b[..n];
      JoinValuesAppend(a, b[..n]);
    }
  }

  const NO_PATH := "Could not get path and query from HTTP request"
  const EMPTY_QUERY := "Empty query in HTTP request"

  /** What `parse_get_request` yields: each query key with its values joined
      and encoded; a missing path or empty query is a `ParseGET` error. */
  function ParseGet(parseQuery: QueryParse, encode: Utf8Encode, pathAndQuery: Option<string>): (r: Result<RequestMap, AppError>)
    ensures !r.Panic?
    ensures r.Err? <==> pathAndQuery.None? || parseQuery(pathAndQuery.value).None?
    ensures r.Err? ==> r.error.ParseGET?
    ensures r.Ok? ==> var q := parseQuery(pathAndQuery.value).value;
              r.value.Keys == q.Keys && forall k :: k in q ==> r.value[k] == encode(JoinValues(q[k]))
  {
    match pathAndQuery
    case None => Err(ParseGET(NO_PATH))
    case Some(p) =>
      match parseQuery(p)
      case None => Err(ParseGET(EMPTY_QUERY))
      case Some(q) => Ok(map k | k in q :: encode(JoinValues(q[k])))
  }

  /** `parse_get_request`: fills the map key by key. */
  method ParseGetRequest(parseQuery: QueryParse, encode: Utf8Encode, pathAndQuery: Option<string>)
    returns (r: Result<RequestMap, AppError>)
    ensures r == ParseGet(parseQuery, encode, pathAndQuery)
  {
    if pathAndQuery.None? {
      return Err(ParseGET(NO_PATH));
    }
    var query := parseQuery(pathAndQuery.value);
    if query.None? {
      return Err(ParseGET(EMPTY_QUERY));
    }
    var q := query.value;
    var m: RequestMap := map[];
    var todo := q.Keys;
    while todo != {}
      invariant todo <= q.Keys
      invariant m == map k | k in q && k !in todo :: encode(JoinValues(q[k]))
      decreases |todo|
    {
      var k :| k in todo;
      m := m[k := encode(JoinValues(q[k]))];
      todo := todo - {k};
    }
    assert m == map k | k in q :: encode(JoinValues(q[k]));
    r := Ok(m);
  }

  // ------------------------------------------------------------ POST

  /** A multipart field as the stream yields it: its name (`None` when the
      content disposition has none), the chunks it yields, and whether its
      chunk stream then fails; `PostBroken` is a stream error between fields. */
  datatype PostPart = PostField(name: Option<string>, chunks: seq<Bytes>, broken: bool) | PostBroken

  const STREAM_ERROR := "multipart stream error"

  /** What `parse_payload` yields from field `i` on, with the map `m` built
      so far: a stream error is a `Multipart` error; a field without a name
      panics (`get_name().unwrap()`) before its chunks are read; a field whose
      chunks fail is a `Multipart` error; every other field stores its chunks,
      concatenated, under its name. */
  function PayloadFrom(parts: seq<PostPart>, i: nat, m: RequestMap): (r: Result<RequestMap, AppError>)
    decreases |parts| - i
  {
    if i >= |parts| then Ok(m)
    else
      match parts[i]
      case PostBroken => Err(Multipart(STREAM_ERROR))
      case PostField(None, _, _) => Panic
      case PostField(Some(k), cs, broken) =>
        if broken then Err(Multipart(STREAM_ERROR))
        else PayloadFrom(parts, i + 1, m[k := Request.Concat(cs)])
  }

  /** A field that can be stored. */
  predicate Named(p: PostPart)
  {
    p.PostField? && p.name.Some? && !p.broken
  }

  /** `parse_payload`. */
  method ParsePayload(parts: seq<PostPart>) returns (r: Result<RequestMap, AppError>)
    ensures r == PayloadFrom(parts, 0, map[])
  {
    var m: RequestMap := map[];
    for i := 0 to |parts|
      invariant PayloadFrom(parts, 0, map[]) == PayloadFrom(parts, i, m)
    {
      match parts[i]
      case PostBroken =>
        return Err(Multipart(STREAM_ERROR));
      case PostField(name, chunks, broken) =>
        if name.None? {
          return Panic;
        }
        if broken {
          return Err(Multipart(STREAM_ERROR));
        }
        var v := Request.BytesOf(Request.Field(name.value, chunks, false));
        m := m[name.value := v.value];
    }
    r := Ok(m);
  }

  /** The payload parses iff every part is a named field; the first part
      that is not decides the failure. */
  lemma {:induction false} PayloadOkIffNamed(parts: seq<PostPart>, i: nat, m: RequestMap)
    ensures PayloadFrom(parts, i, m).Ok? <==> forall j :: i <= j < |parts| ==> Named(parts[j])
    ensures PayloadFrom(parts, i, m).Err? ==> PayloadFrom(parts, i, m).error.Multipart?
    decreases |parts| - i
  {
    if i < |parts| {
      if Named(parts[i]) {
        PayloadOkIffNamed(parts, i + 1, m[parts[i].name.value := Request.Concat(parts[i].chunks)]);
      }
    }
  }

  /** A later field of the same name overwrites an earlier one: a name's
      value is the concatenated chunks of its last field. */
  lemma {:induction false} PayloadLastFieldWins(parts: seq<PostPart>, i: nat, m: RequestMap, j: nat)
    requires i <= j < |parts| && Named(parts[j])
    requires forall l :: j < l < |parts| && Named(parts[l]) ==> parts[l].name != parts[j].name
    requires PayloadFrom(parts, i, m).Ok?
    ensures parts[j].name.value in PayloadFrom(parts, i, m).value
    ensures PayloadFrom(parts, i, m).value[parts[j].name.value] == Request.Concat(parts[j].chunks)
    decreases |parts| - i
  {
    var next := m[parts[i].name.value := Request.Concat(parts[i].chunks)];
    if i < j {
      PayloadLastFieldWins(parts, i + 1, next, j);
    } else {
      PayloadUntouched(parts, i + 1, next, parts[j].name.value);
    }
  }

  /** A name no later field carries keeps its value from the map so far. */
  lemma {:induction false} PayloadUntouched(parts: seq<PostPart>, i: nat, m: RequestMap, k: string)
    requires forall l :: i <= l < |parts| && Named(parts[l]) ==> parts[l].name != Some(k)
    requires PayloadFrom(parts, i, m).Ok?
    ensures k in PayloadFrom(parts, i, m).value <==> k in m
    ensures k in m ==> PayloadFrom(parts, i, m).value[k] == m[k]
    decreases |parts| - i
  {
    if i < |parts| {
      PayloadUntouched(parts, i + 1, m[parts[i].name.value := Request.Concat(parts[i].chunks)], k);
    }
  }

  // ------------------------------------------------------------ parse_request_method

  /** The parts of an HTTP request the endpoint reads. */
  datatype HttpRequestIn = HttpRequestIn(httpMethod: string, pathAndQuery: Option<string>, parts: seq<PostPart>)

  /** What `parse_request_method` yields: the query for a GET, the
      multipart body for any other method. */
  function ParseRequest(parseQuery: QueryParse, encode: Utf8Encode, req: HttpRequestIn): Result<RequestMap, AppError>
  {
    if req.httpMethod == "GET" then ParseGet(parseQuery, encode, req.pathAndQuery)
    else PayloadFrom(req.parts, 0, map[])
  }

  /** `parse_request_method`. */
  method ParseRequestMethod(parseQuery: QueryParse, encode: Utf8Encode, req: HttpRequestIn)
    returns (r: Result<RequestMap, AppError>)
    ensures r == ParseRequest(parseQuery, encode, req)
    ensures req.httpMethod == "GET" ==> r == ParseGet(parseQuery, encode, req.pathAndQuery)
    ensures req.httpMethod != "GET" ==> r == PayloadFrom(req.parts, 0, map[])
  {
    if req.httpMethod == "GET" {
      r := ParseGetRequest(parseQuery, encode, req.pathAndQuery);
    } else {
      r := ParsePayload(req.parts);
    }
  }

  // ------------------------------------------------------------ routing

  /** No name is both a collection and a media method. */
  lemma OperationsDisjoint()
    ensures forall n :: n in MOPERATIONS ==> n !in CollectionSync.OPERATIONS
  {
    assert MOPERATIONS == ["begin", "mediaChanges", "mediaSanity", "uploadChanges", "downloadFiles"];
    forall n | n in MOPERATIONS ensures n !in CollectionSync.OPERATIONS {
      var i :| 0 <= i < |MOPERATIONS| && MOPERATIONS[i] == n;
      assert n[0] in {'b', 'm', 'u', 'd'};
    }
  }

  datatype Route = ToCollection(mtd: Option<CollectionSync.Method>) | ToMedia | NotFound

  /** Where `sync_app` sends a method name. */
  function RouteOf(name: string): (r: Route)
    ensures r.ToCollection? <==> name in CollectionSync.OPERATIONS
    ensures r.ToCollection? ==> r.mtd == CollectionSync.MapSyncMethod(name) && r.mtd.Some?
    ensures r.ToMedia? <==> name in MOPERATIONS
    ensures r.NotFound? <==> name !in CollectionSync.OPERATIONS && name !in MOPERATIONS
  {
    OperationsDisjoint();
    if name in CollectionSync.OPERATIONS then ToCollection(CollectionSync.MapSyncMethod(name))
    else if name in MOPERATIONS then ToMedia
    else NotFound
  }

  /** The callees `sync_app` reaches, kept abstract: the query parser and
      text encoder, gzip, the collection sync handler, `load_session`, the
      opening of the user's media database and folder (`MediaManager::new`),
      the media library, and the JSON and zip writers of the replies. */
  datatype SyncEnv = SyncEnv(
    parseQuery: QueryParse,
    encode: Utf8Encode,
    gunzip: Gunzip,
    collectionSync: (Option<CollectionSync.Method>, RequestMap, Bytes) -> Result<HttpResponse, AppError>,
    loadSession: RequestMap -> Result<Sessions.Session, AppError>,
    openMedia: Sessions.Session -> Result<(Table, Folder), AppError>,
    media: MediaLib,
    json: MediaReply -> Bytes,
    writeZip: (seq<Archived>, map<string, string>) -> Bytes)

  const JSON_CONTENT_TYPE := ("content-type", "application/json")

  /** The HTTP response of a media reply: JSON with a 200, the zip bytes for
      `downloadFiles`, an empty 200 for an unknown name. */
  function MediaResponse(env: SyncEnv, r: Result<MediaReply, AppError>): (resp: Result<HttpResponse, AppError>)
    ensures r.Ok? <==> resp.Ok?
    ensures r.Err? <==> resp.Err?
    ensures r.Err? ==> resp.error == r.error
    ensures resp.Ok? ==> resp.value.status == OK
  {
    match r
    case Ok(EmptyOk) => Ok(HttpResponse(OK, [], NoBody))
    case Ok(ZipReply(entries, meta)) => Ok(HttpResponse(OK, [], Full(env.writeZip(entries, meta))))
    case Ok(reply) => Ok(HttpResponse(OK, [JSON_CONTENT_TYPE], Full(env.json(reply))))
    case Err(e) => Err(e)
    case Panic => Panic
  }

  /** The data payload: the "data" field, or nothing. */
  function DataFrame(m: RequestMap): Bytes
  {
    if "data" in m then m["data"] else []
  }

  function Field(m: RequestMap, name: string): Option<Bytes>
  {
    if name in m then Some(m[name]) else None
  }

  /** What a media method may answer once routed: a session that fails to
      load, or a media database that fails to open, ends the request;
      otherwise the reply is one `media_sync` may give on that user's media. */
  ghost predicate MediaRouted(env: SyncEnv, name: string, m: RequestMap, data: Bytes, r: Result<HttpResponse, AppError>)
  {
    match env.loadSession(m)
    case Err(e) => r == Err(e)
    case Panic => r.Panic?
    case Ok(session) =>
      match env.openMedia(session)
      case Err(e) => r == Err(e)
      case Panic => r.Panic?
      case Ok((db, folder)) =>
        exists reply, db1, folder1 ::
          MediaOutcome(env.media, name, session, db, folder, data, reply, db1, folder1) && r == MediaResponse(env, reply)
  }

  /** What `sync_app` may answer: parse failures end the request; the
      payload is decoded before the name is looked at, so a bad gzip payload
      is an error even for an unknown name; then collection names go to the
      collection handler, media names to media sync, and anything else is a
      404 with no body. */
  ghost predicate SyncAppOutcome(env: SyncEnv, syncMethod: string, req: HttpRequestIn, r: Result<HttpResponse, AppError>)
  {
    match ParseRequest(env.parseQuery, env.encode, req)
    case Err(e) => r == Err(e)
    case Panic => r.Panic?
    case Ok(m) =>
      match Decode(env.gunzip, DataFrame(m), Field(m, "c"))
      case Err(e) => r == Err(e)
      case Panic => r.Panic?
      case Ok(data) =>
        match RouteOf(syncMethod)
        case NotFound => r == Ok(HttpResponse(NOT_FOUND, [], NoBody))
        case ToCollection(mtd) => r == env.collectionSync(mtd, m, data)
        case ToMedia => MediaRouted(env, syncMethod, m, data, r)
  }

  /** `sync_app`. */
  method SyncApp(env: SyncEnv, syncMethod: string, req: HttpRequestIn) returns (r: Result<HttpResponse, AppError>)
    ensures SyncAppOutcome(env, syncMethod, req, r)
  {
    var parsed := ParseRequestMethod(env.parseQuery, env.encode, req);
    if parsed.Err? {
      return Err(parsed.error);
    } else if parsed.Panic? {
      return Panic;
    }
    var m := parsed.value;
    var dataFrame := if "data" in m then m["data"] else [];
    var mtd := CollectionSync.MapSyncMethod(syncMethod);
    var decoded := Decode(env.gunzip, dataFrame, if "c" in m then Some(m["c"]) else None);
    if decoded.Err? {
      return Err(decoded.error);
    }
    var data := decoded.value;
    if syncMethod in CollectionSync.OPERATIONS {
      r := env.collectionSync(mtd, m, data);
    } else if syncMethod in MOPERATIONS {
      var session := env.loadSession(m);
      if session.Err? {
        return Err(session.error);
      } else if session.Panic? {
        return Panic;
      }
      var media := env.openMedia(session.value);
      if media.Err? {
        return Err(media.error);
      } else if media.Panic? {
        return Panic;
      }
      var mm := new MediaManager(media.value.0, media.value.1);
      var reply := mm.MediaSync(env.media, syncMethod, session.value, data);
      r := MediaResponse(env, reply);
    } else {
      r := Ok(HttpResponse(NOT_FOUND, [], NoBody));
    }
  }

  /** `sync_app_no_fail`: an error becomes a bare 500. */
  function NoFail(r: Result<HttpResponse, AppError>): (s: Result<HttpResponse, AppError>)
    ensures !s.Err?
    ensures r.Ok? ==> s == r
    ensures r.Err? ==> s == Ok(HttpResponse(INTERNAL_SERVER_ERROR, [], NoBody))
    ensures r.Panic? ==> s.Panic?
  {
    match r
    case Err(_) => Ok(HttpResponse(INTERNAL_SERVER_ERROR, [], NoBody))
    case _ => r
  }

  method SyncAppNoFail(env: SyncEnv, syncMethod: string, req: HttpRequestIn) returns (r: Result<HttpResponse, AppError>)
    ensures !r.Err?
    ensures exists inner :: SyncAppOutcome(env, syncMethod, req, inner) && r == NoFail(inner)
  {
    var inner := SyncApp(env, syncMethod, req);
    r := NoFail(inner);
  }

  /** A payload flagged as gzip that does not ungzip gets a 500 through the
      no-fail endpoint, whatever the method name, even one that would be a
      404. */
  lemma BadGzipIsServerError(env: SyncEnv, syncMethod: string, req: HttpRequestIn, inner: Result<HttpResponse, AppError>)
    requires SyncAppOutcome(env, syncMethod, req, inner)
    requires ParseRequest(env.parseQuery, env.encode, req).Ok?
    requires var m := ParseRequest(env.parseQuery, env.encode, req).value;
             Field(m, "c") == Some(ASCII_ONE) && DataFrame(m) != [] && env.gunzip(DataFrame(m)).None?
    ensures inner.Err? && inner.error.IO?
    ensures NoFail(inner) == Ok(HttpResponse(INTERNAL_SERVER_ERROR, [], NoBody))
  {
  }

  /** A well-formed request for a name that is neither a collection nor a
      media method is answered 404 with no body. */
  lemma UnknownNameNotFound(env: SyncEnv, syncMethod: string, req: HttpRequestIn, inner: Result<HttpResponse, AppError>)
    requires SyncAppOutcome(env, syncMethod, req, inner)
    requires syncMethod !in CollectionSync.OPERATIONS && syncMethod !in MOPERATIONS
    requires ParseRequest(env.parseQuery, env.encode, req).Ok?
    requires var m := ParseRequest(env.parseQuery, env.encode, req).value;
             Decode(env.gunzip, DataFrame(m), Field(m, "c")).Ok?
    ensures NoFail(inner) == inner == Ok(HttpResponse(NOT_FOUND, [], NoBody))
  {
  }
}
