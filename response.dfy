/** HTTP responses as values: a status, headers and a body. */
module Http {
  import opened Base

  datatype Body =
    | NoBody               // `finish()`
    | Full(data: Bytes)    // `body(data)`
    | Stream(data: Bytes)  // `streaming(..)`: the bytes the stream yields

  datatype HttpResponse = HttpResponse(status: nat, headers: seq<(string, string)>, body: Body)

  const OK := 200
  const FORBIDDEN := 403
  const NOT_FOUND := 404
  const INTERNAL_SERVER_ERROR := 500

  /** The value of the first header called `name`. */
  function Header(r: HttpResponse, name: string): (v: Option<string>)
    ensures v.None? <==> forall i :: 0 <= i < |r.headers| ==> r.headers[i].0 != name
    ensures v.Some? ==> exists i :: 0 <= i < |r.headers| && r.headers[i] == (name, v.value)
  {
    HeaderIn(r.headers, name)
  }

  function HeaderIn(hs: seq<(string, string)>, name: string): (v: Option<string>)
    ensures v.None? <==> forall i :: 0 <= i < |hs| ==> hs[i].0 != name
    ensures v.Some? ==> exists i :: 0 <= i < |hs| && hs[i] == (name, v.value)
  {
    if hs == [] then None else if hs[0].0 == name then Some(hs[0].1) else HeaderIn(hs[1..], name)
  }
}

/** Protocol versions of the sync protocol, as the anki crate's `SyncVersion`
    numbers them. */
module SyncVersion {
  type SyncVersion = v: int | 0 <= v < 256

  const SYNC_VERSION_MIN: SyncVersion := 8
  const SYNC_VERSION_10_V2_TIMEZONE: SyncVersion := 10
  const SYNC_VERSION_11_DIRECT_POST: SyncVersion := 11
  const SYNC_VERSION_MAX: SyncVersion := 11

  /** Versions from 11 on frame their bodies with zstd. */
  predicate IsZstd(v: SyncVersion) { v >= SYNC_VERSION_11_DIRECT_POST }

  predicate IsSupported(v: SyncVersion) { SYNC_VERSION_MIN <= v <= SYNC_VERSION_MAX }
}

/** Response framing (`src/response.rs`). */
module Response {
  import opened Base
  import opened Http
  import opened SyncVersion

  /** The anki crate's `ORIGINAL_SIZE` header name. */
  const ORIGINAL_SIZE := "anki-original-size"

  /** `make_response`: always 200; a zstd client gets the zstd stream of the
      data and the uncompressed length in `ORIGINAL_SIZE`; any other client gets
      the data itself. */
  function MakeResponse(data: Bytes, version: SyncVersion, zstd: ZstdEncode): (r: HttpResponse)
    ensures r.status == OK
    ensures !IsZstd(version) ==> r.body == Full(data) && r.headers == []
    ensures IsZstd(version) ==> r.body == Stream(zstd(data))
    ensures IsZstd(version) ==> Header(r, ORIGINAL_SIZE) == Some(Decimal(|data|))
  {
    if IsZstd(version) then
      HttpResponse(OK, [(ORIGINAL_SIZE, Decimal(|data|))], Stream(zstd(data)))
    else
      HttpResponse(OK, [], Full(data))
  }

  /** What a client reads out of a response: the plain body, or the decoded
      stream checked against the declared original size. */
  function ClientReads(r: HttpResponse, unzstd: ZstdDecode): Option<Bytes>
  {
    match r.body
    case Full(d) => Some(d)
    case Stream(s) =>
      (match (unzstd(s), Header(r, ORIGINAL_SIZE))
       case (Some(d), Some(size)) => if size == Decimal(|d|) then Some(d) else None
       case _ => None)
    case NoBody => None
  }

  /** With a zstd decoder that inverts the encoder, every response gives the
      client back exactly the data it was made from, at every version. */
  lemma {:induction false} ResponseRoundTrip(data: Bytes, version: SyncVersion, zstd: ZstdEncode, unzstd: ZstdDecode)
    requires unzstd(zstd(data)) == Some(data)
    ensures ClientReads(MakeResponse(data, version, zstd), unzstd) == Some(data)
  {
    var r := MakeResponse(data, version, zstd);
    if IsZstd(version) {
      assert r.headers == [(ORIGINAL_SIZE, Decimal(|data|))];
      assert Header(r, ORIGINAL_SIZE) == Some(Decimal(|data|));
    }
  }

  /** The `ORIGINAL_SIZE` header reads back as the length of the uncompressed data. */
  lemma {:induction false} OriginalSizeReadsBack(data: Bytes, version: SyncVersion, zstd: ZstdEncode)
    requires IsZstd(version)
    ensures var h := Header(MakeResponse(data, version, zstd), ORIGINAL_SIZE);
            h.Some? && |h.value| >= 1 && AllDigits(h.value) && ParseDecimal(h.value) == |data|
  {
    DecimalRoundTrip(|data|);
  }
}
