/** The `getSasUrl` handler: choose a file name and content type, derive a fresh blob name, and
    issue an upload capability and a preview capability for it. */
module GetSasUrl {
  import opened Outcomes
  import opened Text
  import opened Names
  import opened Storage
  import opened Capability
  import ListVideos

  /** The inputs the handler reads: `filename` and `contentType` from the query string and from
      the JSON body, each `None` when missing. */
  datatype Request = Request(
    queryFilename: Option<string>, queryContentType: Option<string>,
    bodyFilename: Option<string>, bodyContentType: Option<string>)

  datatype Response = Response(uploadUrl: string, blobName: string, previewUrl: string, contentType: string)

  const DefaultFilename: string := "video.mp4"
  const DefaultContentType: string := "video/mp4"

  /** `query || body || fallback`: the first set (present and non-empty) value. */
  function Pick(query: Option<string>, body: Option<string>, fallback: string): (v: string)
    ensures IsSet(query) ==> v == query.value
    ensures !IsSet(query) && IsSet(body) ==> v == body.value
    ensures !IsSet(query) && !IsSet(body) ==> v == fallback
    ensures fallback != "" ==> v != ""
  {
    if IsSet(query) then query.value else if IsSet(body) then body.value else fallback
  }

  /** `${Date.now()}_${sanitizeBlobName(filename)}`. */
  function BlobNameFor(now: nat, filename: string): (b: string)
    ensures NoForbidden(b) && NoWhitespace(b)
    ensures IsSuffix(SanitizeBlobName(filename), b)
    ensures '.' !in b[..|b| - |SanitizeBlobName(filename)|]
  {
    var name := SanitizeBlobName(filename);
    var stamp := NatToDecimal(now) + "_";
    assert forall i :: 0 <= i < |stamp| ==> IsDigit(stamp[i]) || stamp[i] == '_';
    SafeConcat(stamp, name);
    var b := stamp + name;
    assert b[|b| - |name|..] == name;
    assert b[..|b| - |name|] == stamp;
    b
  }

  /** Joining two names free of forbidden characters and white space gives such a name. */
  lemma SafeConcat(a: string, b: string)
    requires NoForbidden(a) && NoWhitespace(a)
    requires NoForbidden(b) && NoWhitespace(b)
    ensures NoForbidden(a + b) && NoWhitespace(a + b)
  {
    forall i | 0 <= i < |a + b|
      ensures !IsForbidden((a + b)[i]) && !IsWhitespace((a + b)[i])
    {
      if i >= |a| {
        assert (a + b)[i] == b[i - |a|];
      }
    }
  }

  /** The blob name starts with the issuing millisecond, in decimal, up to its first `_`; the
      rest is the sanitised file name. */
  lemma BlobNameTimestamp(now: nat, filename: string)
    ensures '_' in BlobNameFor(now, filename)
    ensures
      var b := BlobNameFor(now, filename);
      var i := FirstIndex(b, '_');
      AllDigits(b[..i]) && DecimalValue(b[..i]) == now && b[i + 1..] == SanitizeBlobName(filename)
  {
    var d := NatToDecimal(now);
    var b := BlobNameFor(now, filename);
    assert b == d + "_" + SanitizeBlobName(filename);
    assert b[|d|] == '_';
    var i := FirstIndex(b, '_');
    assert forall k :: 0 <= k < |d| ==> b[k] == d[k] && b[k] != '_';
    assert i == |d|;
    assert b[..i] == d;
    DecimalRoundTrip(now);
  }

  /** Names issued at different milliseconds differ, whatever the file names. */
  lemma BlobNamesDistinctInTime(m: nat, n: nat, f: string, g: string)
    requires m != n
    ensures BlobNameFor(m, f) != BlobNameFor(n, g)
  {
    BlobNameTimestamp(m, f);
    BlobNameTimestamp(n, g);
  }

  /** An uploaded blob passes the gallery's video filter exactly when its sanitised file name does. */
  lemma UploadListedIff(now: nat, filename: string)
    ensures ListVideos.IsVideoName(BlobNameFor(now, filename)) <==> ListVideos.IsVideoName(SanitizeBlobName(filename))
  {
    var b := BlobNameFor(now, filename);
    var s := SanitizeBlobName(filename);
    var p := b[..|b| - |s|];
    assert b == p + s;
    ListVideos.VideoNameAfterPrefix(p, s);
  }

  /** The handler, given the connection string, the request, the clock, and the signer and encoder. */
  function Handle(conn: Option<string>, req: Request, now: nat, sign: Signer, encode: Encoder): (r: Result<Response>)
    ensures r.Failure? <==> SharedKeyCredential(conn).Failure?
    ensures r.Failure? ==> r.error == SharedKeyCredential(conn).error
    ensures r.Success? ==>
      var account := SharedKeyCredential(conn).value;
      var filename := Pick(req.queryFilename, req.bodyFilename, DefaultFilename);
      var b := BlobNameFor(now, filename);
      && r.value.blobName == b
      && r.value.contentType == Pick(req.queryContentType, req.bodyContentType, DefaultContentType)
      && r.value.uploadUrl == CapabilityUrl(account, Params(ContainerName, b, CreateWrite, now), sign, encode)
      && r.value.previewUrl == CapabilityUrl(account, Params(ContainerName, b, Read, now), sign, encode)
  {
    var filename := Pick(req.queryFilename, req.bodyFilename, DefaultFilename);
    var contentType := Pick(req.queryContentType, req.bodyContentType, DefaultContentType);
    var account :- SharedKeyCredential(conn);
    var b := BlobNameFor(now, filename);
    if ServiceClientCheck(conn).Failure? then Failure(ConnectionStringMissing)
    else
      var upload := CapabilityUrl(account, Params(ContainerName, b, CreateWrite, now), sign, encode);
      var preview := CapabilityUrl(account, Params(ContainerName, b, Read, now), sign, encode);
      Success(Response(upload, b, preview, contentType))
  }

  /** The query string beats the body: once the query sets both fields, the body is ignored; when
      the query sets neither, the body's fields act as if they had been sent in the query; and a
      request that sets nothing uploads `video.mp4` as `video/mp4`. */
  lemma FieldPrecedence(conn: Option<string>, req: Request, now: nat, sign: Signer, encode: Encoder)
    ensures IsSet(req.queryFilename) && IsSet(req.queryContentType) ==>
      Handle(conn, req, now, sign, encode) == Handle(conn, req.(bodyFilename := None, bodyContentType := None), now, sign, encode)
    ensures !IsSet(req.queryFilename) && !IsSet(req.queryContentType) ==>
      Handle(conn, req, now, sign, encode) == Handle(conn, Request(req.bodyFilename, req.bodyContentType, None, None), now, sign, encode)
    ensures Handle(conn, Request(None, None, None, None), now, sign, encode).Success? ==>
      var r := Handle(conn, Request(None, None, None, None), now, sign, encode).value;
      r.contentType == "video/mp4" && r.blobName == BlobNameFor(now, "video.mp4")
  {
    var noBody := req.(bodyFilename := None, bodyContentType := None);
    if IsSet(req.queryFilename) && IsSet(req.queryContentType) {
      SameChoicesSameAnswer(conn, req, noBody, now, sign, encode);
    }
    var asQuery := Request(req.bodyFilename, req.bodyContentType, None, None);
    if !IsSet(req.queryFilename) && !IsSet(req.queryContentType) {
      SameChoicesSameAnswer(conn, req, asQuery, now, sign, encode);
    }
  }

  /** The handler reads a request only through the file name and content type it picks. */
  lemma SameChoicesSameAnswer(conn: Option<string>, r1: Request, r2: Request, now: nat, sign: Signer, encode: Encoder)
    requires Pick(r1.queryFilename, r1.bodyFilename, DefaultFilename) == Pick(r2.queryFilename, r2.bodyFilename, DefaultFilename)
    requires Pick(r1.queryContentType, r1.bodyContentType, DefaultContentType) == Pick(r2.queryContentType, r2.bodyContentType, DefaultContentType)
    ensures Handle(conn, r1, now, sign, encode) == Handle(conn, r2, now, sign, encode)
  {
  }

  /** Both URLs address the same blob of the same container and differ only in their signatures. */
  lemma UrlsShareBlob(conn: Option<string>, req: Request, now: nat, sign: Signer, encode: Encoder)
    requires SharedKeyCredential(conn).Success?
    ensures
      var r := Handle(conn, req, now, sign, encode).value;
      var base := BlobUrl(SharedKeyCredential(conn).value, ContainerName, r.blobName, encode) + "?";
      IsPrefix(base, r.uploadUrl) && IsPrefix(base, r.previewUrl)
  {
  }

  /** The preview URL is the URL the gallery lists for the uploaded blob at the same instant. */
  lemma PreviewMatchesGallery(conn: Option<string>, req: Request, now: nat, sign: Signer, encode: Encoder,
                              size: Option<nat>, modified: Option<int>)
    requires SharedKeyCredential(conn).Success?
    ensures
      var r := Handle(conn, req, now, sign, encode).value;
      var blob := ListVideos.BlobItem(r.blobName, size, modified);
      ListVideos.Entry(SharedKeyCredential(conn).value, blob, now, sign, encode).url == r.previewUrl
  {
  }
}
