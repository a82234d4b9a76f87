/** The `getVideoMeta` handler: load the document and answer it with its average; never writes. */
module GetVideoMeta {
  import opened Outcomes
  import opened Storage
  import opened Metadata

  /** The success body `{ ...meta, avg }`: every document field, and `avg` overriding any
      stored field of that name. For an array, `indexed` holds the elements the spread copies
      under the keys `"0"`, `"1"`, and so on. */
  datatype Response = Response(comments: seq<Comment>, ratings: Ratings, rest: map<string, Extra>, indexed: seq<Extra>, avg: real)

  /** The elements a spread copies under index keys: none for a plain object. */
  function Elements(shape: Shape): seq<Extra> {
    match shape
    case PlainObject => []
    case ArrayOf(items) => items
  }

  /** The handler, given the store, the connection string and the `blobName` query parameter. */
  function Handle(store: Store, conn: Option<string>, blobName: Option<string>): (r: Reply<Response>)
    ensures r.store == store
    ensures !IsSet(blobName) ==> r.result == Failure(BlobNameRequired)
    ensures r.result.Success? <==> IsSet(blobName) && IsSet(conn) && Load(store, blobName.value).Success?
    ensures (IsSet(blobName) && IsSet(conn) && MetaName(blobName.value) in store
             && store[MetaName(blobName.value)] == Malformed) ==> r.result == Failure(MalformedDocument)
    ensures IsSet(blobName) && IsSet(conn) && MetaName(blobName.value) !in store ==>
      r.result == Success(Response([], Ratings(0.0, 0), map[], [], 0.0))
    ensures r.result.Success? ==>
      var d := Load(store, blobName.value).value;
      && r.result.value.comments == d.comments
      && r.result.value.ratings == d.ratings
      && r.result.value.rest == d.rest - {"avg"}
      && (d.shape == PlainObject ==> r.result.value.indexed == [])
      && (d.shape.ArrayOf? ==> r.result.value.indexed == d.shape.items)
      && (d.ratings.count == 0 ==> r.result.value.avg == 0.0)
      && (d.ratings.count != 0 ==> r.result.value.avg == d.ratings.sum / (d.ratings.count as real))
  {
    if !IsSet(blobName) then Reply(Failure(BlobNameRequired), store)
    else if !IsSet(conn) then Reply(Failure(ConnectionStringMissing), store)
    else match Load(store, blobName.value)
      case Failure(e) => Reply(Failure(e), store)
      case Success(d) => Reply(Success(Response(d.comments, d.ratings, d.rest - {"avg"}, Elements(d.shape), Average(d.ratings))), store)
  }
}
