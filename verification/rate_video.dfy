/** The `rateVideo` handler: validate the rating, load the document, add to the aggregate,
    write it back. */
module RateVideo {
  import opened Outcomes
  import opened Numbers
  import opened Storage
  import opened Metadata

  /** The JSON body `{ blobName, rating }`; a missing body reads as `{}`. */
  datatype Request = Request(blobName: Option<string>, rating: JsValue)

  /** The success body `{ ok: true, avg, count }`. */
  datatype Response = Response(avg: JsNumber, count: int)

  /** `Number(rating)` is finite and within [1, 5]; fractions inside the range pass. */
  predicate AcceptedRating(rating: JsValue) {
    var n := ToNumber(rating);
    n.Finite? && 1.0 <= n.value <= 5.0
  }

  /** The coerced value of an accepted rating. */
  function RatingValue(rating: JsValue): (x: real)
    requires AcceptedRating(rating)
    ensures 1.0 <= x <= 5.0 && ToNumber(rating) == Finite(x)
  {
    ToNumber(rating).value
  }

  /** The aggregate after adding one accepted rating. */
  function AddRating(r: Ratings, x: real): (r': Ratings)
    requires 1.0 <= x <= 5.0
    ensures r'.count == r.count + 1 && r'.sum == r.sum + x
  {
    Ratings(r.sum + x, r.count + 1)
  }

  /** Adding an accepted rating keeps the rating invariant. */
  lemma AddRatingKeepsValid(r: Ratings, x: real)
    requires 1.0 <= x <= 5.0 && ValidRatings(r)
    ensures ValidRatings(AddRating(r, x))
  {
  }

  /** With a non-zero count the unguarded division is the guarded average. */
  lemma DivideIsAverage(r: Ratings)
    ensures r.count != 0 ==> Divide(r.sum, r.count) == Finite(Average(r))
  {
  }

  /** The success body for the updated aggregate: its count, and the unguarded division, which
      is the average whenever the count is positive. */
  function Answer(ratings: Ratings): (resp: Response)
    ensures resp.count == ratings.count
    ensures ratings.count != 0 ==> resp.avg == Finite(Average(ratings))
    ensures ratings.count == 0 ==> !resp.avg.Finite?
  {
    DivideIsAverage(ratings);
    Response(Divide(ratings.sum, ratings.count), ratings.count)
  }

  /** Adding an accepted rating `x` to the stored document of `b`: the write and the answer. */
  function Apply(store: Store, b: string, x: real): (r: Reply<Response>)
    requires Load(store, b).Success? && 1.0 <= x <= 5.0
    ensures r.result.Success?
    ensures
      var before := Load(store, b).value;
      var after := before.(ratings := Ratings(before.ratings.sum + x, before.ratings.count + 1));
      && (before.shape == PlainObject ==> Load(r.store, b) == Success(after))
      && (before.shape.ArrayOf? ==> r.store == store)
      && (forall other :: other != b ==> Load(r.store, other) == Load(store, other))
      && (forall k :: k != MetaName(b) ==> (k in r.store <==> k in store))
      && (forall k :: k != MetaName(b) && k in store ==> r.store[k] == store[k])
      && r.result.value.count == before.ratings.count + 1
      && (after.ratings.count != 0 ==> r.result.value.avg == Finite(Average(after.ratings)))
      && (after.ratings.count == 0 ==> !r.result.value.avg.Finite?)
  {
    var doc := Load(store, b).value;
    var after := doc.(ratings := AddRating(doc.ratings, x));
    Reply(Success(Answer(after.ratings)), Save(store, b, after))
  }

  /** The handler, given the store, the connection string and the request. */
  function Handle(store: Store, conn: Option<string>, req: Request): (r: Reply<Response>)
    ensures r.result.Failure? ==> r.store == store
    ensures !IsSet(req.blobName) ==> r.result == Failure(BlobNameRequired)
    ensures IsSet(req.blobName) && !AcceptedRating(req.rating) ==> r.result == Failure(RatingOutOfRange)
    ensures r.result.Success? <==>
      IsSet(req.blobName) && AcceptedRating(req.rating) && IsSet(conn) && Load(store, req.blobName.value).Success?
    ensures r.result.Success? ==> r == Apply(store, req.blobName.value, RatingValue(req.rating))
  {
    if !IsSet(req.blobName) then Reply(Failure(BlobNameRequired), store)
    else if !AcceptedRating(req.rating) then Reply(Failure(RatingOutOfRange), store)
    else if !IsSet(conn) then Reply(Failure(ConnectionStringMissing), store)
    else
      var b := req.blobName.value;
      match Load(store, b)
      case Failure(e) => Reply(Failure(e), store)
      case Success(_) => Apply(store, b, RatingValue(req.rating))
  }
}
