/** Properties of the metadata document protocol that relate several handler calls: what a
    reader sees after a write, the invariant the writers keep, the rating aggregate after a
    series of ratings, and that rejected requests never reach the store. */
module Protocol {
  import opened Outcomes
  import opened Text
  import opened Numbers
  import opened Metadata
  import AddComment
  import RateVideo
  import GetVideoMeta

  /** After a comment is accepted on a plain-object document, reading the video's metadata
      returns the same comment list the write answered with, ending in the new comment; in every
      case the rating aggregate is untouched. */
  lemma AddThenGet(store: Store, conn: Option<string>, req: AddComment.Request, now: nat, ts: string)
    requires AddComment.Handle(store, conn, req, now, ts).result.Success?
    ensures
      var w := AddComment.Handle(store, conn, req, now, ts);
      var g := GetVideoMeta.Handle(w.store, conn, req.blobName);
      var before := Load(store, req.blobName.value).value;
      && g.result.Success?
      && g.result.value.ratings == before.ratings
      && g.result.value.avg == w.result.value.avg
      && g.result.value.ratings.count == w.result.value.count
      && (before.shape == PlainObject ==>
            && g.result.value.comments == w.result.value.comments
            && |g.result.value.comments| > 0
            && var last := g.result.value.comments[|g.result.value.comments| - 1];
            && last.author == AddComment.AuthorOf(req.author)
            && last.text == Truncate(req.text.value, AddComment.MaxText)
            && last.id == NatToDecimal(now))
  {
  }

  /** A comment accepted on an array document is answered but never stored: the write leaves the
      blob as it was, and a later read shows no comments. */
  lemma ArrayLosesComment(store: Store, conn: Option<string>, req: AddComment.Request, now: nat, ts: string)
    requires AddComment.Handle(store, conn, req, now, ts).result.Success?
    requires Load(store, req.blobName.value).value.shape.ArrayOf?
    ensures
      var w := AddComment.Handle(store, conn, req, now, ts);
      var g := GetVideoMeta.Handle(w.store, conn, req.blobName);
      && w.store == store
      && |w.result.value.comments| == 1
      && g.result.Success? && g.result.value.comments == []
  {
  }

  /** After a rating is accepted on a plain-object document with a non-negative count, reading
      the video's metadata returns the count and the average the write answered with; in every
      case the comments are untouched. */
  lemma RateThenGet(store: Store, conn: Option<string>, req: RateVideo.Request)
    requires RateVideo.Handle(store, conn, req).result.Success?
    requires Load(store, req.blobName.value).value.ratings.count >= 0
    ensures
      var w := RateVideo.Handle(store, conn, req);
      var g := GetVideoMeta.Handle(w.store, conn, req.blobName);
      var before := Load(store, req.blobName.value).value;
      && g.result.Success?
      && g.result.value.comments == before.comments
      && (before.shape == PlainObject ==>
            && g.result.value.ratings.count == w.result.value.count
            && w.result.value.avg == Finite(g.result.value.avg))
  {
  }

  /** A rating accepted on an array document is answered with count 1 but never stored: the
      write leaves the blob as it was, and a later read shows no ratings. */
  lemma ArrayLosesRating(store: Store, conn: Option<string>, req: RateVideo.Request)
    requires RateVideo.Handle(store, conn, req).result.Success?
    requires Load(store, req.blobName.value).value.shape.ArrayOf?
    ensures
      var w := RateVideo.Handle(store, conn, req);
      var g := GetVideoMeta.Handle(w.store, conn, req.blobName);
      && w.store == store
      && w.result.value.count == 1
      && g.result.Success? && g.result.value.ratings == NoRatings
  {
  }

  /** Appending a comment keeps the document invariant; on a plain object it appends exactly one
      comment and never loses or reorders the others, and on an array nothing changes. */
  lemma AddCommentKeepsInvariant(store: Store, conn: Option<string>, req: AddComment.Request, now: nat, ts: string)
    requires AddComment.Handle(store, conn, req, now, ts).result.Success?
    requires ValidDoc(Load(store, req.blobName.value).value)
    ensures
      var before := Load(store, req.blobName.value).value;
      var after := Load(AddComment.Handle(store, conn, req, now, ts).store, req.blobName.value).value;
      && ValidDoc(after)
      && after.ratings == before.ratings
      && (before.shape == PlainObject ==>
            && |after.comments| == |before.comments| + 1
            && after.comments[..|before.comments|] == before.comments)
      && (before.shape.ArrayOf? ==> after == before)
  {
    var before := Load(store, req.blobName.value).value;
    var after := Load(AddComment.Handle(store, conn, req, now, ts).store, req.blobName.value).value;
    if before.shape == PlainObject {
      assert after.comments[..|before.comments|] == before.comments;
      forall i | 0 <= i < |after.comments|
        ensures ValidComment(after.comments[i])
      {
        if i < |before.comments| {
          assert after.comments[i] == before.comments[i];
        }
      }
    }
  }

  /** An accepted rating keeps the document invariant and leaves the comments alone; on a plain
      object it adds one to the count, and on an array nothing changes. */
  lemma RateKeepsInvariant(store: Store, conn: Option<string>, req: RateVideo.Request)
    requires RateVideo.Handle(store, conn, req).result.Success?
    requires ValidDoc(Load(store, req.blobName.value).value)
    ensures
      var before := Load(store, req.blobName.value).value;
      var after := Load(RateVideo.Handle(store, conn, req).store, req.blobName.value).value;
      && ValidDoc(after)
      && after.comments == before.comments
      && (before.shape == PlainObject ==> after.ratings.count == before.ratings.count + 1)
      && (before.shape.ArrayOf? ==> after == before)
  {
    RateVideo.AddRatingKeepsValid(Load(store, req.blobName.value).value.ratings, RateVideo.RatingValue(req.rating));
  }

  /** The store after one rating request with value `x` for `blobName`. */
  function RateOnce(s: Store, conn: Option<string>, blobName: string, x: real): Store {
    RateVideo.Handle(s, conn, RateVideo.Request(Some(blobName), Num(x))).store
  }

  /** The store after applying `step` with each of `xs` in turn. */
  function Fold(store: Store, step: (Store, real) -> Store, xs: seq<real>): Store {
    if |xs| == 0 then store
    else step(Fold(store, step, xs[..|xs| - 1]), xs[|xs| - 1])
  }

  /** The store after rating `blobName` with each of `xs` in turn. */
  function RateAll(store: Store, conn: Option<string>, blobName: string, xs: seq<real>): Store {
    Fold(store, (s, x) => RateOnce(s, conn, blobName, x), xs)
  }

  function Sum(xs: seq<real>): real {
    if |xs| == 0 then 0.0 else Sum(xs[..|xs| - 1]) + xs[|xs| - 1]
  }

  /** A comment-free document of `blobName` with the given aggregate. */
  predicate HoldsRatings(s: Store, blobName: string, total: real, n: int) {
    Load(s, blobName) == Success(Doc([], Ratings(total, n), map[], PlainObject))
  }

  /** `step` acts on `blobName` as an accepted rating does: it adds the value to the sum and one
      to the count of a comment-free document. */
  ghost predicate RatesLikeHandler(step: (Store, real) -> Store, blobName: string) {
    forall s, x, total, n :: 1.0 <= x <= 5.0 && HoldsRatings(s, blobName, total, n) ==>
      HoldsRatings(step(s, x), blobName, total + x, n + 1)
  }

  /** Any step that rates like the handler, applied n times to a fresh document, leaves
      `count == n` and `sum` equal to the total of the values, with no comments. */
  lemma {:induction false} FoldLoads(store: Store, step: (Store, real) -> Store, blobName: string, xs: seq<real>)
    requires RatesLikeHandler(step, blobName)
    requires HoldsRatings(store, blobName, 0.0, 0)
    requires forall i :: 0 <= i < |xs| ==> 1.0 <= xs[i] <= 5.0
    ensures HoldsRatings(Fold(store, step, xs), blobName, Sum(xs), |xs|)
  {
    if |xs| > 0 {
      var init := xs[..|xs| - 1];
      FoldLoads(store, step, blobName, init);
      assert 1.0 <= xs[|xs| - 1] <= 5.0;
    }
  }

  /** One more accepted rating on a comment-free document adds its value to the sum and one to the count. */
  lemma RateOnceStep(s: Store, conn: Option<string>, blobName: string, x: real, total: real, n: int)
    requires IsSet(conn) && blobName != "" && 1.0 <= x <= 5.0
    requires HoldsRatings(s, blobName, total, n)
    ensures HoldsRatings(RateOnce(s, conn, blobName, x), blobName, total + x, n + 1)
  {
    assert ToNumber(Num(x)) == Finite(x);
  }

  /** Starting from a video with no metadata, n accepted ratings leave `count == n` and
      `sum` equal to their total, with no comments; so the average lies in [1, 5]. */
  lemma RatingsFromFresh(store: Store, conn: Option<string>, blobName: string, xs: seq<real>)
    requires IsSet(conn) && blobName != ""
    requires MetaName(blobName) !in store
    requires forall i :: 0 <= i < |xs| ==> 1.0 <= xs[i] <= 5.0
    ensures Load(RateAll(store, conn, blobName, xs), blobName) == Success(Doc([], Ratings(Sum(xs), |xs|), map[], PlainObject))
    ensures |xs| > 0 ==> 1.0 <= Average(Ratings(Sum(xs), |xs|)) <= 5.0
  {
    var step := (s, x) => RateOnce(s, conn, blobName, x);
    forall s, x, total, n | 1.0 <= x <= 5.0 && HoldsRatings(s, blobName, total, n)
      ensures HoldsRatings(step(s, x), blobName, total + x, n + 1)
    {
      RateOnceStep(s, conn, blobName, x, total, n);
    }
    assert Load(store, blobName) == Success(DefaultDoc);
    FoldLoads(store, step, blobName, xs);
    SumBounds(xs);
    AverageInRange(Ratings(Sum(xs), |xs|));
  }

  /** n values in [1, 5] add up to something in [n, 5n]. */
  lemma {:induction false} SumBounds(xs: seq<real>)
    requires forall i :: 0 <= i < |xs| ==> 1.0 <= xs[i] <= 5.0
    ensures (|xs| as real) <= Sum(xs) <= 5.0 * (|xs| as real)
  {
    if |xs| > 0 {
      SumBounds(xs[..|xs| - 1]);
    }
  }

  /** A comment request that fails validation reads nothing: its answer is the same whatever the
      store holds, and the store is left as it was. */
  lemma RejectedCommentTouchesNothing(s1: Store, s2: Store, conn: Option<string>, req: AddComment.Request, now: nat, ts: string)
    requires !IsSet(req.blobName) || !AddComment.TextAccepted(req.text)
    ensures AddComment.Handle(s1, conn, req, now, ts).result == AddComment.Handle(s2, conn, req, now, ts).result
    ensures AddComment.Handle(s1, conn, req, now, ts).store == s1
  {
  }

  /** A rating request that fails validation reads nothing: its answer is the same whatever the
      store holds, and the store is left as it was. */
  lemma RejectedRatingTouchesNothing(s1: Store, s2: Store, conn: Option<string>, req: RateVideo.Request)
    requires !IsSet(req.blobName) || !RateVideo.AcceptedRating(req.rating)
    ensures RateVideo.Handle(s1, conn, req).result == RateVideo.Handle(s2, conn, req).result
    ensures RateVideo.Handle(s1, conn, req).store == s1
  {
  }

  /** Comment ids come from the millisecond clock, so two comments posted in the same millisecond
      carry the same id. */
  lemma SameMillisecondSameId(store: Store, conn: Option<string>, req: AddComment.Request, now: nat, ts: string)
    requires AddComment.Handle(store, conn, req, now, ts).result.Success?
    ensures
      var s1 := AddComment.Handle(store, conn, req, now, ts).store;
      var w2 := AddComment.Handle(s1, conn, req, now, ts);
      && w2.result.Success?
      && (Load(store, req.blobName.value).value.shape == PlainObject ==>
            var cs := w2.result.value.comments;
            |cs| >= 2 && cs[|cs| - 1].id == cs[|cs| - 2].id)
  {
  }
}
