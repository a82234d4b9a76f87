/** The per-video metadata document: its schema, how a stored blob is read back into it (the
    load-or-default-and-backfill block every metadata handler repeats), and how it is written. */
module Metadata {
  import opened Outcomes
  import opened Text

  datatype Comment = Comment(id: string, author: string, text: string, ts: string)

  /** The rating aggregate. `sum` is a JavaScript number (ratings need not be integers). */
  datatype Ratings = Ratings(sum: real, count: int)

  /** A top-level field other than `comments` and `ratings`, carried as its JSON text. */
  datatype Extra = Extra(json: string)

  /** What `JSON.parse` returns for a stored document, as far as the handlers can tell apart:
      `null`; another falsy value (`false`, `0`, `""`); another truthy non-object (a non-empty
      string, a non-zero number, `true`); an array, with its elements as JSON text; or an object,
      whose `comments` and `ratings` fields are `None` when missing or falsy and whose `rest` holds
      its other fields, so never the keys `comments` or `ratings`. */
  datatype StoredValue =
    | NullValue
    | FalsyScalar
    | TruthyScalar
    | ArrayValue(items: seq<Extra>)
    | Object(comments: Option<seq<Comment>>, ratings: Option<Ratings>, rest: map<string, Extra>)

  /** The content of a stored blob: zero bytes, text that is not JSON, or JSON. */
  datatype Content = EmptyText | Malformed | Parsed(value: StoredValue)

  /** The container, by blob name. */
  type Store = map<string, Content>

  /** What a loaded document is underneath: a plain object, or an array that the backfill gave
      `comments` and `ratings` properties. `JSON.stringify` writes only an array's elements. */
  datatype Shape = PlainObject | ArrayOf(items: seq<Extra>)

  /** A document after backfilling: both fields present. */
  datatype Doc = Doc(comments: seq<Comment>, ratings: Ratings, rest: map<string, Extra>, shape: Shape)

  /** A handler's answer together with the store it leaves behind. */
  datatype Reply<T> = Reply(result: Result<T>, store: Store)

  const NoRatings: Ratings := Ratings(0.0, 0)

  /** `{ comments: [], ratings: { sum: 0, count: 0 } }`. */
  const DefaultDoc: Doc := Doc([], NoRatings, map[], PlainObject)

  const MetaPrefix: string := "__meta/"
  const MetaSuffix: string := ".json"

  /** The path of a video's metadata document: `__meta/<blobName>.json`. */
  function MetaName(blobName: string): (path: string)
    ensures |path| == |MetaPrefix| + |blobName| + |MetaSuffix|
    ensures IsPrefix(MetaPrefix, path) && IsSuffix(MetaSuffix, path)
    ensures path[|MetaPrefix|..|path| - |MetaSuffix|] == blobName
  {
    var path := MetaPrefix + blobName + MetaSuffix;
    assert path[..|MetaPrefix|] == MetaPrefix;
    assert path[|path| - |MetaSuffix|..] == MetaSuffix;
    path
  }

  /** Different videos have different metadata paths. */
  lemma MetaNameInjective(a: string, b: string)
    requires MetaName(a) == MetaName(b)
    ensures a == b
  {
  }

  /** Backfilling an object: a missing or falsy field takes its default, the rest is kept. */
  function Backfill(comments: Option<seq<Comment>>, ratings: Option<Ratings>, rest: map<string, Extra>): (d: Doc)
    ensures comments.Some? ==> d.comments == comments.value
    ensures comments.None? ==> d.comments == []
    ensures ratings.Some? ==> d.ratings == ratings.value
    ensures ratings.None? ==> d.ratings == NoRatings
    ensures d.rest == rest && d.shape == PlainObject
  {
    Doc(comments.GetOr([]), ratings.GetOr(NoRatings), rest, PlainObject)
  }

  /** Backfilling settles a document: backfilling its own fields again changes nothing, what a
      handler writes back loads as the same document, and an object that already has both fields
      loads as exactly those fields. */
  lemma BackfillSettles(c: Option<seq<Comment>>, r: Option<Ratings>, rest: map<string, Extra>)
    ensures
      var d := Backfill(c, r, rest);
      && Backfill(Some(d.comments), Some(d.ratings), d.rest) == d
      && LoadOrDefault(Some(Persist(d))) == Success(d)
    ensures c.Some? && r.Some? ==>
      LoadOrDefault(Some(Parsed(Object(c, r, rest)))) == Success(Doc(c.value, r.value, rest, PlainObject))
  {
  }

  /** The document an array loads as: an array has neither field, so both take their defaults. */
  function ArrayDoc(items: seq<Extra>): Doc {
    Doc([], NoRatings, map[], ArrayOf(items))
  }

  /** The block `meta = JSON.parse(buf.toString() || "{}") || meta` followed by the two backfills,
      or the default when the blob does not exist. Malformed JSON throws (the handlers answer 500);
      a truthy non-object value makes the next field access throw. */
  function LoadOrDefault(stored: Option<Content>): (r: Result<Doc>)
    ensures stored.None? ==> r == Success(DefaultDoc)
    ensures stored == Some(EmptyText) ==> r == Success(DefaultDoc)
    ensures stored == Some(Malformed) ==> r == Failure(MalformedDocument)
    ensures stored == Some(Parsed(NullValue)) || stored == Some(Parsed(FalsyScalar)) ==> r == Success(DefaultDoc)
    ensures stored == Some(Parsed(TruthyScalar)) ==> r == Failure(NotAnObject)
    ensures r.Failure? <==> stored == Some(Malformed) || stored == Some(Parsed(TruthyScalar))
    ensures stored.Some? && stored.value.Parsed? && stored.value.value.Object? ==>
      var v := stored.value.value;
      r == Success(Backfill(v.comments, v.ratings, v.rest))
    ensures stored.Some? && stored.value.Parsed? && stored.value.value.ArrayValue? ==>
      r == Success(ArrayDoc(stored.value.value.items))
  {
    match stored
    case None => Success(DefaultDoc)
    case Some(EmptyText) => FromParsed(Object(None, None, map[]))  // `"" || "{}"` parses to `{}`
    case Some(Malformed) => Failure(MalformedDocument)
    case Some(Parsed(v)) => FromParsed(v)
  }

  /** `parsed || meta`, then the backfills. An array is truthy, so it is kept. */
  function FromParsed(v: StoredValue): Result<Doc> {
    match v
    case NullValue => Success(DefaultDoc)
    case FalsyScalar => Success(DefaultDoc)
    case TruthyScalar => Failure(NotAnObject)
    case ArrayValue(items) => Success(ArrayDoc(items))
    case Object(c, ratings, rest) => Success(Backfill(c, ratings, rest))
  }

  /** What `JSON.stringify(meta)` stores: an object with both fields present, or for an array
      only its elements. */
  function Persist(d: Doc): Content {
    match d.shape
    case PlainObject => Parsed(Object(Some(d.comments), Some(d.ratings), d.rest))
    case ArrayOf(items) => Parsed(ArrayValue(items))
  }

  /** Reading back a written object gives that document; reading back a written array gives the
      array as it was loaded, without the comments and ratings set on it. */
  lemma PersistRoundTrip(d: Doc)
    ensures d.shape == PlainObject ==> LoadOrDefault(Some(Persist(d))) == Success(d)
    ensures d.shape.ArrayOf? ==> LoadOrDefault(Some(Persist(d))) == Success(ArrayDoc(d.shape.items))
  {
  }

  /** The document a video's metadata path currently yields. */
  function Load(store: Store, blobName: string): Result<Doc> {
    var path := MetaName(blobName);
    LoadOrDefault(if path in store then Some(store[path]) else None)
  }

  /** Overwriting a video's metadata document with `d`. */
  function Save(store: Store, blobName: string, d: Doc): (s: Store)
    ensures d.shape == PlainObject ==> Load(s, blobName) == Success(d)
    ensures d.shape.ArrayOf? ==> Load(s, blobName) == Success(ArrayDoc(d.shape.items))
    ensures forall other :: other != blobName ==> Load(s, other) == Load(store, other)
    ensures forall k :: k != MetaName(blobName) ==> (k in s <==> k in store)
    ensures forall k :: k != MetaName(blobName) && k in store ==> s[k] == store[k]
  {
    forall other | other != blobName
      ensures MetaName(other) != MetaName(blobName)
    {
      if MetaName(other) == MetaName(blobName) {
        MetaNameInjective(other, blobName);
      }
    }
    store[MetaName(blobName) := Persist(d)]
  }

  /** The guarded average `count ? sum / count : 0` (any non-zero count divides). */
  function Average(r: Ratings): (avg: real)
    ensures r.count == 0 ==> avg == 0.0
    ensures r.count != 0 ==> avg == r.sum / (r.count as real)
    ensures r.count != 0 ==> avg * (r.count as real) == r.sum
  {
    if r.count != 0 then r.sum / (r.count as real) else 0.0
  }

  /** The rating invariant: a non-negative count, and a sum that n ratings in [1, 5] can reach. */
  predicate ValidRatings(r: Ratings) {
    r.count >= 0 && (r.count as real) <= r.sum <= 5.0 * (r.count as real)
  }

  predicate ValidComment(c: Comment) {
    1 <= |c.author| <= 50 && 1 <= |c.text| <= 1000
  }

  /** The document invariant the handlers keep when they start from a document that has it. */
  predicate ValidDoc(d: Doc) {
    ValidRatings(d.ratings) && forall i :: 0 <= i < |d.comments| ==> ValidComment(d.comments[i])
  }

  /** Under the invariant the average is 0 with no ratings and lies in [1, 5] otherwise. */
  lemma {:induction false} AverageInRange(r: Ratings)
    requires ValidRatings(r)
    ensures r.count == 0 ==> Average(r) == 0.0
    ensures r.count > 0 ==> 1.0 <= Average(r) <= 5.0
  {
    if r.count > 0 {
      var n := r.count as real;
      var a := Average(r);
      assert a * n == r.sum;
      assert (a - 1.0) * n == r.sum - n;
      assert (5.0 - a) * n == 5.0 * n - r.sum;
      NonNegativeFactor(a - 1.0, n);
      NonNegativeFactor(5.0 - a, n);
    }
  }

  /** A product with a positive factor is non-negative only when the other factor is. */
  lemma NonNegativeFactor(p: real, n: real)
    requires n > 0.0 && p * n >= 0.0
    ensures p >= 0.0
  {
  }
}
