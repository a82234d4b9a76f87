/** The `addComment` handler: validate, load the document, append one comment, write it back. */
module AddComment {
  import opened Outcomes
  import opened Text
  import opened Storage
  import opened Metadata

  /** The JSON body `{ blobName, author, text }`; a missing body reads as `{}`. */
  datatype Request = Request(blobName: Option<string>, author: Option<string>, text: Option<string>)

  /** The success body `{ ok: true, comments, avg, count }`. */
  datatype Response = Response(comments: seq<Comment>, avg: real, count: int)

  const MaxAuthor: nat := 50
  const MaxText: nat := 1000
  const DefaultAuthor: string := "Anonymous"

  /** `text` passes validation: present and not blank after trimming. */
  predicate TextAccepted(text: Option<string>) {
    text.Some? && Trim(text.value) != ""
  }

  /** `(author && author.toString().slice(0, 50)) || "Anonymous"`. */
  function AuthorOf(author: Option<string>): (a: string)
    ensures 1 <= |a| <= MaxAuthor
    ensures IsSet(author) ==> IsPrefix(a, author.value) && |a| == if |author.value| <= MaxAuthor then |author.value| else MaxAuthor
    ensures !IsSet(author) ==> a == DefaultAuthor
  {
    if IsSet(author) then Truncate(author.value, MaxAuthor) else DefaultAuthor
  }

  /** The comment appended: id from the clock in milliseconds, the author rule, the first 1000
      characters of the untrimmed text, and the timestamp text. */
  function NewComment(now: nat, ts: string, author: Option<string>, text: string): (c: Comment)
    requires Trim(text) != ""
    ensures ValidComment(c)
    ensures c.id == NatToDecimal(now) && c.ts == ts
    ensures c.author == AuthorOf(author)
    ensures IsPrefix(c.text, text) && |c.text| == if |text| <= MaxText then |text| else MaxText
  {
    Comment(NatToDecimal(now), AuthorOf(author), Truncate(text, MaxText), ts)
  }

  /** The handler, given the store, the connection string, the request, the clock in
      milliseconds and the ISO text of the clock. */
  function Handle(store: Store, conn: Option<string>, req: Request, now: nat, ts: string): (r: Reply<Response>)
    ensures r.result.Failure? ==> r.store == store
    ensures !IsSet(req.blobName) ==> r.result == Failure(BlobNameRequired)
    ensures IsSet(req.blobName) && !TextAccepted(req.text) ==> r.result == Failure(TextRequired)
    ensures r.result.Success? <==>
      IsSet(req.blobName) && TextAccepted(req.text) && IsSet(conn) && Load(store, req.blobName.value).Success?
    ensures r.result.Success? ==>
      var b := req.blobName.value;
      var before := Load(store, b).value;
      var after := before.(comments := before.comments + [NewComment(now, ts, req.author, req.text.value)]);
      && (before.shape == PlainObject ==> Load(r.store, b) == Success(after))
      && (before.shape.ArrayOf? ==> r.store == store)
      && (forall other :: other != b ==> Load(r.store, other) == Load(store, other))
      && (forall k :: k != MetaName(b) ==> (k in r.store <==> k in store))
      && (forall k :: k != MetaName(b) && k in store ==> r.store[k] == store[k])
      && r.result.value == Response(after.comments, Average(before.ratings), before.ratings.count)
  {
    if !IsSet(req.blobName) then Reply(Failure(BlobNameRequired), store)
    else if !TextAccepted(req.text) then Reply(Failure(TextRequired), store)
    else if !IsSet(conn) then Reply(Failure(ConnectionStringMissing), store)
    else
      var b := req.blobName.value;
      match Load(store, b)
      case Failure(e) => Reply(Failure(e), store)
      case Success(doc) =>
        var after := doc.(comments := doc.comments + [NewComment(now, ts, req.author, req.text.value)]);
        Reply(Success(Response(after.comments, Average(after.ratings), after.ratings.count)), Save(store, b, after))
  }
}
