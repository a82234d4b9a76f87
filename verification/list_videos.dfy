/** The `listVideos` handler: keep the blobs with a video extension, attach a read capability to
    each, and sort newest first with ties broken by descending name. */
module ListVideos {
  import opened Outcomes
  import opened Seqs
  import opened Text
  import opened Storage
  import opened Metadata
  import opened Capability

  /** A listed blob: its name and the two properties the handler reads, either of which may be missing. */
  datatype BlobItem = BlobItem(name: string, contentLength: Option<nat>, lastModified: Option<int>)

  /** A gallery entry `{ name, url, size, lastModified }`; `lastModified` is `None` for `null`. */
  datatype Video = Video(name: string, url: string, size: nat, lastModified: Option<int>)

  /** `name` ends in `.` and `ext`, ignoring case. */
  predicate HasExtension(name: string, ext: string) {
    IsSuffix("." + ext, Lower(name))
  }

  /** `/\.(mp4|webm|mov|mkv|m4v)$/i.test(name)`. */
  predicate IsVideoName(name: string) {
    HasExtension(name, "mp4") || HasExtension(name, "webm") || HasExtension(name, "mov")
    || HasExtension(name, "mkv") || HasExtension(name, "m4v")
  }

  predicate IsVideoBlob(b: BlobItem) {
    IsVideoName(b.name)
  }

  /** Lower-casing commutes with taking a suffix. */
  lemma LowerSuffix(s: string, k: nat)
    requires k <= |s|
    ensures Lower(s)[|s| - k..] == Lower(s[|s| - k..])
  {
  }

  /** Lower-casing never produces a `.` from anything else. */
  lemma LowerKeepsDotAbsent(p: string)
    requires '.' !in p
    ensures '.' !in Lower(p)
  {
    forall i | 0 <= i < |p|
      ensures Lower(p)[i] != '.'
    {
      assert p[i] != '.';
    }
  }

  /** A prefix without a `.` in front of a name does not change whether it has extension `ext`. */
  lemma ExtensionAfterPrefix(p: string, s: string, ext: string)
    requires '.' !in p
    ensures HasExtension(p + s, ext) <==> HasExtension(s, ext)
  {
    var q := "." + ext;
    var lp, ls := Lower(p), Lower(s);
    var l := Lower(p + s);
    assert l == lp + ls;
    LowerKeepsDotAbsent(p);
    if |q| <= |ls| {
      assert l[|l| - |q|..] == ls[|ls| - |q|..];
    } else if |q| <= |l| {
      assert l[|l| - |q|..][0] == lp[|l| - |q|];
      assert q[0] == '.';
    }
  }

  /** A prefix without a `.` does not change whether a name passes the video filter. */
  lemma VideoNameAfterPrefix(p: string, s: string)
    requires '.' !in p
    ensures IsVideoName(p + s) <==> IsVideoName(s)
  {
    ExtensionAfterPrefix(p, s, "mp4");
    ExtensionAfterPrefix(p, s, "webm");
    ExtensionAfterPrefix(p, s, "mov");
    ExtensionAfterPrefix(p, s, "mkv");
    ExtensionAfterPrefix(p, s, "m4v");
  }

  /** A metadata document never passes the video filter: its name ends in `.json`. */
  lemma MetadataNeverListed(blobName: string)
    ensures !IsVideoName(MetaName(blobName))
  {
    var m := MetaName(blobName);
    var lm := Lower(m);
    LowerSuffix(m, 5);
    assert m[|m| - 5..] == ".json";
    assert Lower(".json") == ".json";
    assert lm[|lm| - 5..] == ".json";
    assert lm[|lm| - 4] == 'j';
    assert lm[|lm| - 5] == '.';
  }

  /** The entry for one kept blob: a read capability issued at `now`, a missing size read as 0,
      a missing modification time kept as `null`. */
  function Entry(account: Account, b: BlobItem, now: int, sign: Signer, encode: Encoder): (v: Video)
    ensures v.name == b.name
    ensures v.size == if b.contentLength.Some? then b.contentLength.value else 0
    ensures v.lastModified == b.lastModified
    ensures v.url == CapabilityUrl(account, Params(ContainerName, b.name, Read, now), sign, encode)
  {
    Video(b.name, CapabilityUrl(account, Params(ContainerName, b.name, Read, now), sign, encode),
          b.contentLength.GetOr(0), b.lastModified)
  }

  /** An entry names its blob and links to it with a read-only capability for that very blob,
      valid at `now`; the link depends on the blob's name alone, not on its size or time. */
  lemma EntryGrantsRead(account: Account, b: BlobItem, b2: BlobItem, now: int, sign: Signer, encode: Encoder)
    ensures
      var v := Entry(account, b, now, sign, encode);
      var base := BlobUrl(account, ContainerName, b.name, encode);
      && v.name == b.name
      && IsPrefix(base + "?", v.url)
      && exists p: SasParams :: v.url[|base| + 1..] == sign(p, account)
           && p.container == ContainerName && p.blobName == b.name && p.permissions == "r"
           && p.startsOn < now < p.expiresOn
    ensures b2.name == b.name ==> Entry(account, b2, now, sign, encode).url == Entry(account, b, now, sign, encode).url
  {
    var v := Entry(account, b, now, sign, encode);
    var base := BlobUrl(account, ContainerName, b.name, encode);
    var p := Params(ContainerName, b.name, Read, now);
    assert v.url[|base| + 1..] == sign(p, account);
  }

  /** The time the comparator sorts on: `new Date(lastModified || 0)`. */
  function TimeKey(v: Video): int {
    v.lastModified.GetOr(0)
  }

  /** `a.localeCompare(b)`, modelled as code-unit order. */
  function NameCompare(a: string, b: string): int {
    if LexLess(a, b) then -1 else if a == b then 0 else 1
  }

  /** The source's comparator: `(b.time - a.time) || b.name.localeCompare(a.name)`. */
  function Comparator(a: Video, b: Video): int {
    var d := TimeKey(b) - TimeKey(a);
    if d != 0 then d else NameCompare(b.name, a.name)
  }

  /** `a` belongs strictly before `b`: it is newer, or as new and with a greater name. */
  predicate Precedes(a: Video, b: Video) {
    TimeKey(a) > TimeKey(b) || (TimeKey(a) == TimeKey(b) && LexLess(b.name, a.name))
  }

  /** The comparator puts `a` first exactly when `a` precedes `b`, and calls them equal exactly
      when their times and names agree. */
  lemma ComparatorMeaning(a: Video, b: Video)
    ensures Comparator(a, b) < 0 <==> Precedes(a, b)
    ensures Comparator(a, b) == 0 <==> TimeKey(a) == TimeKey(b) && a.name == b.name
  {
    if TimeKey(a) == TimeKey(b) && a.name != b.name {
      LexLessTotal(a.name, b.name);
    }
    if a.name == b.name {
      LexLessIrreflexive(a.name);
    }
  }

  lemma PrecedesAsymmetric(a: Video, b: Video)
    ensures !(Precedes(a, b) && Precedes(b, a))
  {
    if TimeKey(a) == TimeKey(b) && LexLess(b.name, a.name) && LexLess(a.name, b.name) {
      LexLessTransitive(a.name, b.name, a.name);
      LexLessIrreflexive(a.name);
    }
  }

  /** If `a` precedes `c`, any `b` lies after `a` or before `c`. */
  lemma PrecedesSplits(a: Video, b: Video, c: Video)
    requires Precedes(a, c)
    ensures Precedes(a, b) || Precedes(b, c)
  {
    if TimeKey(a) == TimeKey(b) && TimeKey(b) == TimeKey(c) {
      if b.name == a.name {
      } else {
        LexLessTotal(a.name, b.name);
        if LexLess(a.name, b.name) {
          LexLessTransitive(c.name, a.name, b.name);
        }
      }
    }
  }

  /** Newest first; among equal times, greatest name first. */
  ghost predicate SortedDescending(vs: seq<Video>) {
    forall i, j :: 0 <= i < j < |vs| ==> !Precedes(vs[j], vs[i])
  }

  /** Places `x` before the first element it does not follow. */
  function Insert(x: Video, vs: seq<Video>): (r: seq<Video>)
    requires SortedDescending(vs)
    ensures SortedDescending(r)
    ensures multiset(r) == multiset(vs) + multiset{x}
  {
    if |vs| == 0 then [x]
    else if Precedes(vs[0], x) then
      var tail := Insert(x, vs[1..]);
      assert vs == [vs[0]] + vs[1..];
      forall y | y in tail
        ensures !Precedes(y, vs[0])
      {
        assert y in multiset(tail);
        if y == x {
          PrecedesAsymmetric(x, vs[0]);
        } else {
          assert y in vs[1..];
        }
      }
      [vs[0]] + tail
    else
      forall k | 0 <= k < |vs|
        ensures !Precedes(vs[k], x)
      {
        if Precedes(vs[k], x) {
          PrecedesSplits(vs[k], vs[0], x);
        }
      }
      [x] + vs
  }

  /** `videos.sort(comparator)`: a descending, order-respecting permutation of its input. */
  function Sort(vs: seq<Video>): (r: seq<Video>)
    ensures SortedDescending(r)
    ensures multiset(r) == multiset(vs)
  {
    if |vs| == 0 then []
    else
      assert vs == [vs[0]] + vs[1..];
      Insert(vs[0], Sort(vs[1..]))
  }

  /** An element that nothing in front of it precedes goes to the front. */
  lemma InsertFront(x: Video, vs: seq<Video>)
    requires SortedDescending(vs)
    requires |vs| == 0 || !Precedes(vs[0], x)
    ensures Insert(x, vs) == [x] + vs
  {
  }

  /** An element the head precedes goes somewhere after the head. */
  lemma InsertPast(x: Video, vs: seq<Video>)
    requires SortedDescending(vs) && |vs| > 0 && Precedes(vs[0], x)
    ensures Insert(x, vs) == [vs[0]] + Insert(x, vs[1..])
  {
  }

  /** Sorting two videos puts the one that precedes first. */
  lemma SortPair(x: Video, y: Video)
    requires Precedes(y, x)
    ensures Sort([x, y]) == [y, x]
  {
    assert [x, y][1..] == [y];
    assert Sort([y]) == [y] by { InsertFront(y, []); }
    InsertPast(x, [y]);
    assert [y][1..] == [];
    InsertFront(x, []);
  }

  /** Inserting into a sorted pair an element that falls between them. */
  lemma InsertBetween(x: Video, y: Video, z: Video)
    requires Precedes(y, x) && !Precedes(x, y) && Precedes(x, z) && !Precedes(z, y)
    ensures Insert(x, [y, z]) == [y, x, z]
  {
    InsertPast(x, [y, z]);
    assert [y, z][1..] == [z];
    PrecedesAsymmetric(x, z);
    InsertFront(x, [z]);
  }

  /** Two videos from the same instant and a later-named one: the later name comes first, the
      older video last. */
  lemma SortExample(a: Video, b: Video, c: Video)
    requires a.name == "a" && a.lastModified == Some(2)
    requires b.name == "b" && b.lastModified == Some(1)
    requires c.name == "z" && c.lastModified == Some(2)
    ensures Sort([a, b, c]) == [c, a, b]
  {
    assert LexLess("a", "z");
    LexLessIrreflexive("a");
    assert !LexLess("z", "a");
    SortPair(b, c);
    assert [a, b, c][1..] == [b, c];
    InsertBetween(a, c, b);
  }

  /** The entries for the kept blobs, in listing order. */
  function Entries(account: Account, kept: seq<BlobItem>, now: int, sign: Signer, encode: Encoder): (vs: seq<Video>)
    ensures |vs| == |kept|
    ensures forall i :: 0 <= i < |kept| ==> vs[i] == Entry(account, kept[i], now, sign, encode)
  {
    seq(|kept|, i requires 0 <= i < |kept| => Entry(account, kept[i], now, sign, encode))
  }

  /** Any rearrangement of the entries for kept blobs has the length of the kept list and only
      video names. */
  lemma EntriesAreVideos(account: Account, kept: seq<BlobItem>, now: int, sign: Signer, encode: Encoder, vs: seq<Video>)
    requires forall i :: 0 <= i < |kept| ==> IsVideoBlob(kept[i])
    requires multiset(vs) == multiset(Entries(account, kept, now, sign, encode))
    ensures |vs| == |kept|
    ensures forall i :: 0 <= i < |vs| ==> IsVideoName(vs[i].name)
  {
    var es := Entries(account, kept, now, sign, encode);
    assert |vs| == |multiset(vs)| == |multiset(es)| == |es|;
    forall i | 0 <= i < |vs|
      ensures IsVideoName(vs[i].name)
    {
      assert vs[i] in multiset(es);
      var j :| 0 <= j < |es| && es[j] == vs[i];
      assert IsVideoBlob(kept[j]);
    }
  }

  /** The gallery for an account: the kept blobs' entries, newest first. */
  function Gallery(account: Account, listing: seq<BlobItem>, now: int, sign: Signer, encode: Encoder): (vs: seq<Video>)
    ensures SortedDescending(vs)
    ensures |vs| == |Filter(listing, IsVideoBlob)|
    ensures multiset(vs) == multiset(Entries(account, Filter(listing, IsVideoBlob), now, sign, encode))
    ensures forall i :: 0 <= i < |vs| ==> IsVideoName(vs[i].name)
  {
    var kept := Filter(listing, IsVideoBlob);
    var sorted := Sort(Entries(account, kept, now, sign, encode));
    EntriesAreVideos(account, kept, now, sign, encode, sorted);
    sorted
  }

  /** The handler, given the connection string, the container listing, the clock, and the
      signer and encoder. */
  function Handle(conn: Option<string>, listing: seq<BlobItem>, now: int, sign: Signer, encode: Encoder): (r: Result<seq<Video>>)
    ensures r.Failure? <==> SharedKeyCredential(conn).Failure?
    ensures r.Failure? ==> r.error == SharedKeyCredential(conn).error
    ensures r.Success? ==> r.value == Gallery(SharedKeyCredential(conn).value, listing, now, sign, encode)
  {
    var account :- SharedKeyCredential(conn);
    if ServiceClientCheck(conn).Failure? then Failure(ConnectionStringMissing)
    else Success(Gallery(account, listing, now, sign, encode))
  }
}
