/** The browser client's pure decisions: the display-name rewrite, the gallery search and its
    count label, which dropped files are queued for upload, how an upload's HTTP status is read,
    and the request it sends for a capability. */
module WebApp {
  import opened Outcomes
  import opened Seqs
  import opened Text
  import opened Names
  import opened Storage
  import GetSasUrl
  import ListVideos
  import Capability

  /** A dropped or chosen file: its name, its MIME type and its size in bytes. */
  datatype File = File(name: string, mimeType: string, size: nat)

  /** `sanitizeName`: forbidden characters become `_`; everything else, white space included, is kept. */
  function SanitizeName(name: string): (r: string)
    ensures |r| == |name| && NoForbidden(r)
    ensures forall i :: 0 <= i < |name| && IsForbidden(name[i]) ==> r[i] == '_'
    ensures forall i :: 0 <= i < |name| && !IsForbidden(name[i]) ==> r[i] == name[i]
  {
    ReplaceForbidden(name)
  }

  /** The client's rewrite agrees with the server's exactly on names without white space: the
      client keeps white space that the server collapses. */
  lemma SanitizeNameAgreesWithServer(name: string)
    ensures SanitizeName(name) == SanitizeBlobName(name) <==> NoWhitespace(name)
  {
    if NoWhitespace(name) {
      CollapseWithoutWhitespace(ReplaceForbidden(name));
    } else {
      var i :| 0 <= i < |name| && IsWhitespace(name[i]);
      assert SanitizeName(name)[i] == name[i];
    }
  }

  /** The search text the gallery matches against: trimmed and lower-cased. */
  function Query(filter: string): string {
    Lower(Trim(filter))
  }

  predicate Matches(q: string, v: ListVideos.Video) {
    Contains(Lower(v.name), q)
  }

  /** `renderGallery`'s list: every video when the query is empty, otherwise those whose
      lower-cased name contains it, in gallery order. */
  function FilterGallery(videos: seq<ListVideos.Video>, filter: string): (r: seq<ListVideos.Video>)
    ensures AllWhitespace(filter) ==> r == videos
    ensures |r| <= |videos|
    ensures forall v :: v in r <==> v in videos && (AllWhitespace(filter) || Matches(Query(filter), v))
    ensures forall v :: v in videos ==>
      multiset(r)[v] == if AllWhitespace(filter) || Matches(Query(filter), v) then multiset(videos)[v] else 0
  {
    var q := Query(filter);
    if q == "" then videos
    else
      var r := Filter(videos, v => Matches(q, v));
      FilterCounts(videos, v => Matches(q, v));
      assert forall v :: v in r ==> v in multiset(videos);
      r
  }

  /** The gallery keeps the order of the list it filters. */
  lemma FilterGalleryKeepsOrder(videos: seq<ListVideos.Video>, filter: string)
    ensures IsSubsequence(FilterGallery(videos, filter), videos)
  {
    var q := Query(filter);
    if q != "" {
      FilterIsSubsequence(videos, v => Matches(q, v));
    } else {
      SubsequenceReflexive(videos);
    }
  }

  lemma {:induction false} SubsequenceReflexive<T>(s: seq<T>)
    ensures IsSubsequence(s, s)
  {
    if |s| > 0 {
      SubsequenceReflexive(s[1..]);
    }
  }

  /** `${n} video${n === 1 ? "" : "s"}`. */
  function CountLabel(n: nat): (caption: string)
    ensures IsPrefix(NatToDecimal(n) + " video", caption)
    ensures |caption| == |NatToDecimal(n)| + 6 + if n == 1 then 0 else 1
    ensures caption[|caption| - 1] == 's' <==> n != 1
  {
    NatToDecimal(n) + " video" + if n == 1 then "" else "s"
  }

  /** Different counts give different labels. */
  lemma CountLabelInjective(m: nat, n: nat)
    requires CountLabel(m) == CountLabel(n)
    ensures m == n
  {
    var a, b := NatToDecimal(m), NatToDecimal(n);
    var l := CountLabel(m);
    assert l[..|a|] == a && l[|a|] == ' ';
    assert l[..|b|] == b && l[|b|] == ' ';
    DecimalInjective(m, n);
  }

  /** `file.type.startsWith("video/")`. */
  predicate IsVideoFile(f: File) {
    IsPrefix("video/", f.mimeType)
  }

  /** The files `handleFiles` uploads, in the order given: exactly the video files. */
  function UploadQueue(files: seq<File>): (q: seq<File>)
    ensures forall i :: 0 <= i < |q| ==> IsVideoFile(q[i])
    ensures forall f :: f in q <==> f in files && IsVideoFile(f)
    ensures multiset(q) <= multiset(files)
    ensures forall f :: f in files ==> multiset(q)[f] == if IsVideoFile(f) then multiset(files)[f] else 0
    ensures IsSubsequence(q, files)
  {
    var q := Filter(files, IsVideoFile);
    FilterCounts(files, IsVideoFile);
    FilterIsSubsequence(files, IsVideoFile);
    assert forall f :: f in q ==> f in multiset(files);
    q
  }

  /** How an upload settles once the request is done. */
  datatype UploadResult = Resolved | Rejected(message: string)

  /** Any 2xx status resolves; anything else rejects with the status in the message. */
  function UploadOutcome(status: nat): (u: UploadResult)
    ensures u.Resolved? <==> 200 <= status < 300
    ensures u.Rejected? ==> IsPrefix("Upload failed: ", u.message)
    ensures u.Rejected? ==> AllDigits(u.message[15..]) && DecimalValue(u.message[15..]) == status
    ensures u.Rejected? ==> u.message == "Upload failed: " + NatToDecimal(status)
  {
    if 200 <= status < 300 then Resolved
    else
      var m := "Upload failed: " + NatToDecimal(status);
      assert m[15..] == NatToDecimal(status);
      DecimalRoundTrip(status);
      Rejected(m)
  }

  /** The capability request `getSasUrl(file.name, file.type)` sends: both values in the query string. */
  function SasRequest(f: File): GetSasUrl.Request {
    GetSasUrl.Request(Some(f.name), Some(f.mimeType), None, None)
  }

  /** For a queued file the server echoes the file's own type, and names the blob after the
      file (or `video.mp4` when the file has no name). */
  lemma UploadRequestEchoesFile(conn: Option<string>, f: File, now: nat, sign: Capability.Signer, encode: Capability.Encoder)
    requires IsVideoFile(f)
    requires SharedKeyCredential(conn).Success?
    ensures
      var r := GetSasUrl.Handle(conn, SasRequest(f), now, sign, encode);
      && r.Success?
      && r.value.contentType == f.mimeType
      && r.value.blobName == GetSasUrl.BlobNameFor(now, if f.name == "" then "video.mp4" else f.name)
  {
    assert f.mimeType != "";
  }
}
