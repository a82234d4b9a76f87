/** The parameters of a signed capability URL (a shared access signature) and the URL built
    from them. The signature itself is computed by code outside the model and is a parameter. */
module Capability {
  import opened Text
  import opened Storage

  /** Read (preview and gallery) or create-and-write (upload). */
  datatype Scope = Read | CreateWrite

  /** The clock-skew allowance before `now`, and the two validity windows after it, in milliseconds. */
  const ClockSkewMs: int := 2 * 60 * 1000
  const UploadWindowMs: int := 60 * 60 * 1000
  const PreviewWindowMs: int := 24 * 60 * 60 * 1000

  /** The fields handed to the signer. */
  datatype SasParams = SasParams(container: string, blobName: string, permissions: string, startsOn: int, expiresOn: int)

  /** `generateBlobSASQueryParameters(params, credential).toString()`. */
  type Signer = (SasParams, Account) -> string

  /** `encodeURIComponent`. */
  type Encoder = string -> string

  /** The capability for `blobName` issued at `now`: permissions `"r"` or `"cw"`, valid from two
      minutes before `now` until 24 hours (read) or one hour (create+write) after it. */
  function Params(container: string, blobName: string, scope: Scope, now: int): (p: SasParams)
    ensures p.container == container && p.blobName == blobName
    ensures p.permissions == if scope == Read then "r" else "cw"
    ensures p.startsOn == now - 120000
    ensures p.expiresOn == now + if scope == Read then 86400000 else 3600000
  {
    match scope
    case Read => SasParams(container, blobName, "r", now - ClockSkewMs, now + PreviewWindowMs)
    case CreateWrite => SasParams(container, blobName, "cw", now - ClockSkewMs, now + UploadWindowMs)
  }

  /** Both windows contain `now`, start together, and the read window outlasts the write window. */
  lemma WindowsNested(container: string, blobName: string, now: int)
    ensures
      var w := Params(container, blobName, CreateWrite, now);
      var r := Params(container, blobName, Read, now);
      && w.startsOn < now < w.expiresOn
      && r.startsOn < now < r.expiresOn
      && w.startsOn == r.startsOn
      && w.expiresOn < r.expiresOn
  {
  }

  /** `https://<account>.blob.core.windows.net/<container>/<encoded blob name>`. */
  function BlobUrl(account: Account, container: string, blobName: string, encode: Encoder): string {
    "https://" + account.name + ".blob.core.windows.net/" + container + "/" + encode(blobName)
  }

  /** The blob's URL, `?`, and the signed query string. */
  function CapabilityUrl(account: Account, p: SasParams, sign: Signer, encode: Encoder): (url: string)
    ensures IsPrefix(BlobUrl(account, p.container, p.blobName, encode) + "?", url)
    ensures url[|BlobUrl(account, p.container, p.blobName, encode)| + 1..] == sign(p, account)
  {
    var base := BlobUrl(account, p.container, p.blobName, encode) + "?";
    var url := base + sign(p, account);
    assert url[..|base|] == base;
    url
  }
}
