# Video gallery API: a Dafny model

This project models the request-handling rules of a small video-sharing app. The app is a set of
HTTP functions in front of a blob container, plus a browser client. The model is functional:
- The container is a map from blob name to stored content.
- The three metadata handlers are pure functions from the store and the request to a result and a new store.
- The listing and capability handlers are pure functions from the configuration, the blob listing or the request, and the clock to a result; they never write.
- The storage SDK, the clock and the capability signer are parameters.

What is modelled:

- **Shared storage helpers** (`api/shared/storage.js`), in `Storage`:
  - Connection-string parsing, in `;`-segments with last-wins assignment.
  - The credential lookup that fails when the connection string is missing.
  - The fixed container name `"videos"` (`Storage.ContainerName`).
  - Blob-name sanitising. Its two rewrites live in `Names`, because the browser client reuses the first.
- **Per-video metadata documents** (`__meta/<blobName>.json`), in `Metadata`:
  - What a stored blob can hold: nothing, zero bytes, text that is not JSON, `null` or another falsy value, a truthy non-object, an array, or an object with optional `comments`/`ratings` fields.
  - The load-or-default-and-backfill step all three metadata handlers share.
  - Writing a document back.
  - The guarded average.
- **The three metadata handlers**: `AddComment`, `RateVideo` and `GetVideoMeta`. `Numbers` covers JavaScript's `Number(...)` coercion and division that can produce `Infinity` or `NaN`.
- **Cross-handler properties**, in `Protocol`:
  - What a reader sees after a write.
  - The document invariant the writers keep.
  - The rating aggregate after a series of ratings.
  - Rejected requests never reach the store.
- **Capability issuing** (shared access signatures), in `Capability`: the permission strings, the validity windows in milliseconds, and the URL shape.
- **Handlers that use capabilities**:
  - `ListVideos`: the video-extension filter, per-entry defaults and the newest-first sort.
  - `GetSasUrl`: the input defaults, the blob name `<now>_<sanitised name>`, and the upload and preview URLs.
- **The browser client's pure decisions**, in `WebApp`:
  - The display-name rewrite.
  - The gallery search and its count label.
  - The `video/` MIME gate.
  - The 2xx upload rule.
  - The capability request it sends.

Behaviour of the code that a reader might not expect, all of it modelled as written:

- **Unparseable stored JSON.** `JSON.parse` throws and the handler answers 500; there is no fallback to the default document (`Metadata.LoadOrDefault`, `GetVideoMeta.Handle`).
- **The average guard.** `count` is tested for truthiness, so any non-zero count divides, a negative stored count included (`Metadata.Average`).
- **Fractional ratings.** Any finite number in [1, 5] is accepted, fractions included (`RateVideo.AcceptedRating`).
- **Comment ids.** Ids come from the millisecond clock, so two comments posted in the same millisecond share an id (`Protocol.SameMillisecondSameId`).
- **A stored array.** An array is truthy, so it is kept as the document. The backfill sets `comments` and `ratings` as properties of the array, but `JSON.stringify` writes only its elements. A comment or rating on such a document is answered with success and never stored (`Protocol.ArrayLosesComment`, `Protocol.ArrayLosesRating`).
- **`sanitizeName` in `web/app.js`.** Its comment says it removes spaces, but it keeps them. It agrees with the server's `sanitizeBlobName` exactly on names without white space (`WebApp.SanitizeNameAgreesWithServer`). `web/app.js` never calls it.

## Model

| member | source | states |
|---|---|---|
| Text.Split | api/shared/storage.js:10-11 | splitting on one character yields at least one piece, none containing the separator, joining back to the input, with two or more pieces exactly when the separator occurs |
| Text.Trim | api/shared/storage.js:12 | trimming yields a contiguous piece of the input that neither starts nor ends with white space, with only white space dropped before and after it, and is empty exactly when the input is all white space |
| Text.ContainsAt | web/app.js:110 | `includes` holds when some slice of the text equals the query |
| Text.ContainsSomewhere | web/app.js:110 | `includes` holds only when some slice of the text equals the query |
| Text.Truncate | api/addComment/index.js:26-27 | `slice(0, n)` is a prefix of length min(n, length) |
| Text.DecimalRoundTrip | api/addComment/index.js:25 | reading back the decimal rendering of a millisecond count gives that count |
| Names.ReplaceForbidden | api/shared/storage.js:39 | the character-class rewrite keeps the length, turns each forbidden character into `_` and leaves every other character in place |
| Names.CollapseWhitespace | api/shared/storage.js:39 | collapsing white-space runs never lengthens the text, leaves no white space, and introduces nothing but `_` |
| Names.CollapseRun | api/shared/storage.js:39 | a whole white-space run before non-white text becomes exactly one `_` |
| Names.CollapseKeepsPlain | api/shared/storage.js:39 | collapsing keeps every plain character (not forbidden, not white space, not `_`) in order |
| Storage.SegmentPairFields | api/shared/storage.js:10-12 | a segment contributes the trimmed text before its first `=` and the trimmed text between its first and second `=`, and nothing when either untrimmed part is empty |
| Storage.AssignLastWins | api/shared/storage.js:12 | a key is defined exactly when some segment contributes it, and holds the value of the last such segment |
| Storage.ParseConnectionString | api/shared/storage.js:8-18 | the only failure is the invalid-connection-string error, and a success carries a non-empty account name and key |
| Storage.ParsedValuesClean | api/shared/storage.js:10-12 | the parsed name and key are trimmed and contain neither `;` nor `=` |
| Storage.ParseConnectionStringSpec | api/shared/storage.js:14-17 | parsing succeeds exactly when the last `AccountName` and last `AccountKey` segments hold values non-empty after trimming, and returns those values |
| Storage.CredentialSpec | api/shared/storage.js:20-25 | a credential exists exactly when the connection string is set and its last `AccountName` and `AccountKey` values are non-empty, and it carries those two values |
| Storage.ServiceClientAgreesWithCredential | api/shared/storage.js:32-36 | the service client check fails exactly when the credential fails for a missing connection string, and a credential is only issued when the check passes |
| Storage.SanitizeBlobName | api/shared/storage.js:38-40 | the sanitised name is no longer than the input, holds no forbidden character and no white space, and keeps every plain character of the input in order |
| Storage.SanitizeBlobNameIdempotent | api/shared/storage.js:39 | sanitising twice equals sanitising once |
| Storage.SanitizeBlobNameFixed | api/shared/storage.js:39 | a name without forbidden characters or white space is left unchanged |
| Metadata.MetaName | api/addComment/index.js:13 | the metadata path is `__meta/`, the blob name, then `.json`, and the blob name can be read back from the middle |
| Metadata.MetaNameInjective | api/addComment/index.js:13 | different videos have different metadata paths |
| Metadata.BackfillSettles | api/addComment/index.js:20-21 | backfilling a backfilled document changes nothing, what is written back loads unchanged, and an object with both fields loads as exactly those fields |
| Metadata.LoadOrDefault | api/addComment/index.js:16-22 | an absent blob, zero bytes, `null` or a falsy value give the default document; malformed JSON and a truthy non-object fail; an object is backfilled field by field; an array loads with empty comments and zero ratings |
| Metadata.PersistRoundTrip | api/addComment/index.js:31-32 | reading back a written object yields it unchanged; reading back a written array yields the array without the comments and ratings set on it |
| Metadata.Save | api/addComment/index.js:31-32 | after the write, an object document reads back as written and an array reads back as its elements; every other video reads as before, and no other blob changes |
| Metadata.Average | api/getVideoMeta/index.js:23 | with a non-zero count, the average times the count gives back the sum; with a zero count the average is 0 |
| Metadata.AverageInRange | api/addComment/index.js:34 | under the rating invariant the average is 0 without ratings and lies in [1, 5] otherwise |
| AddComment.AuthorOf | api/addComment/index.js:26 | the author is the first 50 characters of a non-empty supplied author, otherwise `Anonymous`, and always has 1 to 50 characters |
| AddComment.NewComment | api/addComment/index.js:24-29 | the new comment has the clock's decimal id, the author rule, the first 1000 characters of the untrimmed text, and satisfies the comment invariant |
| AddComment.Handle | api/addComment/index.js:5-35 | a missing blob name, then blank text, are rejected first, and no failure writes anything. It succeeds exactly when validation passes, storage is configured and the stored document loads. Success appends one comment to an object document and leaves an array document's blob as it was; every other blob keeps its content. The answer is the new comment list plus the average and count of the unchanged ratings |
| Numbers.ToNumberAcrossTypes | api/rateVideo/index.js:8 | `Number` agrees across JSON types: a whole number and its decimal text convert alike, `null` like the empty text and 0, a boolean like the text `1` or `0`, and `undefined` and an object like their texts, to NaN |
| Numbers.StringToNumberOfDigits | api/rateVideo/index.js:8 | a string of decimal digits coerces to the number it denotes |
| Numbers.StringToNumberOfDecimal | api/rateVideo/index.js:8 | a rendered whole number coerces back to itself |
| Numbers.Divide | api/rateVideo/index.js:32 | division by a non-zero count is finite and exact, and division by zero is never finite |
| RateVideo.RatingValue | api/rateVideo/index.js:8-9 | an accepted rating coerces to a finite value in [1, 5] |
| RateVideo.AddRatingKeepsValid | api/rateVideo/index.js:26-27 | adding a rating in [1, 5] to an aggregate with a non-negative count and a sum between count and five times count keeps both bounds |
| RateVideo.DivideIsAverage | api/rateVideo/index.js:32 | with a non-zero count the unguarded division equals the guarded average |
| RateVideo.Answer | api/rateVideo/index.js:32-33 | the answer carries the count; with a non-zero count its average is the guarded average, and with a zero count it is not a finite number |
| RateVideo.Apply | api/rateVideo/index.js:26-33 | the write adds the rating to the sum and one to the count of an object document and leaves an array document's blob as it was; every other blob keeps its content. It answers the new count and, whenever the new count is not zero, the new average |
| RateVideo.Handle | api/rateVideo/index.js:5-33 | a missing blob name, then a rating that is not finite in [1, 5], are rejected first, and no failure writes anything. It succeeds exactly when validation passes, storage is configured and the document loads, and a success is the update of `RateVideo.Apply` |
| GetVideoMeta.Handle | api/getVideoMeta/index.js:5-24 | never writes; a missing blob name is rejected; it succeeds exactly when storage is configured and the document loads; malformed JSON fails; a missing document answers empty comments, zero ratings and average 0; otherwise it answers every document field, and an array's elements, with `avg` replaced by the guarded average |
| Protocol.AddThenGet | api/addComment/index.js:24-35 | after an accepted comment a read returns the ratings, average and count unchanged; for an object document it returns the same comment list as the write, ending in the new comment |
| Protocol.ArrayLosesComment | api/addComment/index.js:19-32 | a comment accepted on an array document is answered, but the store is left as it was and a later read shows no comments |
| Protocol.RateThenGet | api/rateVideo/index.js:26-33 | after an accepted rating a read returns the comments unchanged; for an object document with a non-negative count it returns the count and average the write answered |
| Protocol.ArrayLosesRating | api/rateVideo/index.js:21-30 | a rating accepted on an array document is answered with count 1, but the store is left as it was and a later read shows no ratings |
| Protocol.AddCommentKeepsInvariant | api/addComment/index.js:24-29 | appending keeps the document invariant and leaves the ratings alone; on an object it adds one comment and keeps every earlier comment in place, and on an array nothing changes |
| Protocol.RateKeepsInvariant | api/rateVideo/index.js:26-27 | rating keeps the document invariant and leaves the comments alone; on an object it raises the count by one, and on an array nothing changes |
| Protocol.RateOnceStep | api/rateVideo/index.js:26-30 | one more accepted rating on a comment-free document adds its value to the sum and one to the count |
| Protocol.FoldLoads | api/rateVideo/index.js:26-27 | any update that adds each accepted value to the sum and one to the count, applied to a fresh document once per value, leaves the total of the values and their number |
| Protocol.RatingsFromFresh | api/rateVideo/index.js:9-32 | from a missing document, n accepted ratings leave count n, the sum of the ratings and no comments, so the average lies in [1, 5] |
| Protocol.SumBounds | api/rateVideo/index.js:9 | n ratings in [1, 5] sum to between n and 5n |
| Protocol.RejectedCommentTouchesNothing | api/addComment/index.js:5-9 | a comment failing validation gets the same answer whatever the store holds, and leaves the store unchanged |
| Protocol.RejectedRatingTouchesNothing | api/rateVideo/index.js:5-13 | a rating failing validation gets the same answer whatever the store holds, and leaves the store unchanged |
| Protocol.SameMillisecondSameId | api/addComment/index.js:25 | two comments accepted on an object document in the same millisecond carry the same id |
| Capability.Params | api/getSasUrl/index.js:25-50 | a read capability carries `r` and a create-and-write one `cw`; both start 120000 ms before now; read ends 86400000 ms after now and write 3600000 ms after |
| Capability.WindowsNested | api/getSasUrl/index.js:30-47 | both windows contain now and start together, and the read window outlasts the write window |
| Capability.CapabilityUrl | api/getSasUrl/index.js:36-38 | the URL is the blob's address, `?`, then exactly the signed query |
| ListVideos.MetadataNeverListed | api/listVideos/index.js:21 | no metadata document path passes the video-extension filter |
| ListVideos.VideoNameAfterPrefix | api/listVideos/index.js:21 | a prefix without a `.` does not change whether a name passes the filter |
| ListVideos.EntryGrantsRead | api/listVideos/index.js:39-44 | an entry keeps the blob's name and links to that blob with a read-only capability valid at the listing instant; the link depends on the name alone |
| ListVideos.ComparatorMeaning | api/listVideos/index.js:47-51 | the comparator puts a first exactly when it is newer, or equally new with a greater name, and ties only on equal times and names |
| ListVideos.PrecedesSplits | api/listVideos/index.js:47-51 | the display order is negatively transitive, so it is a strict weak order the sort can use |
| ListVideos.Insert | api/listVideos/index.js:47-51 | inserting into a sorted list gives a sorted list holding exactly the old elements and the new one |
| ListVideos.Sort | api/listVideos/index.js:47-51 | the result is sorted newest first, ties by descending name, and is a permutation of the input |
| ListVideos.InsertFront | api/listVideos/index.js:47-51 | an element that the head of a sorted list does not precede is placed in front |
| ListVideos.InsertPast | api/listVideos/index.js:47-51 | an element that the head precedes is placed after the head |
| ListVideos.SortPair | api/listVideos/index.js:47-51 | two videos sort with the one that precedes first |
| ListVideos.SortExample | api/listVideos/index.js:47-51 | A at time 2, B at time 1 and C at time 2 named `z` sort as C, A, B |
| ListVideos.Entries | api/listVideos/index.js:19-45 | one entry per kept blob, in listing order |
| ListVideos.Gallery | api/listVideos/index.js:19-51 | the gallery is sorted, has one entry per kept blob, is a permutation of their entries, and holds only video names |
| ListVideos.Handle | api/listVideos/index.js:9-57 | the listing fails exactly when the credential does, with its error, and otherwise answers the gallery |
| GetSasUrl.FieldPrecedence | api/getSasUrl/index.js:12-13 | once the query sets both fields the body is ignored; with neither set in the query the body's fields act as if sent in the query; an empty request uploads `video.mp4` as `video/mp4` |
| GetSasUrl.BlobNameFor | api/getSasUrl/index.js:17 | the blob name ends in the sanitised file name, has no `.` before it, and holds no forbidden character and no white space |
| GetSasUrl.BlobNameTimestamp | api/getSasUrl/index.js:17 | the text before the first `_` is the decimal clock value and the rest is the sanitised file name |
| GetSasUrl.BlobNamesDistinctInTime | api/getSasUrl/index.js:17 | names issued at different milliseconds differ |
| GetSasUrl.UploadListedIff | api/getSasUrl/index.js:17 | an uploaded blob is listed in the gallery exactly when its sanitised file name has a video extension |
| GetSasUrl.Handle | api/getSasUrl/index.js:10-67 | it fails exactly when the credential does, with its error. Otherwise it echoes the effective content type and the derived blob name, and issues a create-and-write URL and a read URL for that blob |
| GetSasUrl.UrlsShareBlob | api/getSasUrl/index.js:36-54 | the upload and preview URLs share the blob address and differ only after `?` |
| GetSasUrl.PreviewMatchesGallery | api/getSasUrl/index.js:52-54 | the preview URL is the URL the gallery lists for the same blob at the same instant |
| WebApp.SanitizeName | web/app.js:11-14 | the display rewrite keeps the length, replaces every forbidden character with `_`, and leaves every other character, white space included, in place |
| WebApp.SanitizeNameAgreesWithServer | web/app.js:11-14 | the client and server rewrites agree exactly on names without white space |
| WebApp.FilterGallery | web/app.js:108-110 | a blank search keeps the whole list; otherwise a video is kept exactly when its lower-cased name contains the trimmed lower-cased query, with every copy of a kept video kept |
| WebApp.FilterGalleryKeepsOrder | web/app.js:110 | the search keeps the gallery order |
| WebApp.CountLabel | web/app.js:111 | the label is the count in decimal then ` video`, with a trailing `s` exactly when the count is not 1 |
| WebApp.CountLabelInjective | web/app.js:111 | different counts give different labels |
| Seqs.FilterCounts | web/app.js:58-60 | a filter keeps every copy of an element it keeps and no copy of one it drops |
| WebApp.UploadQueue | web/app.js:58-60 | exactly the files whose MIME type starts with `video/` are uploaded, in the order given, each as many times as it was dropped |
| WebApp.UploadOutcome | web/app.js:48-53 | an upload resolves exactly on a 2xx status, and otherwise rejects with `Upload failed: ` followed by exactly the status's decimal rendering, which reads back as the status |
| WebApp.UploadRequestEchoesFile | web/app.js:30-35 | for a video file the server echoes the file's own type and names the blob after the file, or `video.mp4` when the name is empty |

## Left out

- Storage SDK calls are not modelled: container creation, existence checks, downloads, uploads, listing, and failures of any of them. The container is a map and a listing is a sequence given to the handler. Storage errors would surface as 500 like any other.
- Capability signing and `encodeURIComponent` are function parameters, because they are foreign code.
- The clock is not modelled: every handler takes one millisecond value `now`. The source reads the clock separately for each window, for the comment id and for the ISO timestamp, so its values can differ by a few milliseconds. The ISO text of the clock is a separate string parameter.
- IEEE floating point is not modelled: sums and averages are reals, with no rounding.
- JSON text is not modelled. Documents are their parsed shape. Fields of the wrong type (a non-array `comments`, a non-object `ratings`, a non-string `author`, `text` or `filename` that `toString()` would render) are not modelled. Nor are arrays passed as a rating.
- Unicode is not modelled: `trim`, `\s` and `toLowerCase` are modelled on ASCII, and `localeCompare` as code-unit order.
- Concurrency is not modelled, including the lost update between two read-modify-write requests on one document. Each request runs alone.
- UI plumbing is not modelled: DOM rendering, drag and drop, clipboard, progress events, timers, `fetch` and its `res.ok` checks, and reading `process.env`.
- Numbers.StringToNumber: recognises an optional sign, `Infinity`, and decimal literals with an optional fraction. Exponents, hexadecimal, octal and binary prefixes are read as NaN here, where JavaScript accepts them.
- Numbers.ToNumber: for strings, only decimal digit strings and the texts `undefined` and `[object Object]` are characterised (`Numbers.StringToNumberOfDigits`, `Numbers.ToNumberAcrossTypes`).
- ListVideos.Handle: fixes the order only up to entries with equal time and equal name. A flat listing never holds two blobs with the same name.
- Storage.ServiceClientCheck: models only the missing-configuration check of `getServiceClient`. Building the client is SDK work.
- The 500 reply's `{error}` body is not modelled per handler: `Outcomes.Message` gives the messages the handlers throw themselves.
