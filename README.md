# LANPhotoShare — a verified model of the sharing server and its app

LANPhotoShare is an Android app that shares a selection of photos and videos
over the local network. A small HTTP server runs on the phone. Its clients are
the browsers on the same LAN. A browser can:

- open an index page of thumbnails;
- download single files, or all of them as one zip;
- upload files back to the phone's camera roll in resumable 1 MiB chunks.

A PIN, handed over once in the URL of a QR code and then kept as a cookie,
can protect the whole server.

This project models the following parts of the app:

- **The server (`Server`).** The request gate (handshake redirect and
  `checkAuth`), the route dispatch and the answers of `/file`, `/zip` and
  `/thumb`. The `/zip` archive is modelled as the code writes it: it stops
  at the first repeated entry name. The upload handlers `upload_init`, `upload_chunk` and
  `upload_finish`, with their session table and scratch files. The 24 MiB
  LRU cache of thumbnails (`Thumbs`), and the sample-factor loop of the image
  thumbnailer.
- **The browser's upload routine (`UploadClient`, `Upload`).** The chunk
  plan of `uploadResumable`, driven against the server's handlers. The whole
  upload is proved to save exactly the file's bytes and to leave no session
  behind. Replaying the plan, even with one chunk sent twice, rebuilds the
  file.
- **Saving to the camera roll (`SaveMedia`).** The choice between the image
  and video collections, and the legacy free-name probe `name`,
  `base (2)ext`, `base (3)ext`, …
- **Zip entry and download names (`Archive`, `Sanitize`).** The two
  sanitisers and the `Content-Disposition` value.
- **The shared entry type (`Media`).** `SelectedItem` and its `Parcelable`
  round trip.
- **The folder scan (`ContentScanner`).** The depth-bounded, depth-first
  `scanMedia`. It is proved to collect exactly the media files within the
  bound.
- **The activity (`App`).** `MainActivity` is a class whose methods update
  the selection, the token, the shown URL and the running service. Its helpers
  are the PIN check and generator and the LAN-address filter of
  `localIpAddress`.

Kotlin library behaviour the code relies on is written out in `Text`. This
covers `split`, `trim`, `substringAfter`, `lastIndexOf` and `toLongOrNull`
/ `toIntOrNull` with their 64- and 32-bit ranges. A NanoHTTPD request and
response are plain values (`Http`).

The model stands in for several things the app gets from outside:

- **Values the app receives.** What the platform decodes (image bounds,
  sampled JPEGs, video frames) is a `Codec` value. The media store is a
  `Storage` value. The granted folder tree is a `Doc` tree. The network
  interfaces are a list of `Interface` values. The random digits of the PIN
  are a list of draws. The UUID of a new session and the name of its scratch
  file are parameters.
- **Files.** The server's cache directory is a map from scratch-file names
  to their bytes.

## Model

| member | source | states |
|---|---|---|
| Text.TrimStart | LANPhotoShare_v6/app/src/main/java/com/example/lanfotoshare/PhotoServer_old.kt:80 | `trim` drops exactly the leading run of whitespace: the result is a suffix starting at a non-blank |
| Text.TrimEnd | LANPhotoShare_v6/app/src/main/java/com/example/lanfotoshare/PhotoServer_old.kt:80 | `trim` drops exactly the trailing run of whitespace: the result is a prefix ending at a non-blank |
| Text.TrimUnpadded | LANPhotoShare_v6/app/src/main/java/com/example/lanfotoshare/MainActivity.kt:90 | a string without surrounding whitespace is its own trim |
| Text.Split | LANPhotoShare_v6/app/src/main/java/com/example/lanfotoshare/PhotoServer_old.kt:80 | `split(';')` yields at least one piece and no piece contains the separator |
| Text.SplitJoin | LANPhotoShare_v6/app/src/main/java/com/example/lanfotoshare/PhotoServer_old.kt:80 | splitting a `;`-joined list of `;`-free pieces gives the pieces back (inverse of joining) |
| Text.LastIndexOf | LANPhotoShare_v6/app/src/main/java/com/example/lanfotoshare/SaveMedia.kt:25 | `lastIndexOf('.')` is -1 or a position holding `.` with no `.` after it |
| Text.NatToStringInjective | LANPhotoShare_v6/app/src/main/java/com/example/lanfotoshare/PhotoServer_old.kt:436 | distinct ids render as distinct decimal strings |
| Text.ParseInteger | LANPhotoShare_v6/app/src/main/java/com/example/lanfotoshare/PhotoServer_old.kt:346-347 | `toLongOrNull`/`toIntOrNull` only ever yield a value inside the target type's range |
| Text.ParseNatToString | LANPhotoShare_v6/app/src/main/java/com/example/lanfotoshare/PhotoServer_old.kt:335 | a number rendered by `String(n)` / `toString` parses back to itself when it fits the type (round trip) |
| Text.IntToString | LANPhotoShare_v6/app/src/main/java/com/example/lanfotoshare/PhotoServer_old.kt:71 | a negative number renders as `-` followed by its digits, any other number as its digits |
| Text.ParseSigned | LANPhotoShare_v6/app/src/main/java/com/example/lanfotoshare/PhotoServer_old.kt:346-347 | `-<digits>` parses to the negated value and `+<digits>` to the value, when in range |
| Text.ParseIntToString | LANPhotoShare_v6/app/src/main/java/com/example/lanfotoshare/PhotoServer_old.kt:346-347 | every in-range number, negative ones included, parses back from its rendering (round trip) |
| Text.ParseRejectsBadStart | LANPhotoShare_v6/app/src/main/java/com/example/lanfotoshare/PhotoServer_old.kt:346-347 | a first character that is neither a sign nor a digit makes the header not a number |
| Text.ParseRejectsNonNumbers | LANPhotoShare_v6/app/src/main/java/com/example/lanfotoshare/PhotoServer_old.kt:346-347 | an empty header, a lone sign or a non-digit after the first character is not a number |
| Media.SelectedItem.WriteToParcel | LANPhotoShare_v6/app/src/main/java/com/example/lanfotoshare/SelectedItem.kt:18-22 | the URI, the name and the MIME type are written in that order at the parcel position, which advances by three |
| Media.CreateFromParcel | LANPhotoShare_v6/app/src/main/java/com/example/lanfotoshare/SelectedItem.kt:12-16 | reads URI, name, MIME type from the position; a null URI fails the `!!`, a null string becomes `""`; the position moves past the slots read (three, or one on failure), stopping at the end of the data |
| Media.ParcelRoundTrip | LANPhotoShare_v6/app/src/main/java/com/example/lanfotoshare/SelectedItem.kt:12-22 | reading back from where an item was written returns that item, whatever else the parcel holds |
| Media.DecodeNulls | LANPhotoShare_v6/app/src/main/java/com/example/lanfotoshare/SelectedItem.kt:13-15 | null name and MIME slots read back as empty strings |
| Media.NewArray | LANPhotoShare_v6/app/src/main/java/com/example/lanfotoshare/SelectedItem.kt:28 | `newArray(n)` is `n` nulls |
| Media.TransferThroughParcel | LANPhotoShare_v6/app/src/main/java/com/example/lanfotoshare/SelectedItem.kt:12-28 | write, rewind and `createFromParcel` on a fresh parcel gives back an equal item |
| Auth.PinPartIsEquality | LANPhotoShare_v6/app/src/main/java/com/example/lanfotoshare/PhotoServer_old.kt:80 | `startsWith("pin=") && substringAfter("pin=") == token` holds exactly when the piece is `pin=<token>` |
| Auth.CheckAuthExactly | LANPhotoShare_v6/app/src/main/java/com/example/lanfotoshare/PhotoServer_old.kt:76-83 | with a token, access is granted iff some trimmed cookie piece is `pin=<token>` or the first `t` parameter is the token |
| Auth.OpenWithoutToken | LANPhotoShare_v6/app/src/main/java/com/example/lanfotoshare/PhotoServer_old.kt:77 | without a token every request passes the gate, with no redirect |
| Auth.HandshakeIgnoresCookie | LANPhotoShare_v6/app/src/main/java/com/example/lanfotoshare/PhotoServer_old.kt:49-56 | `/?t=<token>` always gets the cookie-setting redirect, whatever cookie the browser sends |
| Auth.MissingCredentialsDenied | LANPhotoShare_v6/app/src/main/java/com/example/lanfotoshare/PhotoServer_old.kt:58 | no cookie header and no matching `t` parameter means 401 |
| Auth.HandshakeCookiePair | LANPhotoShare_v6/app/src/main/java/com/example/lanfotoshare/PhotoServer_old.kt:53 | the pair the browser keeps from the handshake's `Set-Cookie` is `pin=<token>` |
| Auth.HandshakeCookieGrants | LANPhotoShare_v6/app/src/main/java/com/example/lanfotoshare/PhotoServer_old.kt:76-83 | a later request whose cookie header carries that pair among others is never refused (handshake and check agree) |
| Sanitize.ReplaceChar | LANPhotoShare_v6/app/src/main/java/com/example/lanfotoshare/PhotoServer_old.kt:504 | `replace(from, to)` on single characters changes exactly the `from` positions |
| Sanitize.SanitizeZipEntryName | LANPhotoShare_v6/app/src/main/java/com/example/lanfotoshare/PhotoServer_old.kt:503-505 | every `\` and `/` becomes `_`, everything else is kept, and no separator remains |
| Sanitize.SanitizeZipEntryNameIdempotent | LANPhotoShare_v6/app/src/main/java/com/example/lanfotoshare/PhotoServer_old.kt:503-505 | sanitising twice is sanitising once |
| Sanitize.SanitizeZipEntryNameExample | LANPhotoShare_v6/app/src/main/java/com/example/lanfotoshare/PhotoServer_old.kt:503-505 | `a/b.jpg` and `a\b.jpg` both become `a_b.jpg` |
| Sanitize.SanitizeFilename | LANPhotoShare_v6/app/src/main/java/com/example/lanfotoshare/PhotoServer_old.kt:507-509 | each of `\ / : * ? " < > \|` becomes `_`, one for one |
| Sanitize.SanitizeFilenameClean | LANPhotoShare_v6/app/src/main/java/com/example/lanfotoshare/PhotoServer_old.kt:507-509 | no reserved character survives and the result is a fixed point |
| Sanitize.SanitizeFilenameFlat | LANPhotoShare_v6/app/src/main/java/com/example/lanfotoshare/PhotoServer_old.kt:385 | the saved display name never contains a path separator |
| Sanitize.RemoveChar | LANPhotoShare_v6/app/src/main/java/com/example/lanfotoshare/PhotoServer_old.kt:407 | `replace("\"", "")` removes every quote and keeps every other character, each as often as before |
| Sanitize.RemoveCharAppend | LANPhotoShare_v6/app/src/main/java/com/example/lanfotoshare/PhotoServer_old.kt:407 | removal works piece by piece, so the kept characters stay in their order |
| Sanitize.DispositionQuotes | LANPhotoShare_v6/app/src/main/java/com/example/lanfotoshare/PhotoServer_old.kt:407-408 | the `Content-Disposition` value holds exactly the two delimiting quotes and ends with one |
| SaveMedia.SaveToCamera | LANPhotoShare_v6/app/src/main/java/com/example/lanfotoshare/SaveMedia.kt:14-20 | a `video/` type is saved to the video collection, any other to the image collection |
| SaveMedia.SplitExtension | LANPhotoShare_v6/app/src/main/java/com/example/lanfotoshare/SaveMedia.kt:23-26 | base and extension concatenate to the name; the extension starts at the last `.` and is empty iff no `.` follows position 0 |
| SaveMedia.CandidateInjective | LANPhotoShare_v6/app/src/main/java/com/example/lanfotoshare/SaveMedia.kt:30 | different counters give different alternative names |
| SaveMedia.CandidatesBelowBound | LANPhotoShare_v6/app/src/main/java/com/example/lanfotoshare/SaveMedia.kt:29-32 | the probe loop stops: it cannot pass more counters than there are existing files |
| SaveMedia.UniqueName | LANPhotoShare_v6/app/src/main/java/com/example/lanfotoshare/SaveMedia.kt:22-34 | the chosen name does not exist yet |
| SaveMedia.UniqueNameIsFirstFree | LANPhotoShare_v6/app/src/main/java/com/example/lanfotoshare/SaveMedia.kt:22-34 | a free name is kept; otherwise the result is `base (k)ext` for the least free `k >= 2` |
| SaveMedia.UniqueLegacyFile | LANPhotoShare_v6/app/src/main/java/com/example/lanfotoshare/SaveMedia.kt:22-34 | the probe loop returns that first free name |
| SaveMedia.UniqueNameChars | LANPhotoShare_v6/app/src/main/java/com/example/lanfotoshare/SaveMedia.kt:30 | the probe adds only spaces, parentheses and digits to the name |
| Archive.SanitizedNames | LANPhotoShare_v6/app/src/main/java/com/example/lanfotoshare/PhotoServer_old.kt:417-418 | one sanitised entry name per item, in catalogue order |
| Archive.ZipRun | LANPhotoShare_v6/app/src/main/java/com/example/lanfotoshare/PhotoServer_old.kt:417-424 | the entries written are a prefix of the names, and all of them when the run ends normally |
| Archive.ZipRunStops | LANPhotoShare_v6/app/src/main/java/com/example/lanfotoshare/PhotoServer_old.kt:417-424 | the entries written are pairwise distinct and none was already in the archive; a run cut short stops exactly at the first name already in the archive or already written |
| Archive.ProduceZip | LANPhotoShare_v6/app/src/main/java/com/example/lanfotoshare/PhotoServer_old.kt:415-425 | the `forEach` over `putNextEntry` writes what `ZipAsWritten` says, stopping at the first repeated name |
| Archive.ZipRunCompletes | LANPhotoShare_v6/app/src/main/java/com/example/lanfotoshare/PhotoServer_old.kt:417-424 | the run ends normally iff no name repeats or was already used |
| Archive.ZipAsWrittenCompletes | LANPhotoShare_v6/app/src/main/java/com/example/lanfotoshare/PhotoServer_old.kt:412-429 | the zip holds every item iff the sanitised names are pairwise different |
| Archive.DuplicateNameStopsArchive | LANPhotoShare_v6/app/src/main/java/com/example/lanfotoshare/PhotoServer_old.kt:418-419 | two items with the same clean name: the archive stops after the first |
| Archive.SanitizedClashStopsArchive | LANPhotoShare_v6/app/src/main/java/com/example/lanfotoshare/PhotoServer_old.kt:418-419 | `a/b.jpg` and `a\b.jpg` clash after sanitising, and the archive is cut short |
| Archive.UniqueNames | LANPhotoShare_v6/app/src/main/java/com/example/lanfotoshare/PhotoServer_old.kt:418-419 | corrected naming, probing like `uniqueLegacyFile`: one name per entry, pairwise distinct, none already used |
| Archive.ZipEntryNames | LANPhotoShare_v6/app/src/main/java/com/example/lanfotoshare/PhotoServer_old.kt:418 | corrected entry names: one per item and pairwise distinct |
| Archive.UniqueNamesKeepsDistinct | LANPhotoShare_v6/app/src/main/java/com/example/lanfotoshare/PhotoServer_old.kt:418 | names that are already distinct are left as they are |
| Archive.ZipEntryNamesSound | LANPhotoShare_v6/app/src/main/java/com/example/lanfotoshare/PhotoServer_old.kt:417-424 | the corrected names let the zip loop finish, contain no separator, and equal the original names whenever those never clashed |
| Archive.WrittenEntries | LANPhotoShare_v6/app/src/main/java/com/example/lanfotoshare/PhotoServer_old.kt:417-419 | the entries the loop writes: the k-th pairs the k-th item's sanitised name with its URI, at most one per item |
| Archive.WrittenEntriesComplete | LANPhotoShare_v6/app/src/main/java/com/example/lanfotoshare/PhotoServer_old.kt:412-429 | the archive holds an entry for every item, and its writer ends normally, iff the sanitised names are pairwise different |
| Archive.ZipEntries | LANPhotoShare_v6/app/src/main/java/com/example/lanfotoshare/PhotoServer_old.kt:417-423 | corrected archive: one entry per item carrying its URI, names pairwise distinct, and the same as the written entries whenever no name clashes |
| Upload.WrapLong | LANPhotoShare_v6/app/src/main/java/com/example/lanfotoshare/PhotoServer_old.kt:375 | `Long` addition wraps into the 64-bit range and agrees with the exact sum when it fits |
| Upload.NextReceived | LANPhotoShare_v6/app/src/main/java/com/example/lanfotoshare/PhotoServer_old.kt:375 | the high-water mark never goes down and moves only to `off + length` |
| Upload.WriteAt | LANPhotoShare_v6/app/src/main/java/com/example/lanfotoshare/PhotoServer_old.kt:367-372 | seek and copy, the evident meaning of the ill-typed line 372: the data lands at the offset, other bytes are kept, a gap is zero-filled, empty data changes nothing |
| Upload.WriteAtEnd | LANPhotoShare_v6/app/src/main/java/com/example/lanfotoshare/PhotoServer_old.kt:367-372 | writing at the current end appends |
| Upload.WriteAtSame | LANPhotoShare_v6/app/src/main/java/com/example/lanfotoshare/PhotoServer_old.kt:367-372 | rewriting bytes already in place changes nothing (a retried chunk is harmless) |
| Upload.BodyBytes | LANPhotoShare_v6/app/src/main/java/com/example/lanfotoshare/PhotoServer_old.kt:354-365 | the copied body is a prefix of the stream: the declared length when there is one, else the whole stream |
| Upload.CopyBody | LANPhotoShare_v6/app/src/main/java/com/example/lanfotoshare/PhotoServer_old.kt:356-365 | the 64 KiB copy loop reads exactly `BodyBytes` |
| Upload.Plan | LANPhotoShare_v6/app/src/main/java/com/example/lanfotoshare/PhotoServer_old.kt:215-236 | the browser's chunks run from the offset to the size, each non-empty and at most 1 MiB |
| Upload.PlanContiguous | LANPhotoShare_v6/app/src/main/java/com/example/lanfotoshare/PhotoServer_old.kt:219-227 | each chunk starts where the previous one ended: no gap, no overlap |
| Upload.PlanFullChunks | LANPhotoShare_v6/app/src/main/java/com/example/lanfotoshare/PhotoServer_old.kt:215-219 | every chunk but the last is exactly 1 MiB |
| Upload.ReplayPlan | LANPhotoShare_v6/app/src/main/java/com/example/lanfotoshare/PhotoServer_old.kt:218-227 | resuming the plan at any offset over the bytes already received rebuilds the file |
| Upload.ResendWithin | LANPhotoShare_v6/app/src/main/java/com/example/lanfotoshare/PhotoServer_old.kt:218-227 | resending a chunk never writes outside the file |
| Upload.ReplayPlanWithResend | LANPhotoShare_v6/app/src/main/java/com/example/lanfotoshare/PhotoServer_old.kt:367-372 | a chunk sent twice (a retry) still rebuilds exactly the file |
| Upload.UploadRoundTrip | LANPhotoShare_v6/app/src/main/java/com/example/lanfotoshare/PhotoServer_old.kt:205-240 | from an empty scratch file the plan rebuilds the file, with or without one resent chunk |
| Thumbs.SampleFromProperties | LANPhotoShare_v6/app/src/main/java/com/example/lanfotoshare/PhotoServer_old.kt:459-461 | the loop reaches the least power of two that brings the long side to at most four times the target |
| Thumbs.SampleSize | LANPhotoShare_v6/app/src/main/java/com/example/lanfotoshare/PhotoServer_old.kt:459-461 | the doubling loop returns that factor: a power of two, enough, and half of it not enough |
| Thumbs.SampleFactorExamples | LANPhotoShare_v6/app/src/main/java/com/example/lanfotoshare/PhotoServer_old.kt:461 | 960 px needs no sampling; 4000 px at target 240 samples by 8 |
| Thumbs.Thumbnail | LANPhotoShare_v6/app/src/main/java/com/example/lanfotoshare/PhotoServer_old.kt:442-446 | `video/` items take the video path; an image with empty bounds has no thumbnail |
| Thumbs.ImageThumbnailSampling | LANPhotoShare_v6/app/src/main/java/com/example/lanfotoshare/PhotoServer_old.kt:452-466 | an image is decoded with a power-of-two factor leaving its long side at most 960 px |
| Thumbs.ThumbKeyInjective | LANPhotoShare_v6/app/src/main/java/com/example/lanfotoshare/PhotoServer_old.kt:436 | different items have different cache keys `id:<id>@240` |
| Thumbs.Lookup | LANPhotoShare_v6/app/src/main/java/com/example/lanfotoshare/PhotoServer_old.kt:437 | a cache hit exists exactly when an entry has the key, and returns that entry's bytes |
| Thumbs.Remove | LANPhotoShare_v6/app/src/main/java/com/example/lanfotoshare/PhotoServer_old.kt:448 | removing a key keeps exactly the other entries and their distinct keys |
| Thumbs.TrimTo | LANPhotoShare_v6/app/src/main/java/com/example/lanfotoshare/PhotoServer_old.kt:26-28 | `trimToSize` keeps a newest-first suffix whose byte total fits the budget |
| Thumbs.TrimToWithin | LANPhotoShare_v6/app/src/main/java/com/example/lanfotoshare/PhotoServer_old.kt:26-28 | trimming only drops entries |
| Thumbs.TrimKeepsNewest | LANPhotoShare_v6/app/src/main/java/com/example/lanfotoshare/PhotoServer_old.kt:448 | the value just put survives iff it fits the budget on its own |
| Thumbs.PutSize | LANPhotoShare_v6/app/src/main/java/com/example/lanfotoshare/PhotoServer_old.kt:26-28 | replacing a key's value swaps the old byte count for the new one and keeps keys distinct |
| Thumbs.TrimStep | LANPhotoShare_v6/app/src/main/java/com/example/lanfotoshare/PhotoServer_old.kt:26-28 | over budget, the eldest entry goes and its bytes leave the total |
| Thumbs.LruCache.constructor | LANPhotoShare_v6/app/src/main/java/com/example/lanfotoshare/PhotoServer_old.kt:26 | a new cache is empty with the given byte budget |
| Thumbs.LruCache.Get | LANPhotoShare_v6/app/src/main/java/com/example/lanfotoshare/PhotoServer_old.kt:437 | a hit returns the stored bytes and makes the entry most recent; a miss changes nothing |
| Thumbs.LruCache.Put | LANPhotoShare_v6/app/src/main/java/com/example/lanfotoshare/PhotoServer_old.kt:448 | replaces any previous value, appends as most recent, trims to the budget, keeping the size invariant |
| Thumbs.LruCache.EvictAll | LANPhotoShare_v6/app/src/main/java/com/example/lanfotoshare/PhotoServer_old.kt:43 | the cache becomes empty |
| Server.ThumbIdInRange | LANPhotoShare_v6/app/src/main/java/com/example/lanfotoshare/PhotoServer_old.kt:432-450 | a JPEG answer is the thumbnail of an id inside the catalogue; an id outside it gets 404 "Elemento non trovato" |
| Server.FileResponseShape | LANPhotoShare_v6/app/src/main/java/com/example/lanfotoshare/PhotoServer_old.kt:392-410 | a 200 streams the requested item under its MIME type with one well-quoted attachment header |
| Server.SeekFailed | LANPhotoShare_v6/app/src/main/java/com/example/lanfotoshare/PhotoServer_old.kt:71-72 | a negative seek offset is answered 500 `Errore: offset < 0: <offset>`, Android's `IOException` text, from which the offset reads back |
| Server.ZipResponse | LANPhotoShare_v6/app/src/main/java/com/example/lanfotoshare/PhotoServer_old.kt:412-429 | 200 `application/zip` named `media.zip`; the k-th entry is the k-th item under its sanitised name; the stream completes iff no name clashes, otherwise it is cut short |
| Server.ThumbCacheStepStores | LANPhotoShare_v6/app/src/main/java/com/example/lanfotoshare/PhotoServer_old.kt:437-448 | after a hit or a miss, a thumbnail that fits the budget is the newest entry under its key, so the next request is a hit |
| Server.PhotoServer.constructor | LANPhotoShare_v6/app/src/main/java/com/example/lanfotoshare/PhotoServer_old.kt:16-31 | the server starts with the given items and token, no sessions and an empty cache |
| Server.PhotoServer.UpdateItems | LANPhotoShare_v6/app/src/main/java/com/example/lanfotoshare/PhotoServer_old.kt:41-44 | the catalogue is replaced and every cached thumbnail dropped; sessions are untouched |
| Server.PhotoServer.UploadInit | LANPhotoShare_v6/app/src/main/java/com/example/lanfotoshare/PhotoServer_old.kt:332-341 | 405 / 400 per missing header; 200 iff POST with a name and a numeric size, opening a session with nothing received and an empty scratch file |
| Server.PhotoServer.UploadChunk | LANPhotoShare_v6/app/src/main/java/com/example/lanfotoshare/PhotoServer_old.kt:343-377 | each error answer of the source; a negative offset gets Android's failed-seek 500; 200 iff the session exists, the total matches and the offset is not negative; then the body is written at the offset and the mark advanced |
| Server.PhotoServer.UploadFinish | LANPhotoShare_v6/app/src/main/java/com/example/lanfotoshare/PhotoServer_old.kt:379-390 | an open session is removed with its scratch file, its bytes are saved under the sanitised name, and the answer is "done" or 500 |
| Server.PhotoServer.ServeThumb | LANPhotoShare_v6/app/src/main/java/com/example/lanfotoshare/PhotoServer_old.kt:432-450 | the answer is always the fresh thumbnail answer and a hit is served from the cache; the new cache is `ThumbCacheAfter` (hit moved to newest, a miss stored and trimmed, errors untouched) and holds a served thumbnail that fits |
| Server.PhotoServer.ServeItemThumb | LANPhotoShare_v6/app/src/main/java/com/example/lanfotoshare/PhotoServer_old.kt:436-449 | for an id in range: `get`, else compute, `put` and trim; the answer is the item's thumbnail or 404, and the cache is `ThumbCacheStep` |
| Server.PhotoServer.KeyHoldsThumbnail | LANPhotoShare_v6/app/src/main/java/com/example/lanfotoshare/PhotoServer_old.kt:436 | in a fresh cache, every entry under an item's key holds that item's thumbnail |
| Server.PhotoServer.CachedIsCurrent | LANPhotoShare_v6/app/src/main/java/com/example/lanfotoshare/PhotoServer_old.kt:436-438 | a hit under the key of `id` holds item `id`'s current thumbnail |
| Server.PhotoServer.CacheFreshAfterPut | LANPhotoShare_v6/app/src/main/java/com/example/lanfotoshare/PhotoServer_old.kt:448 | storing a current thumbnail and trimming keeps every cached entry current |
| Server.PhotoServer.Serve | LANPhotoShare_v6/app/src/main/java/com/example/lanfotoshare/PhotoServer_old.kt:46-74 | handshake redirect first, then 401 when denied, then the route's answer; `/zip` as written; the upload routes' answer, sessions and scratch files are `InitOutcome`/`ChunkOutcome`/`FinishOutcome` and leave the thumb cache alone; `/thumb` leaves the cache as `ThumbCacheAfter` |
| UploadClient.ClientMime | LANPhotoShare_v6/app/src/main/java/com/example/lanfotoshare/PhotoServer_old.kt:209 | an empty file type falls back to `application/octet-stream`, any other is kept |
| UploadClient.InitRequestHeaders | LANPhotoShare_v6/app/src/main/java/com/example/lanfotoshare/PhotoServer_old.kt:207-210 | the server reads back the name, size and MIME type the browser sends |
| UploadClient.ChunkRequestHeaders | LANPhotoShare_v6/app/src/main/java/com/example/lanfotoshare/PhotoServer_old.kt:221-225 | the server reads back the id, offset, total and length of each chunk |
| UploadClient.ChunkExtends | LANPhotoShare_v6/app/src/main/java/com/example/lanfotoshare/PhotoServer_old.kt:219-227 | a chunk written at the end of the received prefix extends it to the chunk's end |
| UploadClient.StartUpload | LANPhotoShare_v6/app/src/main/java/com/example/lanfotoshare/PhotoServer_old.kt:207-212 | `upload_init` opens the session with the file's name, size and type |
| UploadClient.SendChunk | LANPhotoShare_v6/app/src/main/java/com/example/lanfotoshare/PhotoServer_old.kt:219-227 | one chunk request moves the session and the scratch file from `offset` to `end` |
| UploadClient.SendChunks | LANPhotoShare_v6/app/src/main/java/com/example/lanfotoshare/PhotoServer_old.kt:218-236 | the loop sends exactly the plan and leaves the whole file in the scratch file |
| UploadClient.FinishUpload | LANPhotoShare_v6/app/src/main/java/com/example/lanfotoshare/PhotoServer_old.kt:238-239 | `upload_finish` closes the session and reports whether saving worked |
| UploadClient.UploadResumable | LANPhotoShare_v6/app/src/main/java/com/example/lanfotoshare/PhotoServer_old.kt:205-240 | a name or type beyond U+00FF makes `fetch` throw and nothing is sent; otherwise the whole plan is sent and the upload succeeds iff the store saves exactly the file's bytes under the sanitised name, leaving no session or scratch file |
| ContentScanner.ItemOf | LANPhotoShare_v6/app/src/main/java/com/example/lanfotoshare/ContentScanner.kt:19 | the item keeps the file's URI, name and type; a missing name becomes `media.bin`, a missing type `application/octet-stream` |
| ContentScanner.Walk | LANPhotoShare_v6/app/src/main/java/com/example/lanfotoshare/ContentScanner.kt:13-22 | the nested `walk` appends to `out` exactly what the depth-first listing yields |
| ContentScanner.ScanMedia | LANPhotoShare_v6/app/src/main/java/com/example/lanfotoshare/ContentScanner.kt:10-25 | `scanMedia` returns the depth-first collection from the root |
| ContentScanner.WalkedOnlyMedia | LANPhotoShare_v6/app/src/main/java/com/example/lanfotoshare/ContentScanner.kt:18 | every collected item has an `image/` or `video/` type |
| ContentScanner.WalkedComplete | LANPhotoShare_v6/app/src/main/java/com/example/lanfotoshare/ContentScanner.kt:13-22 | every media file in a folder no deeper than the bound is collected |
| ContentScanner.WalkedSound | LANPhotoShare_v6/app/src/main/java/com/example/lanfotoshare/ContentScanner.kt:13-22 | every collected item comes from such a file |
| ContentScanner.ScannedExactly | LANPhotoShare_v6/app/src/main/java/com/example/lanfotoshare/ContentScanner.kt:10-25 | files are collected exactly when they are media files within the bound, never with the octet-stream fallback type |
| ContentScanner.ScannedEmpty | LANPhotoShare_v6/app/src/main/java/com/example/lanfotoshare/ContentScanner.kt:11-23 | no root, a file as root, or a negative bound collects nothing |
| App.DigitString | LANPhotoShare_v6/app/src/main/java/com/example/lanfotoshare/MainActivity.kt:171 | one character per draw, each the draw's digit |
| App.RandomPin | LANPhotoShare_v6/app/src/main/java/com/example/lanfotoshare/MainActivity.kt:171 | six characters, a valid PIN, each denoting its draw |
| App.RandomPinStarts | LANPhotoShare_v6/app/src/main/java/com/example/lanfotoshare/MainActivity.kt:81-96 | the generated PIN passes the start button's check and becomes the token |
| App.TokenFromInput | LANPhotoShare_v6/app/src/main/java/com/example/lanfotoshare/MainActivity.kt:89-97 | switch off gives no token; switch on accepts iff the trimmed text is 4–6 ASCII digits, and then the token is exactly that trimmed text |
| App.LocalIpAddress | LANPhotoShare_v6/app/src/main/java/com/example/lanfotoshare/MainActivity.kt:137-153 | the nested loops return the first acceptable host of the first usable interface |
| App.FirstAcceptableSound | LANPhotoShare_v6/app/src/main/java/com/example/lanfotoshare/MainActivity.kt:142-149 | a chosen host is a private IPv4 without `:` from a non-loopback address; none iff no address qualifies |
| App.FirstPrivateHostSound | LANPhotoShare_v6/app/src/main/java/com/example/lanfotoshare/MainActivity.kt:137-153 | a chosen host is private and on an up, non-loopback interface; none iff no such interface has one |
| App.PrivateHostExamples | LANPhotoShare_v6/app/src/main/java/com/example/lanfotoshare/MainActivity.kt:146-148 | 192.168.x, 10.x and 172.16.x pass; 172.32.x and 8.8.8.8 do not |
| App.FirstUrl | LANPhotoShare_v6/app/src/main/java/com/example/lanfotoshare/MainActivity.kt:114-117 | `http://ip:port`, with `/?t=<token>` only when there is a token |
| App.MainActivity.constructor | LANPhotoShare_v6/app/src/main/java/com/example/lanfotoshare/MainActivity.kt:25-27 | empty selection, no token, port 8080, nothing running |
| App.MainActivity.OnPicked | LANPhotoShare_v6/app/src/main/java/com/example/lanfotoshare/MainActivity.kt:29-51 | an empty pick changes nothing; otherwise the selection is one item per pick, with the name and type fallbacks |
| App.MainActivity.OnFolderPicked | LANPhotoShare_v6/app/src/main/java/com/example/lanfotoshare/MainActivity.kt:53-66 | a non-empty scan to depth 3 replaces the selection; an empty one leaves it and shows the toast |
| App.MainActivity.OnStartClicked | LANPhotoShare_v6/app/src/main/java/com/example/lanfotoshare/MainActivity.kt:88-106 | an invalid PIN shows the toast and changes nothing; otherwise the token is set and the server started |
| App.MainActivity.StartServer | LANPhotoShare_v6/app/src/main/java/com/example/lanfotoshare/MainActivity.kt:108-123 | without a LAN address only the toast; otherwise the service gets the selection and token and the first URL is shown |
| App.MainActivity.StopServer | LANPhotoShare_v6/app/src/main/java/com/example/lanfotoshare/MainActivity.kt:125-130 | the service stops and the URL is cleared |

Several rows above state the properties of a specification function that
has no contract of its own:

- `Auth.CheckAuth` (PhotoServer_old.kt:76-83) by `Auth.CheckAuthExactly`, `Auth.MissingCredentialsDenied` and `Auth.HandshakeCookieGrants`.
- `Auth.HandshakeRedirect` (PhotoServer_old.kt:49-56) by `Auth.HandshakeIgnoresCookie` and `Auth.HandshakeCookiePair`.
- `Auth.Gate` (PhotoServer_old.kt:48-58) by `Auth.OpenWithoutToken`, `Auth.HandshakeIgnoresCookie` and `Server.PhotoServer.Serve`.
- `Server.FileResponse` (PhotoServer_old.kt:392-410) by `Server.FileResponseShape`.
- `Server.ThumbResponse` (PhotoServer_old.kt:432-450) by `Server.ThumbIdInRange` and `Server.PhotoServer.ServeThumb`.
- `Server.ThumbCacheAfter` and `Server.ThumbCacheStep` (PhotoServer_old.kt:436-449) by `Server.ThumbCacheStepStores` and `Server.PhotoServer.ServeItemThumb`.
- `Server.InitOutcome`, `Server.ChunkOutcome` and `Server.FinishOutcome` (PhotoServer_old.kt:332-390) by `Server.PhotoServer.UploadInit`, `UploadChunk` and `UploadFinish`, whose contracts also give each case outright, and by `UploadClient.UploadResumable`.
- `App.FirstAcceptable` and `App.FirstPrivateHost` (MainActivity.kt:137-153) by `App.FirstAcceptableSound`, `App.FirstPrivateHostSound` and `App.LocalIpAddress`.
- `ContentScanner.Walked`, `Listed` and `Scanned` (ContentScanner.kt:10-25) by `ContentScanner.WalkedComplete`, `ContentScanner.WalkedSound`, `ContentScanner.WalkedOnlyMedia`, `ContentScanner.ScannedExactly` and `ContentScanner.Walk`.

## Left out

- Decoding images, scaling them and encoding JPEGs are not modelled. Extracting video frames is not modelled either. A `Codec` value stands in for what they produce. It is taken to be deterministic, so a cached thumbnail is the thumbnail that would be recomputed.
- NanoHTTPD's I/O is not modelled, and neither are the streams of the responses. A response body is a value such as `FileStream(uri)` or `ZipStream(entries)`. The choice between fixed-length and chunked responses in `serveFile` is not kept.
- Concurrency is not modelled: the `ConcurrentHashMap`, `@Volatile` and the zip-writer thread. Each request is handled atomically.
- The index page, the service-worker script and the browser-side gallery code are not modelled. Only the upload routine of `scriptBlock` is.
- Rendering the QR code, the text of the mDNS URL, `ShareService` and displaying the toasts are left out. The toast strings themselves are kept.
- Throttling and progress reporting in `uploadResumable` only delay requests, so they are left out. The browser adds the `content-length` header of each chunk itself; the model writes it into the request explicitly.
- The Android permission requests and the SDK-version branches of `onStartClicked` are not modelled. The permission requests are asynchronous. `takePersistableUriPermission` is not modelled either.
- The MediaStore and legacy-file branches of `saveImage` and `saveVideo` are not modelled. A `Storage` value gives their success. `UniqueLegacyFile` is modelled on its own, over the set of names already in the directory.
- Scratch files are modelled, but the per-request `chunk_*.bin` body file is not. It is deleted on success and leaks on the exception path.
- `InputStream.read` is modelled as returning all the bytes still available up to the requested count.
- Writing past the end of a `RandomAccessFile` is modelled as zero-filling the gap.
- Upload.WriteAt: line 372 of PhotoServer_old.kt passes a `RandomAccessFile` to `InputStream.copyTo`, which takes an `OutputStream`. No overload accepts it, so the line does not compile as written. `WriteAt` models its evident meaning: the body bytes are written at the sought offset.
- UploadClient.UploadResumable: the browser is taken to hold a valid PIN cookie, or the server to run without a PIN. The requests go straight to the upload handlers. The 401 that `upload_init` gets once the cookie's one-day `Max-Age` has passed, or after a restart with a new PIN, is not modelled; on it the script throws.
- The only exception `serve` catches in the model is the negative seek offset. Any other exception is not modelled; one example is `openAssetFileDescriptor` throwing.
- A zip entry whose `openInputStream` is null is not modelled: the model does not describe entry contents at all.
- The writer thread of `serveZip` is not modelled. The `ZipException` it throws on a repeated name is uncaught, so on Android the default handler ends the app process; the model only records that the archive is cut short.
- UploadClient.UploadResumable: of the header checks `fetch` makes, only the rejection of characters above U+00FF is modelled. Its trimming of surrounding whitespace and its rejection of NUL, CR and LF are not. Nor is NanoHTTPD's decoding of header bytes above 0x7F into characters.
- The UUID of a session and the name of its scratch file are parameters. The scratch name must be fresh in the cache directory.
- `getDisplayName` and `getType` are inputs of each picked document (`Pick`).
- App.TokenFromInput: only ASCII digits make a valid PIN. On Android, Kotlin's `Regex` is backed by ICU, whose `\d` also matches the other Unicode decimal digits (`\p{Nd}`), so a PIN such as `١٢٣٤` is accepted by the app but refused by the model.
- Text.ParseInteger: only ASCII digits are accepted, although Kotlin's `toLongOrNull` also accepts other Unicode decimal digits.
- Text.IsWhitespace is Java's `Character.isWhitespace` or a Unicode space separator, over the code points Dafny's `char` can hold.

## Findings

| source | as written | input that shows it | evidently intended | confidence | as-written member | corrected member |
|---|---|---|---|---|---|---|
| LANPhotoShare_v6/app/src/main/java/com/example/lanfotoshare/PhotoServer_old.kt:412-429 | `serveZip` calls `putNextEntry` with the sanitised item name. A second item whose sanitised name repeats an earlier one makes `ZipOutputStream` throw "duplicate entry". The exception escapes the writer thread, which is a plain `Thread`: on Android the default handler ends the app process, and the browser gets an archive cut short. | two selected items both named `IMG_1.jpg`; or `a/b.jpg` and `a\b.jpg`, which both sanitise to `a_b.jpg` | every selected item appears in `media.zip` under a distinct name | not executed | Archive.DuplicateNameStopsArchive, Archive.SanitizedClashStopsArchive, Server.ZipResponse | Archive.ZipEntryNamesSound, Archive.ZipEntries |
