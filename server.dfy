/**
 * `PhotoServer`: the shared catalogue, the thumbnail cache, the table of
 * upload sessions and the scratch files in the app's cache directory, with
 * the request handlers that read and change them.
 *
 * Responses that only read the catalogue (`/file`, `/zip`, `/thumb` as seen
 * from outside) are module-level functions; the class methods are the
 * handlers that change state. The scratch files are a map from file name to
 * contents; the fresh name `createTempFile` picks and the fresh id
 * `UUID.randomUUID` draws are parameters.
 */
module Server {
  import opened Wrappers
  import opened Text
  import opened Media
  import opened Http
  import opened Auth
  import opened Sanitize
  import opened Upload
  import opened Thumbs
  import opened SaveMedia
  import opened Archive

  const OCTET_STREAM: string := "application/octet-stream"

  /** A header read as a Kotlin `Long`: missing or not a number gives `None`. */
  function LongHeader(req: Request, name: string): Option<int> {
    match req.Header(name)
    case None => None
    case Some(v) => ToLongOrNull(v)
  }

  /** `session.parameters["id"]?.firstOrNull()?.toIntOrNull()`. */
  function IdParam(req: Request): Option<int> {
    match req.FirstParam("id")
    case None => None
    case Some(v) => ToIntOrNull(v)
  }

  /** A JPEG thumbnail answer. */
  function Jpeg(bytes: seq<bv8>): Response {
    Response(OK, "image/jpeg", [], Bytes(bytes))
  }

  /**
   * What `/thumb` answers, cache aside: 400 without a numeric id, 404 for an
   * id outside the catalogue or an item without a thumbnail, else the JPEG.
   */
  function ThumbResponse(items: seq<SelectedItem>, codec: Codec, req: Request): Response {
    match IdParam(req)
    case None => BadRequest("id mancante")
    case Some(id) =>
      if !(0 <= id < |items|) then NotFound("Elemento non trovato")
      else
        match Thumbnail(codec, items[id])
        case None => NotFound("Thumb non disponibile")
        case Some(bytes) => Jpeg(bytes)
  }

  /** An id the `/thumb` and `/file` handlers accept is an index into the catalogue. */
  lemma ThumbIdInRange(items: seq<SelectedItem>, codec: Codec, req: Request)
    ensures ThumbResponse(items, codec, req).status == OK ==>
              IdParam(req).Some? && 0 <= IdParam(req).value < |items|
              && Thumbnail(codec, items[IdParam(req).value]) == Some(ThumbResponse(items, codec, req).body.bytes)
    ensures (IdParam(req).Some? && !(0 <= IdParam(req).value < |items|)) ==> ThumbResponse(items, codec, req) == NotFound("Elemento non trovato")
  {
  }

  /**
   * What `/file` answers: the item's bytes under its MIME type, offered as an
   * attachment named by the `name` parameter or the item's name, quotes
   * removed. `canOpen` says whether the content resolver can open the item.
   */
  function FileResponse(items: seq<SelectedItem>, req: Request, canOpen: Uri -> bool): Response {
    match IdParam(req)
    case None => BadRequest("id mancante")
    case Some(id) =>
      if !(0 <= id < |items|) then NotFound("Elemento non trovato")
      else if !canOpen(items[id].uri) then NotFound("Impossibile aprire il file")
      else
        var fname := req.FirstParam("name").GetOr(items[id].name);
        Response(OK, items[id].mime, [("Content-Disposition", AttachmentDisposition(fname))], FileStream(items[id].uri))
  }

  /** A served file is the requested item, and its disposition header holds exactly the two delimiting quotes. */
  lemma FileResponseShape(items: seq<SelectedItem>, req: Request, canOpen: Uri -> bool)
    ensures var r := FileResponse(items, req, canOpen);
            r.status == OK ==>
              IdParam(req).Some? && 0 <= IdParam(req).value < |items|
              && r.body == FileStream(items[IdParam(req).value].uri) && r.mimeType == items[IdParam(req).value].mime
              && |r.headers| == 1 && r.headers[0].0 == "Content-Disposition"
              && Occurrences(r.headers[0].1, '"') == 2
  {
    match IdParam(req)
    case None =>
    case Some(id) =>
      if 0 <= id < |items| {
        DispositionQuotes(req.FirstParam("name").GetOr(items[id].name));
      }
  }

  /**
   * What `/zip` answers: a streamed archive named `media.zip` whose producer
   * writes the items in order under their sanitised names and dies at the
   * first repeated name, leaving the entries written so far.
   */
  function ZipResponse(items: seq<SelectedItem>): (r: Response)
    ensures r.status == OK && r.body.ZipStream?
    ensures r.body.completed <==> Distinct(SanitizedNames(items))
    ensures r.body.completed ==> |r.body.entries| == |items|
    ensures !r.body.completed ==> |r.body.entries| < |items|
    ensures forall i :: 0 <= i < |r.body.entries| ==> r.body.entries[i] == (SanitizeZipEntryName(items[i].name), items[i].uri)
  {
    WrittenEntriesComplete(items);
    Response(OK, "application/zip", [("Content-Disposition", "attachment; filename=\"media.zip\"")],
             ZipStream(WrittenEntries(items), ZipAsWritten(items).1))
  }

  /**
   * A chunk request `uploadChunk` writes: a POST naming an open session, with
   * numeric `x-offset` and `x-total`, the session's declared total and an
   * offset the file can seek to.
   */
  predicate ChunkAccepted(uploads: map<string, UploadState>, req: Request) {
    && req.verb == POST && req.Header("x-id").Some? && req.Header("x-id").value in uploads
    && LongHeader(req, "x-offset").Some? && LongHeader(req, "x-offset").value >= 0
    && LongHeader(req, "x-total") == Some(uploads[req.Header("x-id").value].total)
  }

  /** The paths `serve` dispatches. */
  predicate IsRoute(path: string) {
    path in {"/", "/sw.js", "/file", "/zip", "/thumb", "/upload_init", "/upload_chunk", "/upload_finish"}
  }

  /** What an upload handler leaves behind: its answer, the session table and the scratch files. */
  datatype Outcome = Outcome(resp: Response, uploads: map<string, UploadState>, cacheDir: map<string, seq<bv8>>)

  /** Every session's scratch file exists. */
  predicate ScratchFilesPresent(uploads: map<string, UploadState>, cacheDir: map<string, seq<bv8>>) {
    forall id :: id in uploads ==> uploads[id].tmp in cacheDir
  }

  /** The outcome of `uploadInit` with `id` and `tmp` as the fresh session id and scratch file. */
  function InitOutcome(uploads: map<string, UploadState>, cacheDir: map<string, seq<bv8>>, req: Request, id: string, tmp: string): Outcome {
    if req.verb != POST then Outcome(MethodNotAllowed(), uploads, cacheDir)
    else if req.Header("x-name").None? then Outcome(BadRequest("x-name mancante"), uploads, cacheDir)
    else if LongHeader(req, "x-size").None? then Outcome(BadRequest("x-size mancante"), uploads, cacheDir)
    else
      var st := UploadState(req.Header("x-name").value, req.Header("x-mime").GetOr(OCTET_STREAM), LongHeader(req, "x-size").value, tmp, 0);
      Outcome(Plain(OK, id), uploads[id := st], cacheDir[tmp := []])
  }

  /**
   * The answer `serve` gives when `RandomAccessFile.seek` refuses a negative
   * offset: Android's `IOException("offset < 0: " + pos)`, caught and reported as 500.
   */
  function SeekFailed(off: int): (r: Response)
    requires off < 0
    ensures r.status == INTERNAL_ERROR && r.body.Text?
    ensures r.body.text == "Errore: offset < 0: " + IntToString(off)
    ensures ParseInteger(r.body.text[|"Errore: offset < 0: "|..], off, 0) == Some(off)
  {
    var digits := IntToString(off);
    ParseIntToString(off, off, 0);
    assert "Errore: " + ("offset < 0: " + digits) == "Errore: offset < 0: " + digits;
    assert ("Errore: offset < 0: " + digits)[|"Errore: offset < 0: "|..] == digits;
    InternalError("offset < 0: " + digits)
  }

  /** The outcome of `uploadChunk`, the failed seek on a negative offset included. */
  function ChunkOutcome(uploads: map<string, UploadState>, cacheDir: map<string, seq<bv8>>, req: Request): Outcome
    requires ScratchFilesPresent(uploads, cacheDir)
  {
    if req.verb != POST then Outcome(MethodNotAllowed(), uploads, cacheDir)
    else if req.Header("x-id").None? then Outcome(BadRequest("x-id mancante"), uploads, cacheDir)
    else if LongHeader(req, "x-offset").None? then Outcome(BadRequest("x-offset mancante"), uploads, cacheDir)
    else if LongHeader(req, "x-total").None? then Outcome(BadRequest("x-total mancante"), uploads, cacheDir)
    else
      var id := req.Header("x-id").value;
      var off := LongHeader(req, "x-offset").value;
      var lenHeader := LongHeader(req, "content-length");
      if id !in uploads then Outcome(NotFound("upload non trovato"), uploads, cacheDir)
      else
        var st := uploads[id];
        if st.total != LongHeader(req, "x-total").value then Outcome(BadRequest("total mismatch"), uploads, cacheDir)
        else if off < 0 then Outcome(SeekFailed(off), uploads, cacheDir)
        else
          Outcome(Plain(OK, "ok"),
                  uploads[id := st.(received := NextReceived(st.received, off, lenHeader))],
                  cacheDir[st.tmp := WriteAt(cacheDir[st.tmp], off, BodyBytes(req.body, lenHeader))])
  }

  /** The outcome of `uploadFinish` with `store` as the media store. */
  function FinishOutcome(uploads: map<string, UploadState>, cacheDir: map<string, seq<bv8>>, req: Request, store: Storage): Outcome
    requires ScratchFilesPresent(uploads, cacheDir)
  {
    if req.verb != POST then Outcome(MethodNotAllowed(), uploads, cacheDir)
    else if req.Header("x-id").None? then Outcome(BadRequest("x-id mancante"), uploads, cacheDir)
    else if req.Header("x-id").value !in uploads then Outcome(NotFound("upload non trovato"), uploads, cacheDir)
    else
      var id := req.Header("x-id").value;
      var st := uploads[id];
      var saved := SaveToCamera(store, SanitizeFilename(st.name), st.mime, cacheDir[st.tmp]);
      Outcome(if saved then Plain(OK, "done") else Plain(INTERNAL_ERROR, "salvataggio fallito"),
              uploads - {id}, cacheDir - {st.tmp})
  }

  /**
   * The cache after `serveThumb`: a hit becomes the most recent entry, a
   * miss with a thumbnail stores it and trims to the budget, and everything
   * else leaves the cache alone.
   */
  function ThumbCacheAfter(entries: seq<(string, seq<bv8>)>, items: seq<SelectedItem>, codec: Codec, req: Request): seq<(string, seq<bv8>)> {
    match IdParam(req)
    case None => entries
    case Some(id) =>
      if !(0 <= id < |items|) then entries
      else ThumbCacheStep(entries, ThumbKey(id), Thumbnail(codec, items[id]))
  }

  /** In a cache with distinct keys, the last entry is what a lookup of its key finds. */
  lemma LookupLast(entries: seq<(string, seq<bv8>)>, key: string, v: seq<bv8>)
    requires DistinctKeys(entries) && entries != [] && entries[|entries| - 1] == (key, v)
    ensures Lookup(entries, key) == Some(v)
  {
    var r := Lookup(entries, key);
    assert entries[|entries| - 1].0 == key;
    var i :| 0 <= i < |entries| && entries[i] == (key, r.value);
    assert i == |entries| - 1;
  }

  /** A suffix of a cache with distinct keys has distinct keys. */
  lemma SuffixDistinct(entries: seq<(string, seq<bv8>)>, k: nat)
    requires DistinctKeys(entries) && k <= |entries|
    ensures DistinctKeys(entries[k..])
  {
    var s := entries[k..];
    forall i, j | 0 <= i < j < |s|
      ensures s[i].0 != s[j].0
    {
      assert s[i] == entries[k + i] && s[j] == entries[k + j];
    }
  }

  /** The cache step of `/thumb` for item `id`, once the id has been checked. */
  function ThumbCacheStep(entries: seq<(string, seq<bv8>)>, key: string, thumb: Option<seq<bv8>>): seq<(string, seq<bv8>)> {
    match Lookup(entries, key)
    case Some(v) => Remove(entries, key) + [(key, v)]
    case None =>
      match thumb
      case None => entries
      case Some(t) => TrimTo(Remove(entries, key) + [(key, t)], CACHE_BUDGET)
  }

  /**
   * After `/thumb` for an item whose thumbnail fits the budget, the cache
   * holds that thumbnail under the item's key as its most recent entry, so
   * the next request for it is a hit.
   */
  lemma ThumbCacheStepStores(entries: seq<(string, seq<bv8>)>, key: string, t: seq<bv8>)
    requires DistinctKeys(entries) && |t| <= CACHE_BUDGET
    requires forall e :: e in entries && e.0 == key ==> e.1 == t
    ensures var after := ThumbCacheStep(entries, key, Some(t));
            after != [] && after[|after| - 1] == (key, t) && Lookup(after, key) == Some(t)
  {
    var rest := Remove(entries, key);
    AppendFreshKey(rest, key, t);
    var all := rest + [(key, t)];
    var hit := Lookup(entries, key);
    if hit.Some? {
      var i :| 0 <= i < |entries| && entries[i] == (key, hit.value);
      assert entries[i] in entries;
      LookupLast(all, key, t);
    } else {
      var after := TrimTo(all, CACHE_BUDGET);
      TrimKeepsNewest(rest, key, t, CACHE_BUDGET);
      SuffixDistinct(all, |all| - |after|);
      LookupLast(after, key, t);
    }
  }

  class PhotoServer {
    const token: Option<string>
    const codec: Codec
    const thumbCache: LruCache
    var items: seq<SelectedItem>
    var uploads: map<string, UploadState>
    var cacheDir: map<string, seq<bv8>>

    /** The entry `e` holds the current thumbnail of the item its key names. */
    ghost predicate IsCurrent(e: (string, seq<bv8>))
      reads this`items
    {
      exists id :: 0 <= id < |items| && e.0 == ThumbKey(id) && Thumbnail(codec, items[id]) == Some(e.1)
    }

    /** Every cached thumbnail is current. */
    ghost predicate CacheFresh()
      reads this`items, thumbCache
    {
      forall e :: e in thumbCache.entries ==> IsCurrent(e)
    }

    /** Every open session has its own scratch file. */
    ghost predicate SessionsValid()
      reads this`uploads, this`cacheDir
    {
      && ScratchFilesPresent(uploads, cacheDir)
      && (forall a, b :: a in uploads && b in uploads && a != b ==> uploads[a].tmp != uploads[b].tmp)
    }

    ghost predicate Valid()
      reads this, thumbCache
    {
      && thumbCache.Valid() && thumbCache.maxSize == CACHE_BUDGET && CacheFresh()
      && SessionsValid()
    }

    constructor (initial: seq<SelectedItem>, token: Option<string>, codec: Codec, cacheDir: map<string, seq<bv8>>)
      ensures Valid() && fresh(thumbCache)
      ensures this.token == token && this.codec == codec && items == initial
      ensures uploads == map[] && this.cacheDir == cacheDir && thumbCache.entries == []
    {
      this.token := token;
      this.codec := codec;
      items := initial;
      thumbCache := new LruCache(CACHE_BUDGET);
      uploads := map[];
      this.cacheDir := cacheDir;
    }

    /** `updateItems`: the catalogue is replaced wholesale and every cached thumbnail dropped. */
    method UpdateItems(newItems: seq<SelectedItem>)
      requires Valid()
      modifies this, thumbCache
      ensures Valid()
      ensures items == newItems && thumbCache.entries == []
      ensures uploads == old(uploads) && cacheDir == old(cacheDir)
    {
      items := newItems;
      thumbCache.EvictAll();
    }

    /**
     * `uploadInit`: a POST with `x-name` and a numeric `x-size` opens a session
     * with nothing received, an empty scratch file `tmp` and the MIME type of
     * `x-mime` or `application/octet-stream`, and answers with its id.
     */
    method UploadInit(req: Request, id: string, tmp: string) returns (resp: Response)
      requires Valid() && tmp !in cacheDir
      modifies this
      ensures Valid() && items == old(items)
      ensures req.verb != POST ==> resp == MethodNotAllowed()
      ensures req.verb == POST && req.Header("x-name").None? ==> resp == BadRequest("x-name mancante")
      ensures req.verb == POST && req.Header("x-name").Some? && LongHeader(req, "x-size").None? ==>
                resp == BadRequest("x-size mancante")
      ensures resp.status != OK ==> uploads == old(uploads) && cacheDir == old(cacheDir)
      ensures resp.status == OK <==> req.verb == POST && req.Header("x-name").Some? && LongHeader(req, "x-size").Some?
      ensures resp.status == OK ==>
                resp == Plain(OK, id)
                && uploads == old(uploads)[id := UploadState(req.Header("x-name").value, req.Header("x-mime").GetOr(OCTET_STREAM),
                                                             LongHeader(req, "x-size").value, tmp, 0)]
                && cacheDir == old(cacheDir)[tmp := []]
      ensures Outcome(resp, uploads, cacheDir) == InitOutcome(old(uploads), old(cacheDir), req, id, tmp)
    {
      if req.verb != POST {
        return MethodNotAllowed();
      }
      var name := req.Header("x-name");
      if name.None? {
        return BadRequest("x-name mancante");
      }
      var size := LongHeader(req, "x-size");
      if size.None? {
        return BadRequest("x-size mancante");
      }
      var mime := req.Header("x-mime").GetOr(OCTET_STREAM);
      cacheDir := cacheDir[tmp := []];
      uploads := uploads[id := UploadState(name.value, mime, size.value, tmp, 0)];
      resp := Plain(OK, id);
    }

    /**
     * `uploadChunk`: after the checks (405, the three headers, an open session,
     * the declared total), the chunk's body is written into the scratch file
     * at `x-offset` and `received` is raised to the declared end of the chunk.
     * A negative offset makes the seek throw, which `serve` answers with 500.
     */
    method UploadChunk(req: Request) returns (resp: Response)
      requires Valid()
      modifies this
      ensures Valid() && items == old(items)
      ensures req.verb != POST ==> resp == MethodNotAllowed()
      ensures req.verb == POST && req.Header("x-id").None? ==> resp == BadRequest("x-id mancante")
      ensures req.verb == POST && req.Header("x-id").Some? && LongHeader(req, "x-offset").None? ==>
                resp == BadRequest("x-offset mancante")
      ensures req.verb == POST && req.Header("x-id").Some? && LongHeader(req, "x-offset").Some? && LongHeader(req, "x-total").None? ==>
                resp == BadRequest("x-total mancante")
      ensures req.verb == POST && req.Header("x-id").Some? && LongHeader(req, "x-offset").Some? && LongHeader(req, "x-total").Some? ==>
                var id := req.Header("x-id").value;
                (id !in old(uploads) ==> resp == NotFound("upload non trovato"))
                && (id in old(uploads) && old(uploads)[id].total != LongHeader(req, "x-total").value ==> resp == BadRequest("total mismatch"))
                && (id in old(uploads) && old(uploads)[id].total == LongHeader(req, "x-total").value && LongHeader(req, "x-offset").value < 0 ==>
                      resp == SeekFailed(LongHeader(req, "x-offset").value))
      ensures resp.status != OK ==> uploads == old(uploads) && cacheDir == old(cacheDir)
      ensures resp.status == OK <==> ChunkAccepted(old(uploads), req)
      ensures resp.status == OK ==>
                var id := req.Header("x-id").value;
                var off := LongHeader(req, "x-offset").value;
                var lenHeader := LongHeader(req, "content-length");
                var st := old(uploads)[id];
                && req.verb == POST && id in old(uploads) && LongHeader(req, "x-total") == Some(st.total) && off >= 0
                && resp == Plain(OK, "ok")
                && uploads == old(uploads)[id := st.(received := NextReceived(st.received, off, lenHeader))]
                && cacheDir == old(cacheDir)[st.tmp := WriteAt(old(cacheDir)[st.tmp], off, BodyBytes(req.body, lenHeader))]
      ensures Outcome(resp, uploads, cacheDir) == ChunkOutcome(old(uploads), old(cacheDir), req)
    {
      if req.verb != POST {
        return MethodNotAllowed();
      }
      var id := req.Header("x-id");
      if id.None? {
        return BadRequest("x-id mancante");
      }
      var off := LongHeader(req, "x-offset");
      if off.None? {
        return BadRequest("x-offset mancante");
      }
      var total := LongHeader(req, "x-total");
      if total.None? {
        return BadRequest("x-total mancante");
      }
      if id.value !in uploads {
        return NotFound("upload non trovato");
      }
      var st := uploads[id.value];
      if st.total != total.value {
        return BadRequest("total mismatch");
      }
      var lenHeader := LongHeader(req, "content-length");
      var body := CopyBody(req.body, lenHeader);
      if off.value < 0 {
        return SeekFailed(off.value);
      }
      cacheDir := cacheDir[st.tmp := WriteAt(cacheDir[st.tmp], off.value, body)];
      uploads := uploads[id.value := st.(received := NextReceived(st.received, off.value, lenHeader))];
      resp := Plain(OK, "ok");
    }

    /**
     * `uploadFinish`: the session is removed first, its scratch bytes go to
     * the camera folder under the sanitised name, and the scratch file is
     * deleted whether or not saving worked. Nothing compares `received`
     * with the declared total.
     */
    method UploadFinish(req: Request, store: Storage) returns (resp: Response)
      requires Valid()
      modifies this
      ensures Valid() && items == old(items)
      ensures req.verb != POST ==> resp == MethodNotAllowed()
      ensures req.verb == POST && req.Header("x-id").None? ==> resp == BadRequest("x-id mancante")
      ensures req.verb == POST && req.Header("x-id").Some? && req.Header("x-id").value !in old(uploads) ==>
                resp == NotFound("upload non trovato")
      ensures !(req.verb == POST && req.Header("x-id").Some? && req.Header("x-id").value in old(uploads)) ==>
                uploads == old(uploads) && cacheDir == old(cacheDir)
      ensures req.verb == POST && req.Header("x-id").Some? && req.Header("x-id").value in old(uploads) ==>
                var id := req.Header("x-id").value;
                var st := old(uploads)[id];
                var saved := SaveToCamera(store, SanitizeFilename(st.name), st.mime, old(cacheDir)[st.tmp]);
                && uploads == old(uploads) - {id}
                && cacheDir == old(cacheDir) - {st.tmp}
                && resp == (if saved then Plain(OK, "done") else Plain(INTERNAL_ERROR, "salvataggio fallito"))
      ensures Outcome(resp, uploads, cacheDir) == FinishOutcome(old(uploads), old(cacheDir), req, store)
    {
      if req.verb != POST {
        return MethodNotAllowed();
      }
      var id := req.Header("x-id");
      if id.None? {
        return BadRequest("x-id mancante");
      }
      if id.value !in uploads {
        return NotFound("upload non trovato");
      }
      var st := uploads[id.value];
      uploads := uploads - {id.value};
      var data := cacheDir[st.tmp];
      var ok := SaveToCamera(store, SanitizeFilename(st.name), st.mime, data);
      cacheDir := cacheDir - {st.tmp};
      if !ok {
        return Plain(INTERNAL_ERROR, "salvataggio fallito");
      }
      resp := Plain(OK, "done");
    }

    /**
     * `serveThumb`: a cached thumbnail is returned as stored; otherwise it is
     * generated and, when there is one, cached under `id:<id>@240`. Either way
     * the answer is the one the catalogue and the codec determine: the cache
     * never changes what a client sees.
     */
    method ServeThumb(req: Request) returns (resp: Response)
      requires Valid()
      modifies thumbCache
      ensures Valid()
      ensures resp == ThumbResponse(items, codec, req)
      ensures IdParam(req).Some? && 0 <= IdParam(req).value < |items| && Lookup(old(thumbCache.entries), ThumbKey(IdParam(req).value)).Some? ==>
                resp == Jpeg(Lookup(old(thumbCache.entries), ThumbKey(IdParam(req).value)).value)
      ensures thumbCache.entries == ThumbCacheAfter(old(thumbCache.entries), items, codec, req)
      ensures resp.status == OK && |resp.body.bytes| <= CACHE_BUDGET ==>
                Lookup(thumbCache.entries, ThumbKey(IdParam(req).value)) == Some(resp.body.bytes)
    {
      var id := IdParam(req);
      if id.None? {
        return BadRequest("id mancante");
      }
      if !(0 <= id.value < |items|) {
        return NotFound("Elemento non trovato");
      }
      resp := ServeItemThumb(id.value);
    }

    /** The part of `serveThumb` after the id checks: the cache lookup, or generating and storing. */
    method ServeItemThumb(id: nat) returns (resp: Response)
      requires Valid() && id < |items|
      modifies thumbCache
      ensures Valid()
      ensures resp == (match Thumbnail(codec, items[id]) case None => NotFound("Thumb non disponibile") case Some(b) => Jpeg(b))
      ensures Lookup(old(thumbCache.entries), ThumbKey(id)).Some? ==> resp == Jpeg(Lookup(old(thumbCache.entries), ThumbKey(id)).value)
      ensures thumbCache.entries == ThumbCacheStep(old(thumbCache.entries), ThumbKey(id), Thumbnail(codec, items[id]))
      ensures resp.status == OK && |resp.body.bytes| <= CACHE_BUDGET ==> Lookup(thumbCache.entries, ThumbKey(id)) == Some(resp.body.bytes)
    {
      var key := ThumbKey(id);
      ghost var before := thumbCache.entries;
      var cached := thumbCache.Get(key);
      if cached.Some? {
        CachedIsCurrent(key, id, cached.value);
        if |cached.value| <= CACHE_BUDGET {
          KeyHoldsThumbnail(before, key, id, cached.value);
          ThumbCacheStepStores(before, key, cached.value);
        }
        return Jpeg(cached.value);
      }
      var bytes := Thumbnail(codec, items[id]);
      if bytes.None? {
        return NotFound("Thumb non disponibile");
      }
      thumbCache.Put(key, bytes.value);
      CacheFreshAfterPut(before, key, id, bytes.value);
      if |bytes.value| <= CACHE_BUDGET {
        KeyHoldsThumbnail(before, key, id, bytes.value);
        ThumbCacheStepStores(before, key, bytes.value);
      }
      resp := Jpeg(bytes.value);
    }

    /** A hit under the key of `id` holds the current thumbnail of item `id`. */
    lemma CachedIsCurrent(key: string, id: nat, value: seq<bv8>)
      requires CacheFresh() && id < |items| && key == ThumbKey(id) && (key, value) in thumbCache.entries
      ensures Thumbnail(codec, items[id]) == Some(value)
    {
      assert IsCurrent((key, value));
      var j :| 0 <= j < |items| && key == ThumbKey(j) && Thumbnail(codec, items[j]) == Some(value);
      ThumbKeyInjective(j, id);
    }

    /** In a fresh cache, every entry under the key of `id` holds item `id`'s thumbnail. */
    lemma KeyHoldsThumbnail(entries: seq<(string, seq<bv8>)>, key: string, id: nat, t: seq<bv8>)
      requires forall e :: e in entries ==> IsCurrent(e)
      requires id < |items| && key == ThumbKey(id) && Thumbnail(codec, items[id]) == Some(t)
      ensures forall e :: e in entries && e.0 == key ==> e.1 == t
    {
      forall e | e in entries && e.0 == key
        ensures e.1 == t
      {
        assert IsCurrent(e);
        var j :| 0 <= j < |items| && e.0 == ThumbKey(j) && Thumbnail(codec, items[j]) == Some(e.1);
        ThumbKeyInjective(j, id);
      }
    }

    /** Storing the current thumbnail of `id` and trimming keeps every cached entry current. */
    lemma CacheFreshAfterPut(before: seq<(string, seq<bv8>)>, key: string, id: nat, value: seq<bv8>)
      requires id < |items| && key == ThumbKey(id) && Thumbnail(codec, items[id]) == Some(value)
      requires forall e :: e in before ==> IsCurrent(e)
      requires thumbCache.entries == TrimTo(Remove(before, key) + [(key, value)], CACHE_BUDGET)
      ensures CacheFresh()
    {
      var all := Remove(before, key) + [(key, value)];
      assert IsCurrent((key, value));
      TrimToWithin(all, CACHE_BUDGET);
      forall e | e in thumbCache.entries
        ensures IsCurrent(e)
      {
        assert e in all;
        if e != (key, value) {
          assert e in Remove(before, key);
        }
      }
    }

    /**
     * `serve`: the handshake first, then `checkAuth`, then the dispatch on
     * the path. `id` and `tmp` are the fresh session id and scratch name an
     * `upload_init` would use, `store` the media store, `canOpen` whether the
     * content resolver can open an item.
     */
    method Serve(req: Request, id: string, tmp: string, store: Storage, canOpen: Uri -> bool) returns (resp: Response)
      requires Valid() && tmp !in cacheDir
      modifies this, thumbCache
      ensures Valid() && items == old(items)
      ensures Gate(token, req).Redirect? ==> resp == Gate(token, req).response
      ensures Gate(token, req) == Denied ==> resp == Forbidden()
      ensures Gate(token, req) != Granted || !(req.uri in {"/thumb", "/upload_init", "/upload_chunk", "/upload_finish"}) ==>
                uploads == old(uploads) && cacheDir == old(cacheDir) && thumbCache.entries == old(thumbCache.entries)
      ensures Gate(token, req) == Granted ==>
                (req.uri == "/" ==> resp == Response(OK, "text/html; charset=utf-8", [], IndexPage(items)))
                && (req.uri == "/sw.js" ==> resp == Response(OK, "application/javascript", [], ServiceWorkerScript))
                && (req.uri == "/file" ==> resp == FileResponse(items, req, canOpen))
                && (req.uri == "/zip" ==> resp == ZipResponse(items))
                && (req.uri == "/thumb" ==> resp == ThumbResponse(items, codec, req))
                && (!IsRoute(req.uri) ==> resp == NotFound("Path " + req.uri + " non trovato"))
                && (req.uri == "/thumb" ==> thumbCache.entries == ThumbCacheAfter(old(thumbCache.entries), items, codec, req))
                && (req.uri == "/upload_init" ==> Outcome(resp, uploads, cacheDir) == InitOutcome(old(uploads), old(cacheDir), req, id, tmp))
                && (req.uri == "/upload_chunk" ==> Outcome(resp, uploads, cacheDir) == ChunkOutcome(old(uploads), old(cacheDir), req))
                && (req.uri == "/upload_finish" ==> Outcome(resp, uploads, cacheDir) == FinishOutcome(old(uploads), old(cacheDir), req, store))
      ensures Gate(token, req) == Granted && req.uri in {"/upload_init", "/upload_chunk", "/upload_finish"} ==>
                thumbCache.entries == old(thumbCache.entries)
    {
      var verdict := Gate(token, req);
      if verdict.Redirect? {
        return verdict.response;
      }
      if verdict == Denied {
        return Forbidden();
      }
      var path := req.uri;
      if path == "/" {
        resp := Response(OK, "text/html; charset=utf-8", [], IndexPage(items));
      } else if path == "/sw.js" {
        resp := Response(OK, "application/javascript", [], ServiceWorkerScript);
      } else if path == "/file" {
        resp := FileResponse(items, req, canOpen);
      } else if path == "/zip" {
        resp := ZipResponse(items);
      } else if path == "/thumb" {
        resp := ServeThumb(req);
      } else if path == "/upload_init" {
        resp := UploadInit(req, id, tmp);
      } else if path == "/upload_chunk" {
        resp := UploadChunk(req);
      } else if path == "/upload_finish" {
        resp := UploadFinish(req, store);
      } else {
        resp := NotFound("Path " + path + " non trovato");
      }
    }
  }
}
