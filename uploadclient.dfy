/**
 * The resumable-upload client the index page runs in the browser
 * (`uploadResumable`), driven against the server's upload handlers: one
 * `upload_init`, the chunks of the plan in order, one `upload_finish`.
 * Throttling and progress reporting only delay requests and are not modelled.
 */
module UploadClient {
  import opened Wrappers
  import opened Text
  import opened Http
  import opened Upload
  import opened SaveMedia
  import opened Sanitize
  import opened Server

  /** `file.type || 'application/octet-stream'`: an empty type falls back to the generic one. */
  function ClientMime(fileType: string): (r: string)
    ensures r != []
    ensures fileType != [] ==> r == fileType
  {
    if fileType == [] then OCTET_STREAM else fileType
  }

  function InitRequest(name: string, size: nat, fileType: string): Request {
    Request("/upload_init", POST, map["x-name" := name, "x-size" := NatToString(size), "x-mime" := ClientMime(fileType)], map[], [])
  }

  /** The chunk `file[offset..end]`, declared by the browser with its length. */
  function ChunkRequest(id: string, file: seq<bv8>, offset: nat, end: nat): Request
    requires offset <= end <= |file|
  {
    Request("/upload_chunk", POST,
            map["x-id" := id, "x-offset" := NatToString(offset), "x-total" := NatToString(|file|),
                "content-length" := NatToString(end - offset)],
            map[], file[offset..end])
  }

  function FinishRequest(id: string): Request {
    Request("/upload_finish", POST, map["x-id" := id], map[], [])
  }

  /** What the server reads from a chunk request. */
  lemma ChunkRequestHeaders(id: string, file: seq<bv8>, offset: nat, end: nat)
    requires offset <= end <= |file| <= LONG_MAX
    ensures var req := ChunkRequest(id, file, offset, end);
            && req.verb == POST && req.Header("x-id") == Some(id)
            && LongHeader(req, "x-offset") == Some(offset) && LongHeader(req, "x-total") == Some(|file|)
            && LongHeader(req, "content-length") == Some(end - offset)
  {
    ParseNatToString(offset, LONG_MIN, LONG_MAX);
    ParseNatToString(|file|, LONG_MIN, LONG_MAX);
    ParseNatToString(end - offset, LONG_MIN, LONG_MAX);
  }

  /** Accepting the next chunk at the end of the prefix received so far extends the prefix to the chunk's end. */
  lemma ChunkExtends(file: seq<bv8>, offset: nat, end: nat)
    requires offset <= end <= |file| <= LONG_MAX
    ensures WriteAt(file[..offset], offset, BodyBytes(file[offset..end], Some(end - offset))) == file[..end]
    ensures NextReceived(offset, offset, Some(end - offset)) == end
  {
    assert BodyBytes(file[offset..end], Some(end - offset)) == file[offset..end];
    WriteAtEnd(file[..offset], file[offset..end]);
    assert file[..offset] + file[offset..end] == file[..end];
  }

  /** One `upload_chunk` request carrying `file[offset..end]` of the session `id`. */
  method SendChunk(server: PhotoServer, id: string, file: seq<bv8>, offset: nat, end: nat, name: string, mime: string, tmp: string)
    requires server.Valid() && offset <= end <= |file| <= LONG_MAX
    requires id in server.uploads && server.uploads[id] == UploadState(name, mime, |file|, tmp, offset)
    requires tmp in server.cacheDir && server.cacheDir[tmp] == file[..offset]
    modifies server
    ensures server.Valid() && server.items == old(server.items)
    ensures server.uploads == old(server.uploads)[id := UploadState(name, mime, |file|, tmp, end)]
    ensures server.cacheDir == old(server.cacheDir)[tmp := file[..end]]
  {
    var req := ChunkRequest(id, file, offset, end);
    ChunkRequestHeaders(id, file, offset, end);
    ChunkExtends(file, offset, end);
    var resp := server.UploadChunk(req);
  }

  lemma PlanAdvance(sent: seq<(nat, nat)>, offset: nat, size: nat)
    requires offset < size && sent + Plan(offset, size) == Plan(0, size)
    ensures (sent + [(offset, ChunkEnd(offset, size))]) + Plan(ChunkEnd(offset, size), size) == Plan(0, size)
  {
    assert Plan(offset, size) == [(offset, ChunkEnd(offset, size))] + Plan(ChunkEnd(offset, size), size);
  }

  lemma UpdateTwice<K, V>(m: map<K, V>, k: K, a: V, b: V)
    ensures m[k := a][k := b] == m[k := b]
  {
  }

  /** Adding a key and removing it again only removes it. */
  lemma UpdateThenRemove<K, V>(m: map<K, V>, k: K, v: V)
    ensures m[k := v] - {k} == m - {k}
  {
  }

  /** What the server reads from the init request. */
  lemma InitRequestHeaders(name: string, size: nat, fileType: string)
    requires size <= LONG_MAX
    ensures var req := InitRequest(name, size, fileType);
            && req.verb == POST && req.Header("x-name") == Some(name)
            && LongHeader(req, "x-size") == Some(size) && req.Header("x-mime") == Some(ClientMime(fileType))
  {
    ParseNatToString(size, LONG_MIN, LONG_MAX);
  }

  /** The `upload_init` request: the session opens with nothing received and an empty scratch file. */
  method StartUpload(server: PhotoServer, name: string, size: nat, fileType: string, id: string, tmp: string)
    requires server.Valid() && tmp !in server.cacheDir && size <= LONG_MAX
    modifies server
    ensures server.Valid() && server.items == old(server.items)
    ensures server.uploads == old(server.uploads)[id := UploadState(name, ClientMime(fileType), size, tmp, 0)]
    ensures server.cacheDir == old(server.cacheDir)[tmp := []]
  {
    InitRequestHeaders(name, size, fileType);
    var resp := server.UploadInit(InitRequest(name, size, fileType), id, tmp);
  }

  /** The `upload_finish` request: the session and its scratch file go, and the answer says whether saving worked. */
  method FinishUpload(server: PhotoServer, id: string, store: Storage, st: UploadState, file: seq<bv8>) returns (ok: bool)
    requires server.Valid() && id in server.uploads && server.uploads[id] == st
    requires st.tmp in server.cacheDir && server.cacheDir[st.tmp] == file
    modifies server
    ensures server.Valid() && server.items == old(server.items)
    ensures server.uploads == old(server.uploads) - {id} && server.cacheDir == old(server.cacheDir) - {st.tmp}
    ensures ok <==> SaveToCamera(store, SanitizeFilename(st.name), st.mime, file)
  {
    var resp := server.UploadFinish(FinishRequest(id), store);
    ok := resp.status == OK;
  }

  /** The chunk loop of `uploadResumable`: the plan's chunks, in order, each acknowledged before the next. */
  method SendChunks(server: PhotoServer, id: string, file: seq<bv8>, name: string, mime: string, tmp: string)
    returns (sent: seq<(nat, nat)>)
    requires server.Valid() && |file| <= LONG_MAX
    requires id in server.uploads && server.uploads[id] == UploadState(name, mime, |file|, tmp, 0)
    requires tmp in server.cacheDir && server.cacheDir[tmp] == []
    modifies server
    ensures server.Valid() && server.items == old(server.items)
    ensures sent == Plan(0, |file|)
    ensures server.uploads == old(server.uploads)[id := UploadState(name, mime, |file|, tmp, |file|)]
    ensures server.cacheDir == old(server.cacheDir)[tmp := file]
  {
    var offset: nat := 0;
    sent := [];
    assert file[..0] == [];
    while offset < |file|
      invariant 0 <= offset <= |file|
      invariant server.Valid() && server.items == old(server.items)
      invariant server.uploads == old(server.uploads)[id := UploadState(name, mime, |file|, tmp, offset)]
      invariant server.cacheDir == old(server.cacheDir)[tmp := file[..offset]]
      invariant sent + Plan(offset, |file|) == Plan(0, |file|)
      decreases |file| - offset
    {
      var end := ChunkEnd(offset, |file|);
      PlanAdvance(sent, offset, |file|);
      sent := sent + [(offset, end)];
      SendChunk(server, id, file, offset, end, name, mime, tmp);
      UpdateTwice(old(server.uploads), id, UploadState(name, mime, |file|, tmp, offset), UploadState(name, mime, |file|, tmp, end));
      UpdateTwice(old(server.cacheDir), tmp, file[..offset], file[..end]);
      offset := end;
    }
    assert file[..offset] == file;
  }

  /**
   * A header value `fetch` accepts: a ByteString, every character at most U+00FF.
   * Any other character makes `fetch` throw before a request is sent.
   */
  predicate IsByteString(s: string) {
    forall c :: c in s ==> c <= '\U{FF}'
  }

  /**
   * A whole upload of `file` through an honest server. A file name or type
   * that is not a ByteString makes the `upload_init` fetch throw, so nothing
   * reaches the server. Otherwise every request is accepted, the chunks sent
   * are exactly the plan from offset 0, the server saves exactly the file's
   * bytes under the sanitised name, and afterwards neither a session nor a
   * scratch file is left behind.
   */
  method UploadResumable(server: PhotoServer, file: seq<bv8>, name: string, fileType: string,
                         id: string, tmp: string, store: Storage)
    returns (ok: bool, sent: seq<(nat, nat)>)
    requires server.Valid() && tmp !in server.cacheDir && |file| <= LONG_MAX
    modifies server
    ensures server.Valid() && server.items == old(server.items)
    ensures ok <==> IsByteString(name) && IsByteString(ClientMime(fileType))
                    && SaveToCamera(store, SanitizeFilename(name), ClientMime(fileType), file)
    ensures !(IsByteString(name) && IsByteString(ClientMime(fileType))) ==>
              sent == [] && server.uploads == old(server.uploads) && server.cacheDir == old(server.cacheDir)
    ensures IsByteString(name) && IsByteString(ClientMime(fileType)) ==>
              sent == Plan(0, |file|) && server.uploads == old(server.uploads) - {id}
              && server.cacheDir == old(server.cacheDir)
  {
    var mime := ClientMime(fileType);
    if !IsByteString(name) || !IsByteString(mime) {
      return false, [];
    }
    StartUpload(server, name, |file|, fileType, id, tmp);
    sent := SendChunks(server, id, file, name, mime, tmp);
    UpdateTwice(old(server.uploads), id, UploadState(name, mime, |file|, tmp, 0), UploadState(name, mime, |file|, tmp, |file|));
    UpdateTwice(old(server.cacheDir), tmp, [], file);
    ok := FinishUpload(server, id, store, UploadState(name, mime, |file|, tmp, |file|), file);
    UpdateThenRemove(old(server.uploads), id, UploadState(name, mime, |file|, tmp, |file|));
    UpdateThenRemove(old(server.cacheDir), tmp, file);
    assert old(server.cacheDir) - {tmp} == old(server.cacheDir);
  }
}
