/**
 * The resumable-upload protocol, apart from the session table itself: the
 * session record, the positional write into the scratch file, the copy of a
 * chunk's request body, the high-water mark `received`, and the browser's
 * chunk plan. The lemmas at the end show that the chunks of the plan,
 * written in order (and even with one chunk sent twice), rebuild the file.
 */
module Upload {
  import opened Wrappers
  import opened Text

  /** An upload in progress: declared name, MIME type and size, its scratch file, the high-water mark. */
  datatype UploadState = UploadState(name: string, mime: string, total: int, tmp: string, received: int)

  /** The browser's chunk size, 1 MiB. */
  const CHUNK_SIZE: nat := 1048576

  /** The buffer the server copies a request body through, 64 KiB. */
  const COPY_BUFFER: nat := 65536

  /** Kotlin `Long` arithmetic: the mathematical value wrapped into 64-bit two's complement. */
  function WrapLong(x: int): (r: int)
    ensures LONG_MIN <= r <= LONG_MAX
    ensures LONG_MIN <= x <= LONG_MAX ==> r == x
    ensures (r - x) % 0x1_0000_0000_0000_0000 == 0
  {
    (x - LONG_MIN) % 0x1_0000_0000_0000_0000 + LONG_MIN
  }

  /**
   * `received := max(received, off + (lenHeader ?: 0))`: the end of the chunk
   * the client declared, kept only when it is past the current mark.
   */
  function NextReceived(received: int, off: int, lenHeader: Option<int>): (r: int)
    ensures r >= received
    ensures r == received || r == WrapLong(off + lenHeader.GetOr(0))
    ensures LONG_MIN <= off + lenHeader.GetOr(0) <= LONG_MAX && received <= off + lenHeader.GetOr(0)
            ==> r == off + lenHeader.GetOr(0)
  {
    var reached := WrapLong(off + lenHeader.GetOr(0));
    if reached > received then reached else received
  }

  function Zeros(n: nat): (r: seq<bv8>)
    ensures |r| == n && forall i :: 0 <= i < n ==> r[i] == 0
  {
    seq(n, _ => 0)
  }

  /**
   * `seek(off)` followed by writing `data` to a random-access file: nothing
   * changes when there is nothing to write; otherwise `data` lands at `off`,
   * a gap between the old end and `off` reads as zero bytes, and every byte
   * outside the written range keeps its value.
   */
  function WriteAt(file: seq<bv8>, off: nat, data: seq<bv8>): (r: seq<bv8>)
    ensures data == [] ==> r == file
    ensures data != [] ==> |r| == if off + |data| > |file| then off + |data| else |file|
    ensures data != [] ==> r[off..off + |data|] == data
    ensures |r| >= |file| && forall i :: 0 <= i < |file| && !(off <= i < off + |data|) ==> r[i] == file[i]
    ensures data != [] ==> forall i :: |file| <= i < off ==> r[i] == 0
  {
    if data == [] then file
    else if off + |data| <= |file| then file[..off] + data + file[off + |data|..]
    else if off <= |file| then file[..off] + data
    else file + Zeros(off - |file|) + data
  }

  /** Writing at the current end appends. */
  lemma WriteAtEnd(file: seq<bv8>, data: seq<bv8>)
    ensures WriteAt(file, |file|, data) == file + data
  {
  }

  /** Writing bytes that are already there changes nothing. */
  lemma WriteAtSame(file: seq<bv8>, off: nat, data: seq<bv8>)
    requires off + |data| <= |file| && file[off..off + |data|] == data
    ensures WriteAt(file, off, data) == file
  {
    if data != [] {
      var r := WriteAt(file, off, data);
      assert forall i :: 0 <= i < |file| ==> r[i] == file[i] by {
        forall i | 0 <= i < |file| ensures r[i] == file[i] {
          if off <= i < off + |data| {
            assert r[off..off + |data|][i - off] == file[off..off + |data|][i - off];
          }
        }
      }
    }
  }

  /** What the copy loop of `uploadChunk` reads: the declared length, or the whole stream without one. */
  function BodyBytes(input: seq<bv8>, lenHeader: Option<int>): (r: seq<bv8>)
    ensures |r| <= |input| && r == input[..|r|]
    ensures lenHeader.Some? && lenHeader.value >= 0 ==>
              |r| == (if lenHeader.value < |input| then lenHeader.value else |input|)
    ensures lenHeader.None? || lenHeader.value < 0 ==> r == input
  {
    match lenHeader
    case Some(n) => if n < 0 then input else if n < |input| then input[..n] else input
    case None => input
  }

  /**
   * The copy loop of `uploadChunk`. `left` starts at the declared length, or
   * at -1 without one; each read asks for at most a buffer's worth (and, with
   * a length, at most what is left), a read of nothing ends the copy, and a
   * positive `left` counts down.
   */
  method CopyBody(input: seq<bv8>, lenHeader: Option<int>) returns (body: seq<bv8>)
    ensures body == BodyBytes(input, lenHeader)
  {
    var left: int := lenHeader.GetOr(-1);
    var pos := 0;
    body := [];
    while left != 0
      invariant 0 <= pos <= |input| && body == input[..pos]
      invariant left < 0 ==> left == lenHeader.GetOr(-1) && (lenHeader.None? || lenHeader.value < 0)
      invariant left >= 0 ==> lenHeader.Some? && left == lenHeader.value - pos
      decreases |input| - pos
    {
      var request := if left < 0 then COPY_BUFFER else if left < COPY_BUFFER then left else COPY_BUFFER;
      var r := if request < |input| - pos then request else |input| - pos;
      if r <= 0 {
        break;
      }
      body := body + input[pos..pos + r];
      assert body == input[..pos + r];
      pos := pos + r;
      if left > 0 {
        left := left - r;
      }
    }
  }

  /** `Math.min(offset + chunkSize, file.size)`. */
  function ChunkEnd(offset: nat, size: nat): nat {
    if offset + CHUNK_SIZE < size then offset + CHUNK_SIZE else size
  }

  /**
   * The chunks `uploadResumable` sends from `offset` on, as `(start, end)`
   * pairs: they tile `[offset, size)` in order, each non-empty and at most
   * one chunk long.
   */
  function Plan(offset: nat, size: nat): (p: seq<(nat, nat)>)
    requires offset <= size
    ensures p == [] <==> offset == size
    ensures p != [] ==> p[0].0 == offset && p[|p| - 1].1 == size
    ensures forall k :: 0 <= k < |p| ==> offset <= p[k].0 < p[k].1 <= size && p[k].1 - p[k].0 <= CHUNK_SIZE
    decreases size - offset
  {
    if offset == size then []
    else [(offset, ChunkEnd(offset, size))] + Plan(ChunkEnd(offset, size), size)
  }

  /** Each chunk starts where the one before it ended, so the plan leaves no gap and no overlap. */
  lemma {:induction false} PlanContiguous(offset: nat, size: nat)
    requires offset <= size
    ensures forall k :: 0 <= k < |Plan(offset, size)| - 1 ==> Plan(offset, size)[k].1 == Plan(offset, size)[k + 1].0
    decreases size - offset
  {
    if offset < size {
      var e := ChunkEnd(offset, size);
      PlanContiguous(e, size);
      var p := Plan(offset, size);
      var tail := Plan(e, size);
      assert p == [(offset, e)] + tail;
      forall k | 0 <= k < |p| - 1 ensures p[k].1 == p[k + 1].0 {
        if k > 0 {
          assert p[k] == tail[k - 1] && p[k + 1] == tail[k];
        }
      }
    }
  }

  /** Every chunk is a full 1 MiB except possibly the last. */
  lemma {:induction false} PlanFullChunks(offset: nat, size: nat)
    requires offset <= size
    ensures forall k :: 0 <= k < |Plan(offset, size)| - 1 ==> Plan(offset, size)[k].1 - Plan(offset, size)[k].0 == CHUNK_SIZE
    decreases size - offset
  {
    if offset < size {
      PlanFullChunks(ChunkEnd(offset, size), size);
      var p := Plan(offset, size);
      assert forall k :: 1 <= k < |p| ==> p[k] == Plan(ChunkEnd(offset, size), size)[k - 1];
    }
  }

  predicate ChunksWithin(chunks: seq<(nat, nat)>, size: nat) {
    forall k :: 0 <= k < |chunks| ==> chunks[k].0 <= chunks[k].1 <= size
  }

  /** The scratch file after the server has received `chunks` of `file`, each at its own offset. */
  function Replay(scratch: seq<bv8>, file: seq<bv8>, chunks: seq<(nat, nat)>): seq<bv8>
    requires ChunksWithin(chunks, |file|)
    decreases |chunks|
  {
    if chunks == [] then scratch
    else Replay(WriteAt(scratch, chunks[0].0, file[chunks[0].0..chunks[0].1]), file, chunks[1..])
  }

  /** Sending the plan from `offset` on, in order, onto the first `offset` bytes, yields the file. */
  lemma {:induction false} ReplayPlan(file: seq<bv8>, offset: nat)
    requires offset <= |file|
    ensures Replay(file[..offset], file, Plan(offset, |file|)) == file
    decreases |file| - offset
  {
    if offset < |file| {
      var e := ChunkEnd(offset, |file|);
      WriteAtEnd(file[..offset], file[offset..e]);
      assert file[..offset] + file[offset..e] == file[..e];
      ReplayPlan(file, e);
    }
  }

  /** The plan with its `k`-th chunk sent a second time right after the first. */
  function Resend(p: seq<(nat, nat)>, k: nat): seq<(nat, nat)>
    requires k < |p|
  {
    p[..k + 1] + [p[k]] + p[k + 1..]
  }

  /** Resending a chunk sends nothing outside the file. */
  lemma ResendWithin(p: seq<(nat, nat)>, k: nat, size: nat)
    requires ChunksWithin(p, size) && k < |p|
    ensures ChunksWithin(Resend(p, k), size)
  {
    var q := Resend(p, k);
    forall j | 0 <= j < |q| ensures q[j].0 <= q[j].1 <= size {
      if j <= k {
        assert q[j] == p[j];
      } else if j == k + 1 {
        assert q[j] == p[k];
      } else {
        assert q[j] == p[j - 1];
      }
    }
  }

  /** Replaying starts with the first chunk. */
  lemma ReplayFirst(scratch: seq<bv8>, file: seq<bv8>, c: (nat, nat), rest: seq<(nat, nat)>)
    requires c.0 <= c.1 <= |file| && ChunksWithin(rest, |file|)
    ensures ChunksWithin([c] + rest, |file|)
    ensures Replay(scratch, file, [c] + rest) == Replay(WriteAt(scratch, c.0, file[c.0..c.1]), file, rest)
  {
    assert ([c] + rest)[1..] == rest;
  }

  /** Sending the chunk that starts at the end of a prefix of the file extends that prefix. */
  lemma ReplayNextChunk(file: seq<bv8>, offset: nat, e: nat, rest: seq<(nat, nat)>)
    requires offset <= e <= |file| && ChunksWithin(rest, |file|)
    ensures ChunksWithin([(offset, e)] + rest, |file|)
    ensures Replay(file[..offset], file, [(offset, e)] + rest) == Replay(file[..e], file, rest)
  {
    ReplayFirst(file[..offset], file, (offset, e), rest);
    WriteAtEnd(file[..offset], file[offset..e]);
    assert file[..offset] + file[offset..e] == file[..e];
  }

  /** Resending a later chunk keeps the first chunk in front. */
  lemma ResendLater(p: seq<(nat, nat)>, k: nat)
    requires 0 < k < |p|
    ensures Resend(p, k) == [p[0]] + Resend(p[1..], k - 1)
  {
    assert p[..k + 1] == [p[0]] + p[1..][..k];
    assert p[k + 1..] == p[1..][k..];
  }

  /** Sending the first chunk twice and then the rest of the plan yields the file. */
  lemma ResendFirstChunk(file: seq<bv8>, offset: nat)
    requires offset < |file|
    ensures ChunksWithin(Resend(Plan(offset, |file|), 0), |file|)
    ensures Replay(file[..offset], file, Resend(Plan(offset, |file|), 0)) == file
  {
    var p := Plan(offset, |file|);
    ResendWithin(p, 0, |file|);
    var e := ChunkEnd(offset, |file|);
    var c := (offset, e);
    var tail := Plan(e, |file|);
    assert p == [c] + tail;
    assert Resend(p, 0) == [c] + ([c] + tail);
    ReplayFirst(file[..offset], file, c, [c] + tail);
    WriteAtEnd(file[..offset], file[offset..e]);
    assert file[..offset] + file[offset..e] == file[..e];
    ReplayFirst(file[..e], file, c, tail);
    WriteAtSame(file[..e], offset, file[offset..e]);
    ReplayPlan(file, e);
  }

  /** A chunk sent twice (a retry after a lost answer) leaves the same scratch file. */
  lemma {:induction false} ReplayPlanWithResend(file: seq<bv8>, offset: nat, k: nat)
    requires offset <= |file| && k < |Plan(offset, |file|)|
    ensures ChunksWithin(Resend(Plan(offset, |file|), k), |file|)
    ensures Replay(file[..offset], file, Resend(Plan(offset, |file|), k)) == file
    decreases k
  {
    var p := Plan(offset, |file|);
    ResendWithin(p, k, |file|);
    if k == 0 {
      ResendFirstChunk(file, offset);
    } else {
      var e := ChunkEnd(offset, |file|);
      var c := (offset, e);
      var tail := Plan(e, |file|);
      assert p == [c] + tail && p[1..] == tail;
      ResendLater(p, k);
      ReplayPlanWithResend(file, e, k - 1);
      ReplayNextChunk(file, offset, e, Resend(tail, k - 1));
    }
  }

  /** From an empty scratch file: the plan rebuilds the file, with or without one resent chunk. */
  lemma UploadRoundTrip(file: seq<bv8>)
    ensures Replay([], file, Plan(0, |file|)) == file
    ensures forall k :: 0 <= k < |Plan(0, |file|)| ==>
              ChunksWithin(Resend(Plan(0, |file|), k), |file|) && Replay([], file, Resend(Plan(0, |file|), k)) == file
  {
    assert file[..0] == [];
    ReplayPlan(file, 0);
    forall k | 0 <= k < |Plan(0, |file|)|
      ensures ChunksWithin(Resend(Plan(0, |file|), k), |file|) && Replay([], file, Resend(Plan(0, |file|), k)) == file
    {
      ReplayPlanWithResend(file, 0, k);
    }
  }
}
