/** The framing of an uploaded file on clamd's INSTREAM socket
    (infra/file_safety.py, _clamd_instream). */
module Instream {

  newtype byte = x: int | 0 <= x < 256

  const CHUNK := 65536
  const LIMIT := 0x1_0000_0000

  /** The file does not reach this many bytes in one chunk, so lengths fit four bytes. */
  datatype Deframed = Deframed(body: seq<byte>, rest: seq<byte>) | Malformed

  /** A length as four big-endian bytes. */
  function Pack(n: nat): (r: seq<byte>)
    requires n < LIMIT
    ensures |r| == 4 && Unpack(r) == n
  {
    var q1 := n / 256;
    var q2 := q1 / 256;
    [(q2 / 256) as byte, (q2 % 256) as byte, (q1 % 256) as byte, (n % 256) as byte]
  }

  function Unpack(b: seq<byte>): nat
    requires |b| == 4
  {
    ((b[0] as int * 256 + b[1] as int) * 256 + b[2] as int) * 256 + b[3] as int
  }

  /** What the receiver does: read a length, stop at zero, otherwise read that many bytes
      and go on. Anything cut short is malformed. */
  function Deframe(wire: seq<byte>): Deframed {
    if |wire| < 4 then Malformed
    else
      var n := Unpack(wire[..4]);
      if n == 0 then Deframed([], wire[4..])
      else if |wire| < 4 + n then Malformed
      else
        match Deframe(wire[4 + n..])
        case Malformed => Malformed
        case Deframed(body, rest) => Deframed(wire[4..4 + n] + body, rest)
  }

  /** A data chunk is never empty and never larger than the chunk size. */
  ghost predicate DataChunks(chunks: seq<seq<byte>>) {
    forall k | 0 <= k < |chunks| :: 0 < |chunks[k]| <= CHUNK
  }

  ghost function Frames(chunks: seq<seq<byte>>): seq<byte>
    requires DataChunks(chunks)
  {
    if chunks == [] then [] else Pack(|chunks[0]|) + chunks[0] + Frames(chunks[1..])
  }

  ghost function Flatten(chunks: seq<seq<byte>>): seq<byte> {
    if chunks == [] then [] else chunks[0] + Flatten(chunks[1..])
  }

  /** The file cut at every multiple of the chunk size. */
  ghost function Split(raw: seq<byte>): (chunks: seq<seq<byte>>)
    ensures DataChunks(chunks) && Flatten(chunks) == raw
    ensures forall k | 0 <= k < |chunks| - 1 :: |chunks[k]| == CHUNK
  {
    if raw == [] then []
    else if |raw| <= CHUNK then
      assert Flatten([raw]) == raw + Flatten([]);
      [raw]
    else [raw[..CHUNK]] + Split(raw[CHUNK..])
  }

  /** Framed chunks followed by the terminator read back as the concatenated chunks, and
      nothing beyond the terminator is consumed. */
  lemma DeframeFrames(chunks: seq<seq<byte>>, rest: seq<byte>)
    requires DataChunks(chunks)
    ensures Deframe(Frames(chunks) + Pack(0) + rest) == Deframed(Flatten(chunks), rest)
  {
    var end := Pack(0) + rest;
    assert end[..4] == Pack(0) && end[4..] == rest;
    DeframeBefore(chunks, end, rest);
    assert Frames(chunks) + Pack(0) + rest == Frames(chunks) + end;
  }

  lemma {:induction false} DeframeBefore(chunks: seq<seq<byte>>, end: seq<byte>, rest: seq<byte>)
    requires DataChunks(chunks)
    requires Deframe(end) == Deframed([], rest)
    ensures Deframe(Frames(chunks) + end) == Deframed(Flatten(chunks), rest)
  {
    if chunks == [] {
      assert Frames(chunks) + end == end;
    } else {
      var c, more := chunks[0], Frames(chunks[1..]);
      DeframeBefore(chunks[1..], end, rest);
      DeframeChunk(c, more + end);
      assert Pack(|c|) + c + more + end == Pack(|c|) + c + (more + end);
    }
  }

  lemma DeframeChunk(c: seq<byte>, tail: seq<byte>)
    requires 0 < |c| <= CHUNK
    ensures var d := Deframe(tail);
            Deframe(Pack(|c|) + c + tail) == if d.Malformed? then d else Deframed(c + d.body, d.rest)
  {
    var wire := Pack(|c|) + c + tail;
    assert wire[..4] == Pack(|c|);
    assert wire[4..4 + |c|] == c;
    assert wire[4 + |c|..] == tail;
  }

  /** The bytes sent after the command word, one chunk per iteration, then the
      terminator. Whatever follows on the connection, the receiver reads the file back
      and stops exactly at the end of what was sent. */
  method Send(raw: seq<byte>) returns (wire: seq<byte>)
    ensures forall rest :: Deframe(wire + rest) == Deframed(raw, rest)
    ensures wire == Frames(Split(raw)) + Pack(0)
  {
    wire := [];
    var i := 0;
    assert raw[0..] == raw;
    while i < |raw|
      invariant 0 <= i
      invariant Frames(Split(raw)) == wire + Remaining(raw, i)
    {
      var end := if i + CHUNK <= |raw| then i + CHUNK else |raw|;
      var chunk := raw[i..end];
      RemainingStep(raw, i);
      wire := wire + (Pack(|chunk|) + chunk);
      i := i + CHUNK;
    }
    assert wire == Frames(Split(raw));
    wire := wire + Pack(0);
    ReadsBack(raw, wire);
  }

  lemma ReadsBack(raw: seq<byte>, wire: seq<byte>)
    requires wire == Frames(Split(raw)) + Pack(0)
    ensures forall rest :: Deframe(wire + rest) == Deframed(raw, rest)
  {
    forall rest ensures Deframe(wire + rest) == Deframed(raw, rest) {
      DeframeFrames(Split(raw), rest);
    }
  }

  /** The frames still to send when the loop is at offset i. */
  ghost function Remaining(raw: seq<byte>, i: nat): seq<byte> {
    if i < |raw| then Frames(Split(raw[i..])) else []
  }

  lemma RemainingStep(raw: seq<byte>, i: nat)
    requires i < |raw|
    ensures var chunk := raw[i..if i + CHUNK <= |raw| then i + CHUNK else |raw|];
            Remaining(raw, i) == (Pack(|chunk|) + chunk) + Remaining(raw, i + CHUNK)
  {
    var r := raw[i..];
    if |r| <= CHUNK {
      assert Split(r) == [r];
      FramesOfOne(r);
    } else {
      assert r[CHUNK..] == raw[i + CHUNK..];
      assert Split(r)[1..] == Split(raw[i + CHUNK..]);
      assert r[..CHUNK] == raw[i..i + CHUNK];
    }
  }

  lemma FramesOfOne(r: seq<byte>)
    requires 0 < |r| <= CHUNK
    ensures Frames([r]) == Pack(|r|) + r
  {
  }

  lemma CutAfterChunk<T>(a: seq<T>, b: seq<T>, cut: nat)
    requires |a| <= cut <= |a| + |b|
    ensures (a + b)[..cut] == a + b[..cut - |a|]
  {
  }

  /** No proper prefix of a stream is itself complete: the receiver cannot answer before
      the terminator. */
  lemma {:induction false} PrefixIsIncomplete(chunks: seq<seq<byte>>, cut: nat)
    requires DataChunks(chunks) && cut < |Frames(chunks)| + 4
    ensures Deframe((Frames(chunks) + Pack(0))[..cut]) == Malformed
  {
    if cut >= 4 {
      assert chunks != [];
      var c := chunks[0];
      var tail := Frames(chunks[1..]) + Pack(0);
      assert Frames(chunks) + Pack(0) == Pack(|c|) + c + tail;
      if cut >= 4 + |c| {
        PrefixIsIncomplete(chunks[1..], cut - 4 - |c|);
        CutAfterChunk(Pack(|c|) + c, tail, cut);
        DeframeChunk(c, tail[..cut - 4 - |c|]);
      } else {
        assert (Pack(|c|) + c + tail)[..cut][..4] == Pack(|c|);
      }
    }
  }

  // ---- The bytes, one by one ----

  /** Where the length of the k-th piece stands on the wire, if that is the rest of it. */
  function Offset(k: nat): nat {
    if k == 0 then 0 else 65540 + Offset(k - 1)
  }

  /** From there on the wire has the length of c and then c. */
  predicate ChunkAt(wire: seq<byte>, at: nat, c: seq<byte>) {
    && |c| < LIMIT && at + 4 + |c| <= |wire|
    && wire[at..at + 4] == Pack(|c|) && wire[at + 4..at + 4 + |c|] == c
  }

  lemma ChunkBehind(front: seq<byte>, wire: seq<byte>, at: nat, c: seq<byte>)
    requires ChunkAt(wire, at, c)
    ensures ChunkAt(front + wire, |front| + at, c)
  {
    var all := front + wire;
    assert all[|front| + at..|front| + at + 4] == wire[at..at + 4];
    assert all[|front| + at + 4..|front| + at + 4 + |c|] == wire[at + 4..at + 4 + |c|];
  }

  function First(raw: seq<byte>): seq<byte> {
    if |raw| <= 65536 then raw else raw[..65536]
  }

  /** The k-th piece of the file. */
  function Piece(raw: seq<byte>, k: nat): seq<byte> {
    if k == 0 || |raw| <= 65536 then First(raw) else Piece(raw[65536..], k - 1)
  }

  lemma SliceOfTail(raw: seq<byte>, cut: nat, at: nat, n: nat)
    requires cut + at + n <= |raw|
    ensures raw[cut..][at..at + n] == raw[cut + at..cut + at + n]
  {
  }

  lemma {:induction false} PieceIs(raw: seq<byte>, k: nat)
    requires 65536 * k < |raw|
    ensures Piece(raw, k) == raw[65536 * k..if |raw| - 65536 * k < 65536 then |raw| else 65536 * k + 65536]
    decreases k
  {
    if k > 0 {
      var rest, at := raw[65536..], 65536 * (k - 1);
      PieceIs(rest, k - 1);
      var n := if |rest| - at < 65536 then |rest| - at else 65536;
      SliceOfTail(raw, 65536, at, n);
    }
  }

  lemma FirstChunk(c: seq<byte>, more: seq<byte>)
    requires |c| <= CHUNK
    ensures ChunkAt(Pack(|c|) + c + more, 0, c)
  {
    var wire := Pack(|c|) + c + more;
    assert wire[0..4] == Pack(|c|) && wire[4..4 + |c|] == c;
  }

  /** The wire is the first piece behind its length, and then the wire of the rest. */
  lemma WireOf(raw: seq<byte>)
    requires raw != []
    ensures var c := First(raw);
            Frames(Split(raw)) + Pack(0) == Pack(|c|) + c + (Frames(Split(raw[|c|..])) + Pack(0))
  {
    if |raw| <= 65536 {
      assert Split(raw) == [raw] && raw[|raw|..] == [];
      FramesOfOne(raw);
    } else {
      assert Split(raw)[0] == First(raw) && Split(raw)[1..] == Split(raw[65536..]);
    }
  }

  lemma {:induction false} PieceOnTheWire(raw: seq<byte>, k: nat)
    requires 65536 * k < |raw|
    ensures ChunkAt(Frames(Split(raw)) + Pack(0), Offset(k), Piece(raw, k))
    decreases k
  {
    var c := First(raw);
    var more := Frames(Split(raw[|c|..])) + Pack(0);
    WireOf(raw);
    if k == 0 {
      FirstChunk(c, more);
    } else {
      PieceOnTheWire(raw[65536..], k - 1);
      ChunkBehind(Pack(|c|) + c, more, Offset(k - 1), Piece(raw, k));
    }
  }

  lemma PackedBytes(n: nat)
    requires n < LIMIT
    ensures var b := Pack(n);
            b[0] as int * 16777216 + b[1] as int * 65536 + b[2] as int * 256 + b[3] as int == n
  {
  }

  lemma OffsetIs(k: nat)
    ensures Offset(k) == 65540 * k
  {
  }

  /** The bytes of the file from 65536 * k on, 65536 of them or all that are left, go out behind
      their number in four bytes, most significant first. */
  lemma ChunkOnTheWire(raw: seq<byte>, k: nat)
    requires 65536 * k < |raw|
    ensures var wire, at := Frames(Split(raw)) + Pack(0), 65540 * k;
            var c := raw[65536 * k..if |raw| - 65536 * k < 65536 then |raw| else 65536 * k + 65536];
            && at + 4 + |c| <= |wire| && wire[at + 4..at + 4 + |c|] == c
            && wire[at] as int * 16777216 + wire[at + 1] as int * 65536 + wire[at + 2] as int * 256
               + wire[at + 3] as int == |c|
  {
    PieceOnTheWire(raw, k);
    PieceIs(raw, k);
    OffsetIs(k);
    LengthOnTheWire(Frames(Split(raw)) + Pack(0), 65540 * k, Piece(raw, k));
  }

  lemma LengthOnTheWire(wire: seq<byte>, at: nat, c: seq<byte>)
    requires ChunkAt(wire, at, c)
    ensures wire[at] as int * 16777216 + wire[at + 1] as int * 65536 + wire[at + 2] as int * 256
            + wire[at + 3] as int == |c|
  {
    PackedBytes(|c|);
    var b := wire[at..at + 4];
    assert wire[at] == b[0] && wire[at + 1] == b[1] && wire[at + 2] == b[2] && wire[at + 3] == b[3];
  }

  lemma OnePieceMore(n: nat)
    ensures n > 65536 ==> (n + 65535) / 65536 == 1 + (n - 65536 + 65535) / 65536
    ensures 0 < n <= 65536 ==> (n + 65535) / 65536 == 1
  {
  }

  lemma {:induction false} WireLength(raw: seq<byte>)
    ensures |Frames(Split(raw)) + Pack(0)| == |raw| + 4 * ((|raw| + 65535) / 65536) + 4
    decreases |raw|
  {
    if raw != [] {
      WireOf(raw);
      OnePieceMore(|raw|);
      WireLength(raw[|First(raw)|..]);
    }
  }

  /** Behind the last chunk there are four zero bytes and nothing more. */
  lemma WireEndsInZeros(raw: seq<byte>)
    ensures var wire := Frames(Split(raw)) + Pack(0);
            && |wire| == |raw| + 4 * ((|raw| + 65535) / 65536) + 4
            && wire[|wire| - 4..] == [0, 0, 0, 0]
  {
    WireLength(raw);
    assert Pack(0) == [0, 0, 0, 0];
  }
}
