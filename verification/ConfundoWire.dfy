/**
  What travels between the Confundo client and server, and the sequence-number arithmetic.
  Sequence numbers are file offsets counted from 12346, modulo 102401.
*/
module ConfundoWire {
  import opened Bytes

  const MODULUS := 102401
  const CHUNK := 512
  const FIRST_SEQ := 12346
  const MAX_FILE_SIZE := 100 * 1024 * 1024

  const FIN := 1
  const SYN := 2
  const ACK := 4
  const ACK_FIN := 5
  const SYN_ACK := 6

  /** A packet header as read after conversion to host byte order. */
  datatype Header = Header(seqNo: nat, ackNo: nat, id: nat, flags: nat)

  datatype Packet = Packet(hdr: Header, data: seq<Byte>)

  /** The sequence number of file offset `off`. */
  function SeqOf(off: nat): nat { (FIRST_SEQ + off) % MODULUS }

  /** Where a read of one chunk that begins at `start` ends. */
  function ChunkEnd(len: nat, start: nat): nat
    requires start <= len
  {
    Min(start + CHUNK, len)
  }

  function Chunk(file: seq<Byte>, start: nat): seq<Byte>
    requires start <= |file|
  {
    file[start..ChunkEnd(|file|, start)]
  }

  /** Offsets at which a chunk can begin. */
  predicate IsStart(len: nat, off: nat) { off <= len && off % CHUNK == 0 }

  /** Offsets at which a chunk can begin or end. */
  predicate Boundary(len: nat, off: nat) { off <= len && (off % CHUNK == 0 || off == len) }

  /** Size of the last chunk, a full one counting as 512. */
  function LastChunk(len: nat): nat { if len % CHUNK == 0 then CHUNK else len % CHUNK }

  /** File lengths for which no two chunk boundaries share a sequence number (see SeqOfInjective). */
  predicate SeqSpaceOk(len: nat) { len < MODULUS * LastChunk(len) }

  /** The first whole-chunk boundary whose sequence number is 0. */
  const ZERO_SEQ_BOUNDARY := 512 * 11576

  /** File lengths for which no chunk boundary has sequence number 0 (see ZeroFreeExact). */
  predicate ZeroFree(len: nat) { len < ZERO_SEQ_BOUNDARY && len % MODULUS != MODULUS - FIRST_SEQ }

  /** A chunk ends at a boundary, at the end of the file exactly when it is short. */
  lemma ChunkEndBoundary(len: nat, start: nat)
    requires IsStart(len, start)
    ensures var end := ChunkEnd(len, start);
            && Boundary(len, start) && Boundary(len, end)
            && (if end < start + CHUNK then end == len else end % CHUNK == 0)
  {
  }

  lemma SeqOfAdds(a: nat, n: nat)
    ensures (SeqOf(a) + n) % MODULUS == SeqOf(a + n)
  {
  }

  /** The server's 32-bit addition never wraps on numbers already reduced. */
  lemma SeqOfAdds32(a: nat, n: nat)
    requires n <= CHUNK
    ensures U32(SeqOf(a) + n) % MODULUS == SeqOf(a + n)
  {
    SeqOfAdds(a, n);
  }

  lemma CongruentDistance(a: nat, b: nat) returns (q: nat)
    requires a < b && SeqOf(a) == SeqOf(b)
    ensures b - a == MODULUS * q && q >= 1
  {
    q := (FIRST_SEQ + b) / MODULUS - (FIRST_SEQ + a) / MODULUS;
  }

  /** MODULUS is 1 modulo 512, so a multiple of it leaves its own multiplier modulo 512. */
  lemma MultipleModChunk(q: nat)
    ensures (MODULUS * q) % CHUNK == q % CHUNK
  {
    assert MODULUS * q == CHUNK * (200 * q) + q;
  }

  lemma BoundaryGap(len: nat, a: nat, b: nat)
    requires Boundary(len, a) && Boundary(len, b) && a < b && SeqOf(a) == SeqOf(b)
    ensures len >= MODULUS * LastChunk(len)
  {
    var q := CongruentDistance(a, b);
    MultipleModChunk(q);
    assert a % CHUNK == 0;
    assert b % CHUNK == q % CHUNK;
    if b % CHUNK == 0 {
      assert q >= CHUNK;
      assert q >= LastChunk(len);
    } else {
      assert q >= LastChunk(len);
    }
    assert MODULUS * q >= MODULUS * LastChunk(len);
  }

  lemma SameBoundary(len: nat, a: nat, b: nat)
    requires SeqSpaceOk(len) && Boundary(len, a) && Boundary(len, b) && SeqOf(a) == SeqOf(b)
    ensures a == b
  {
    if a < b { BoundaryGap(len, a, b); }
    if b < a { BoundaryGap(len, b, a); }
  }

  /**
    The length condition is exactly what makes boundaries recognisable by their sequence numbers:
    when it fails, the end of the file collides with an earlier whole-chunk boundary.
  */
  lemma SeqOfInjective(len: nat)
    ensures SeqSpaceOk(len) <==>
            forall a: nat, b: nat :: Boundary(len, a) && Boundary(len, b) && SeqOf(a) == SeqOf(b) ==> a == b
  {
    if SeqSpaceOk(len) {
      forall a: nat, b: nat | Boundary(len, a) && Boundary(len, b) && SeqOf(a) == SeqOf(b)
        ensures a == b
      {
        SameBoundary(len, a, b);
      }
    } else {
      var twin := EndTwin(len);
      assert Boundary(len, twin) && Boundary(len, len);
    }
  }

  /** When the condition fails, the boundary that collides with the end of the file. */
  lemma EndTwin(len: nat) returns (twin: nat)
    requires !SeqSpaceOk(len)
    ensures twin % CHUNK == 0 && twin + CHUNK <= len && SeqOf(twin) == SeqOf(len)
  {
    var t := LastChunk(len);
    twin := len - MODULUS * t;
    var whole := (len - t) / CHUNK;
    assert len == CHUNK * whole + t;
    assert twin == CHUNK * (whole - 200 * t);
    SeqOfPeriodic(twin, t);
  }

  lemma SeqOfPeriodic(a: nat, t: nat)
    ensures SeqOf(a + MODULUS * t) == SeqOf(a)
  {
  }

  lemma ZeroBoundary(len: nat, o: nat)
    requires Boundary(len, o) && SeqOf(o) == 0
    ensures !ZeroFree(len)
  {
    var q := (FIRST_SEQ + o) / MODULUS;
    assert FIRST_SEQ + o == MODULUS * q;
    if o % CHUNK == 0 {
      MultipleModChunk(q);
      assert q >= 58;
    } else {
      assert len == MODULUS * (q - 1) + (MODULUS - FIRST_SEQ);
    }
  }

  /** A boundary with sequence number 0 exists exactly when ZeroFree fails. */
  lemma ZeroFreeExact(len: nat)
    ensures ZeroFree(len) <==> forall o: nat :: Boundary(len, o) ==> SeqOf(o) != 0
  {
    forall o: nat | Boundary(len, o) && SeqOf(o) == 0
      ensures !ZeroFree(len)
    {
      ZeroBoundary(len, o);
    }
    if len >= ZERO_SEQ_BOUNDARY {
      assert Boundary(len, ZERO_SEQ_BOUNDARY) && SeqOf(ZERO_SEQ_BOUNDARY) == 0;
    } else if !ZeroFree(len) {
      assert Boundary(len, len) && SeqOf(len) == 0;
    }
  }
}
