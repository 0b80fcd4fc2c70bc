/**
 * The chunk sink `jpg_encode_stream` that the JPEG encoder calls with
 * successive pieces of its output: each piece is sent as one chunk of the
 * HTTP response, and the sink counts the bytes that went out.
 */
module JpgChunking {
  import opened RunningAverage
  import opened Esp

  /** `jpg_chunking_t`: the request is implicit, `len` is its `size_t` byte counter. */
  class ChunkSink {
    var len: nat
    /** The bytes delivered since the encoder last started over (index 0). */
    ghost var delivered: seq<Byte>

    /** `len` counts the delivered bytes, wrapping as a 32-bit `size_t` does. */
    ghost predicate Valid()
      reads this
    {
      len == |delivered| % SizeTModulus
    }

    /** `jpg_chunking_t jchunk = {req, 0};` */
    constructor ()
      ensures Valid() && len == 0 && delivered == []
    {
      len := 0;
      delivered := [];
    }

    /**
     * `jpg_encode_stream(&jchunk, index, data, len)`, where `sendRes` is
     * what `httpd_resp_send_chunk` returns for `data`. Index 0 starts the
     * count over; a failed send returns 0 and counts nothing; a successful
     * one counts and returns the chunk length.
     */
    method Encode(index: nat, data: seq<Byte>, sendRes: int) returns (r: nat)
      requires Valid() && |data| < SizeTModulus
      modifies this
      ensures Valid()
      ensures sendRes != EspOk ==>
        r == 0 && delivered == (if index == 0 then [] else old(delivered))
      ensures sendRes == EspOk ==>
        r == |data| && delivered == (if index == 0 then [] else old(delivered)) + data
      ensures len == ((if index == 0 then 0 else old(len)) + (if sendRes == EspOk then |data| else 0)) % SizeTModulus
    {
      if index == 0 {
        len := 0;
        delivered := [];
      }
      if sendRes != EspOk {
        assert len < SizeTModulus;
        return 0;
      }
      ghost var before := len;
      len := (len + |data|) % SizeTModulus;
      delivered := delivered + data;
      WrapAdd(|delivered| - |data|, |data|, before);
      r := |data|;
    }
  }

  /** Adding to a count kept modulo 2^32 agrees with adding first and reducing after. */
  lemma WrapAdd(a: nat, b: nat, am: nat)
    requires am == a % SizeTModulus
    ensures (am + b) % SizeTModulus == (a + b) % SizeTModulus
  {
    var m := SizeTModulus;
    var q, q2, r2 := a / m, (am + b) / m, (am + b) % m;
    DivMod(a, m);
    DivMod(am + b, m);
    assert q * m + q2 * m == (q + q2) * m;
    ModUnique(a + b, m, q + q2, r2);
  }

  /** The bytes of `chunks`, one after another. */
  function Concat(chunks: seq<seq<Byte>>): seq<Byte> {
    if chunks == [] then [] else Concat(chunks[..|chunks| - 1]) + chunks[|chunks| - 1]
  }

  /** The sum of the chunk lengths. */
  function TotalLength(chunks: seq<seq<Byte>>): nat {
    if chunks == [] then 0 else TotalLength(chunks[..|chunks| - 1]) + |chunks[|chunks| - 1]|
  }

  lemma {:induction false} ConcatLength(chunks: seq<seq<Byte>>)
    ensures |Concat(chunks)| == TotalLength(chunks)
    decreases |chunks|
  {
    if chunks != [] {
      ConcatLength(chunks[..|chunks| - 1]);
    }
  }

  /** The chunks before position i weigh no more than all of them, and chunk i adds its length. */
  lemma {:induction false} TotalLengthPrefix(chunks: seq<seq<Byte>>, i: nat)
    requires i < |chunks|
    ensures TotalLength(chunks[..i + 1]) == TotalLength(chunks[..i]) + |chunks[i]|
    ensures TotalLength(chunks[..i + 1]) <= TotalLength(chunks)
    decreases |chunks|
  {
    assert chunks[..i + 1][..i] == chunks[..i];
    if i + 1 < |chunks| {
      var front := chunks[..|chunks| - 1];
      assert front[..i + 1] == chunks[..i + 1];
      TotalLengthPrefix(front, i);
    } else {
      assert chunks[..i + 1] == chunks;
    }
  }

  /**
   * An encoder run that hands over `chunks` in order, each at the offset of
   * the bytes before it, with every send succeeding: the sink delivers the
   * chunks' bytes in order and leaves `len` at the JPEG size, as
   * capture_handler reports it, when the image is shorter than 4 GiB.
   */
  method EncodeAll(chunks: seq<seq<Byte>>) returns (total: nat, ghost delivered: seq<Byte>)
    requires TotalLength(chunks) < SizeTModulus
    ensures total == TotalLength(chunks)
    ensures delivered == Concat(chunks)
  {
    var sink := new ChunkSink();
    var i, offset := 0, 0;
    while i < |chunks|
      invariant i <= |chunks| && sink.Valid()
      invariant sink.delivered == Concat(chunks[..i])
      invariant offset == TotalLength(chunks[..i]) <= TotalLength(chunks)
      invariant sink.len == offset
    {
      TotalLengthPrefix(chunks, i);
      ConcatLength(chunks[..i]);
      assert chunks[..i + 1][..i] == chunks[..i];
      var sent := sink.Encode(offset, chunks[i], EspOk);
      offset := offset + sent;
      i := i + 1;
    }
    assert chunks[..i] == chunks;
    total := sink.len;
    delivered := sink.delivered;
  }
}
