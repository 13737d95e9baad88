/**
 * Length-prefixed framing over the asset server's local socket
 * (asset_common/src/ipc.rs): a message is its length as eight little-endian
 * bytes followed by the bytes themselves. The socket is a byte stream; what
 * has not been read yet and what has been written so far are its state.
 */
module Ipc {
  import opened Wrappers
  import Utility

  type byte = x: int | 0 <= x < 256

  /** `u64::MAX + 1`. */
  const U64_MODULUS: nat := 0x1_0000_0000_0000_0000

  /** The `k` low bytes of `n`, least significant first. */
  function LeBytes(n: nat, k: nat): (r: seq<byte>)
    ensures |r| == k
  {
    if k == 0 then [] else [n % 256] + LeBytes(n / 256, k - 1)
  }

  /** The number whose little-endian bytes are `b`. */
  function FromLe(b: seq<byte>): nat
  {
    if |b| == 0 then 0 else b[0] + 256 * FromLe(b[1..])
  }

  function Pow256(k: nat): (r: nat)
    ensures r >= 1
  {
    if k == 0 then 1 else 256 * Pow256(k - 1)
  }

  lemma {:induction false} FromLeBound(b: seq<byte>)
    ensures FromLe(b) < Pow256(|b|)
  {
    if |b| > 0 {
      FromLeBound(b[1..]);
      Utility.MulMono(256, FromLe(b[1..]), Pow256(|b| - 1) - 1);
    }
  }

  /** Reading back `k` bytes gives the number, whenever it fits in them. */
  lemma {:induction false} FromLeOfLeBytes(n: nat, k: nat)
    requires n < Pow256(k)
    ensures FromLe(LeBytes(n, k)) == n
  {
    if k > 0 {
      Utility.DivMod(n, 256);
      assert n / 256 < Pow256(k - 1);
      FromLeOfLeBytes(n / 256, k - 1);
    }
  }

  /** Writing a read-back number gives the same bytes. */
  lemma {:induction false} LeBytesOfFromLe(b: seq<byte>)
    ensures LeBytes(FromLe(b), |b|) == b
  {
    if |b| > 0 {
      var n := FromLe(b);
      LeBytesOfFromLe(b[1..]);
      Utility.DivModUnique(n, 256, FromLe(b[1..]), b[0]);
      assert n % 256 == b[0] && n / 256 == FromLe(b[1..]);
    }
  }

  lemma Pow256Of8()
    ensures Pow256(8) == U64_MODULUS
  {
  }

  /** `u64::to_le_bytes`. */
  function U64ToLe(n: nat): (r: seq<byte>)
    requires n < U64_MODULUS
    ensures |r| == 8
  {
    LeBytes(n, 8)
  }

  /** `u64::from_le_bytes`. */
  function U64FromLe(b: seq<byte>): (r: nat)
    requires |b| == 8
    ensures r < U64_MODULUS
  {
    FromLeBound(b);
    Pow256Of8();
    FromLe(b)
  }

  /** `to_le_bytes` and `from_le_bytes` are inverse to each other. */
  lemma U64LeRoundTrip(n: nat, b: seq<byte>)
    requires n < U64_MODULUS && |b| == 8
    ensures U64FromLe(U64ToLe(n)) == n
    ensures U64ToLe(U64FromLe(b)) == b
  {
    Pow256Of8();
    FromLeOfLeBytes(n, 8);
    LeBytesOfFromLe(b);
  }

  /** A message on the wire: its length, then its bytes. */
  function Frame(data: seq<byte>): (r: seq<byte>)
    requires |data| < U64_MODULUS
    ensures |r| == 8 + |data| && r[8..] == data
  {
    U64ToLe(|data|) + data
  }

  datatype Parsed = Parsed(data: seq<byte>, rest: seq<byte>)

  /** What a read of one frame takes from `input`: `None` when the header or the body is cut short. */
  function ParseFrame(input: seq<byte>): (r: Option<Parsed>)
    ensures r.Some? ==> |r.value.data| < U64_MODULUS && input == Frame(r.value.data) + r.value.rest
  {
    if |input| < 8 then None
    else
      var len := U64FromLe(input[..8]);
      if |input| - 8 < len then None
      else
        U64LeRoundTrip(len, input[..8]);
        assert input == input[..8] + input[8..8 + len] + input[8 + len..];
        Some(Parsed(input[8..8 + len], input[8 + len..]))
  }

  /** Reading a frame back gives the message written, and leaves what followed it. */
  lemma FrameRoundTrip(data: seq<byte>, rest: seq<byte>)
    requires |data| < U64_MODULUS
    ensures ParseFrame(Frame(data) + rest) == Some(Parsed(data, rest))
  {
    var input := Frame(data) + rest;
    U64LeRoundTrip(|data|, input[..8]);
    assert input[..8] == U64ToLe(|data|);
    assert input[8..8 + |data|] == data;
    assert input[8 + |data|..] == rest;
  }

  /** A stream cut inside a header or a body cannot be read as a frame. */
  lemma ShortInputFails(input: seq<byte>)
    ensures |input| < 8 ==> ParseFrame(input).None?
    ensures |input| >= 8 && |input| - 8 < U64FromLe(input[..8]) ==> ParseFrame(input).None?
  {
  }

  datatype IoError = UnexpectedEof

  /** `LocalSocketStream`: bytes still to be read, and bytes written so far. */
  class LocalSocketStream {
    var incoming: seq<byte>
    var outgoing: seq<byte>

    constructor (incoming: seq<byte>)
      ensures this.incoming == incoming && outgoing == []
    {
      this.incoming := incoming;
      outgoing := [];
    }

    /**
     * `read_exact`: fills `buf` from the stream, or fails with
     * `UnexpectedEof` when the stream ends first (the stream is then used up).
     */
    method ReadExact(buf: array<byte>) returns (r: Result<(), IoError>)
      modifies this, buf
      ensures r.Ok? <==> buf.Length <= |old(incoming)|
      ensures r.Ok? ==> buf[..] == old(incoming)[..buf.Length] && incoming == old(incoming)[buf.Length..]
      ensures r.Err? ==> incoming == []
      ensures outgoing == old(outgoing)
    {
      if |incoming| < buf.Length {
        incoming := [];
        return Err(UnexpectedEof);
      }
      var i := 0;
      while i < buf.Length
        invariant 0 <= i <= buf.Length
        invariant incoming == old(incoming) && outgoing == old(outgoing)
        invariant buf[..i] == incoming[..i]
      {
        buf[i] := incoming[i];
        i := i + 1;
      }
      incoming := incoming[buf.Length..];
      return Ok(());
    }

    /** `write_all`: the bytes go out after what was written before. */
    method WriteAll(data: seq<byte>)
      modifies this
      ensures outgoing == old(outgoing) + data && incoming == old(incoming)
    {
      outgoing := outgoing + data;
    }

    /** `read_len_prefixed`: reads the length header, then exactly that many bytes. */
    method ReadLenPrefixed() returns (r: Result<seq<byte>, IoError>)
      modifies this
      ensures var p := ParseFrame(old(incoming));
        && (r.Ok? <==> p.Some?)
        && (r.Ok? ==> r.value == p.value.data && incoming == p.value.rest)
      ensures outgoing == old(outgoing)
    {
      var lenBuf := new byte[8];
      var header := ReadExact(lenBuf);
      if header.Err? {
        return Err(header.error);
      }
      var len := U64FromLe(lenBuf[..]);
      var data := new byte[len];
      var body := ReadExact(data);
      if body.Err? {
        return Err(body.error);
      }
      assert old(incoming)[8..][..len] == old(incoming)[8..8 + len];
      assert old(incoming)[8..][len..] == old(incoming)[8 + len..];
      return Ok(data[..]);
    }

    /** `write_len_prefixed`: the frame of `data`. */
    method WriteLenPrefixed(data: seq<byte>)
      requires |data| < U64_MODULUS
      modifies this
      ensures outgoing == old(outgoing) + Frame(data) && incoming == old(incoming)
    {
      var lenBuf := U64ToLe(|data|);
      WriteAll(lenBuf);
      WriteAll(data);
    }
  }

  /** What one end writes, the other end reads back unchanged, whatever follows it on the stream. */
  method WriteThenRead(data: seq<byte>, rest: seq<byte>) returns (got: Result<seq<byte>, IoError>)
    requires |data| < U64_MODULUS
    ensures got == Ok(data)
  {
    var writer := new LocalSocketStream([]);
    writer.WriteLenPrefixed(data);
    assert writer.outgoing == Frame(data);
    var reader := new LocalSocketStream(writer.outgoing + rest);
    FrameRoundTrip(data, rest);
    got := reader.ReadLenPrefixed();
  }
}
