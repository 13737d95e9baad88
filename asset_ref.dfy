/**
 * `AssetRef` and `AssetHandle` (asset_common/src/asset.rs): an asset is
 * named by a list of path segments. It is shown as the segments joined with
 * `'/'`, and it crosses the asset server's socket as bytes.
 *
 * Rust strings are UTF-8 byte strings, so a segment is a sequence of bytes;
 * `'/'` is the byte 47, which UTF-8 never uses inside a multi-byte character.
 */
module AssetRefs {
  import opened Wrappers
  import opened Ipc

  /** A `String`, as its UTF-8 bytes. */
  type Str = seq<byte>

  /** `'/'`. */
  const SLASH: byte := 47

  datatype AssetRef = AssetRef(name: seq<Str>)

  /** `[String]::join("/")`: nothing for no segments, else the segments with a `'/'` between neighbours. */
  function Join(segs: seq<Str>): (r: Str)
    ensures |segs| == 0 ==> r == []
    ensures |segs| > 0 ==> |segs[0]| <= |r| && r[..|segs[0]|] == segs[0]
    ensures |segs| > 1 ==> |segs[0]| < |r| && r[|segs[0]|] == SLASH
  {
    if |segs| == 0 then []
    else if |segs| == 1 then segs[0]
    else segs[0] + [SLASH] + Join(segs[1..])
  }

  /** `<AssetRef as Display>::fmt`. */
  function Display(r: AssetRef): (s: Str)
    ensures |r.name| == 0 ==> s == []
    ensures |r.name| == 1 ==> s == r.name[0]
  {
    Join(r.name)
  }

  /** Joining one more segment in front puts it and a `'/'` before the rest. */
  lemma JoinCons(seg: Str, segs: seq<Str>)
    requires |segs| > 0
    ensures Join([seg] + segs) == seg + [SLASH] + Join(segs)
  {
    assert ([seg] + segs)[1..] == segs;
  }

  // ---------------------------------------------------------------------
  // `as_bytes` / `from_bytes`. The archive is written as the number of
  // segments (eight little-endian bytes), then every segment as a
  // length-prefixed frame.
  // ---------------------------------------------------------------------

  /** Every length fits in the `u64` that stores it. */
  predicate Representable(r: AssetRef)
  {
    |r.name| < U64_MODULUS && forall i | 0 <= i < |r.name| :: |r.name[i]| < U64_MODULUS
  }

  function EncodeSegments(segs: seq<Str>): (r: seq<byte>)
    requires forall i | 0 <= i < |segs| :: |segs[i]| < U64_MODULUS
  {
    if |segs| == 0 then [] else Frame(segs[0]) + EncodeSegments(segs[1..])
  }

  /** `AssetRef::as_bytes`. */
  function AsBytes(r: AssetRef): (b: seq<byte>)
    requires Representable(r)
    ensures |b| >= 8 && U64FromLe(b[..8]) == |r.name|
  {
    U64LeRoundTrip(|r.name|, U64ToLe(|r.name|));
    assert (U64ToLe(|r.name|) + EncodeSegments(r.name))[..8] == U64ToLe(|r.name|);
    U64ToLe(|r.name|) + EncodeSegments(r.name)
  }

  /**
   * Reads `count` frames off the front of `input`: the segments and what
   * follows them, or `None` when the input runs out first. What it accepts
   * is exactly the encoding of the segments it returns.
   */
  function DecodeSegments(input: seq<byte>, count: nat): (r: Option<(seq<Str>, seq<byte>)>)
    ensures r.Some? ==>
      && |r.value.0| == count
      && (forall i | 0 <= i < count :: |r.value.0[i]| < U64_MODULUS)
      && input == EncodeSegments(r.value.0) + r.value.1
  {
    if count == 0 then Some(([], input))
    else match ParseFrame(input)
      case None => None
      case Some(p) =>
        match DecodeSegments(p.rest, count - 1)
        case None => None
        case Some(tail) =>
          var segs := [p.data] + tail.0;
          assert segs[1..] == tail.0;
          Some((segs, tail.1))
  }

  /** `AssetRef::from_bytes`; `None` where the source's `unwrap` panics on a malformed archive. */
  function FromBytes(bytes: seq<byte>): (r: Option<AssetRef>)
    ensures r.Some? ==> Representable(r.value) && AsBytes(r.value) == bytes
  {
    if |bytes| < 8 then None
    else
      var count := U64FromLe(bytes[..8]);
      match DecodeSegments(bytes[8..], count)
      case None => None
      case Some(d) =>
        if d.1 != [] then None
        else
          U64LeRoundTrip(count, bytes[..8]);
          assert bytes == bytes[..8] + bytes[8..];
          Some(AssetRef(d.0))
  }

  lemma {:induction false} DecodeEncodeSegments(segs: seq<Str>, rest: seq<byte>)
    requires forall i | 0 <= i < |segs| :: |segs[i]| < U64_MODULUS
    ensures DecodeSegments(EncodeSegments(segs) + rest, |segs|) == Some((segs, rest))
  {
    if |segs| > 0 {
      var input := EncodeSegments(segs) + rest;
      var tail := EncodeSegments(segs[1..]) + rest;
      assert input == Frame(segs[0]) + tail;
      FrameRoundTrip(segs[0], tail);
      assert ParseFrame(input) == Some(Parsed(segs[0], tail));
      DecodeEncodeSegments(segs[1..], rest);
      assert DecodeSegments(tail, |segs| - 1) == Some((segs[1..], rest));
      assert [segs[0]] + segs[1..] == segs;
      assert DecodeSegments(input, |segs|) == Some(([segs[0]] + segs[1..], rest));
    } else {
      assert EncodeSegments(segs) + rest == rest;
    }
  }

  /** `from_bytes(as_bytes(r)) == r`. */
  lemma AsBytesRoundTrip(r: AssetRef)
    requires Representable(r)
    ensures FromBytes(AsBytes(r)) == Some(r)
  {
    var b := AsBytes(r);
    assert b[8..] == EncodeSegments(r.name) + [];
    DecodeEncodeSegments(r.name, []);
  }

  /** `AssetHandle<T>`: a typed handle on an asset; the type is not modelled. */
  datatype AssetHandle = AssetHandle(key: AssetRef)
  {
    /** `AssetHandle::get_ref`. */
    function GetRef(): AssetRef
    {
      key
    }
  }

  /** `AssetHandle::new_unchecked`: a handle whose reference is the key given. */
  function NewUnchecked(key: AssetRef): (h: AssetHandle)
    ensures h.GetRef() == key
  {
    AssetHandle(key)
  }
}
