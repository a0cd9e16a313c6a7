/** The bytes `input_hash` feeds to its hash: every part behind its length, in 8 bytes. */
module InputFraming {
  import opened Wrappers
  import opened Utf8

  const LENGTH_BYTES := 8

  function Pow256(n: nat): nat {
    if n == 0 then 1 else 256 * Pow256(n - 1)
  }

  /** `to_le_bytes`: the low `width` bytes of `n`, least significant first. */
  function LittleEndian(n: nat, width: nat): (b: bytes)
    ensures |b| == width
  {
    if width == 0 then [] else [n % 256] + LittleEndian(n / 256, width - 1)
  }

  function FromLittleEndian(b: bytes): nat {
    if b == [] then 0 else b[0] + 256 * FromLittleEndian(b[1..])
  }

  lemma {:induction false} LittleEndianRoundTrip(n: nat, width: nat)
    requires n < Pow256(width)
    ensures FromLittleEndian(LittleEndian(n, width)) == n
  {
    if width > 0 {
      LittleEndianRoundTrip(n / 256, width - 1);
      assert LittleEndian(n, width)[1..] == LittleEndian(n / 256, width - 1);
    }
  }

  function Frame(parts: seq<bytes>): bytes {
    if parts == [] then []
    else LittleEndian(|parts[0]|, LENGTH_BYTES) + (parts[0] + Frame(parts[1..]))
  }

  lemma {:induction false} FrameSnoc(parts: seq<bytes>, last: bytes)
    ensures Frame(parts + [last]) == Frame(parts) + LittleEndian(|last|, LENGTH_BYTES) + last
  {
    if parts == [] {
      assert parts + [last] == [last];
      assert Frame([]) == [] && [last][1..] == [];
    } else {
      assert (parts + [last])[1..] == parts[1..] + [last];
      FrameSnoc(parts[1..], last);
    }
  }

  /** The updates of the hasher, one after the other. */
  method FeedParts(parts: seq<bytes>) returns (fed: bytes)
    ensures fed == Frame(parts)
  {
    fed := [];
    for i := 0 to |parts|
      invariant fed == Frame(parts[..i])
    {
      fed := fed + LittleEndian(|parts[i]|, LENGTH_BYTES);
      fed := fed + parts[i];
      assert parts[..i + 1] == parts[..i] + [parts[i]];
      FrameSnoc(parts[..i], parts[i]);
    }
    assert parts[..|parts|] == parts;
  }

  /** Reads the parts back, if the bytes are a frame. */
  function Deframe(b: bytes): Option<seq<bytes>>
    decreases |b|
  {
    if b == [] then Some([])
    else if |b| < LENGTH_BYTES then None
    else
      var size := FromLittleEndian(b[..LENGTH_BYTES]);
      var body := b[LENGTH_BYTES..];
      if size > |body| then None
      else
        var rest := Deframe(body[size..]);
        if rest.None? then None else Some([body[..size]] + rest.value)
  }

  lemma {:induction false} DeframeRecoversParts(parts: seq<bytes>)
    requires forall k :: 0 <= k < |parts| ==> |parts[k]| < Pow256(LENGTH_BYTES)
    ensures Deframe(Frame(parts)) == Some(parts)
  {
    if parts != [] {
      var b := Frame(parts);
      var part, rest := parts[0], Frame(parts[1..]);
      LittleEndianRoundTrip(|part|, LENGTH_BYTES);
      assert b[..LENGTH_BYTES] == LittleEndian(|part|, LENGTH_BYTES);
      assert b[LENGTH_BYTES..] == part + rest;
      assert (part + rest)[..|part|] == part && (part + rest)[|part|..] == rest;
      DeframeRecoversParts(parts[1..]);
      assert parts == [part] + parts[1..];
    }
  }

  /** Different lists of parts feed different bytes: changing, moving or re-splitting a part shows. */
  lemma FramingIsInjective(a: seq<bytes>, b: seq<bytes>)
    requires forall k :: 0 <= k < |a| ==> |a[k]| < Pow256(LENGTH_BYTES)
    requires forall k :: 0 <= k < |b| ==> |b[k]| < Pow256(LENGTH_BYTES)
    ensures Frame(a) == Frame(b) <==> a == b
  {
    DeframeRecoversParts(a);
    DeframeRecoversParts(b);
  }

  /** The length field holds 64 bits. */
  lemma LengthBoundIsTwoToThe64()
    ensures Pow256(LENGTH_BYTES) == 0x1_0000_0000_0000_0000
  {
    assert Pow256(4) == 0x1_0000_0000;
  }
}
