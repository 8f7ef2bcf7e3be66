/** The payload copy loops: four bytes to a lane with a zero-padded last lane, and word by word with a
    bytewise tail. */
module LaneCopy {
  import opened Framing

  /** The bytes a copy-out of `len` bytes takes from the lanes at `base`. */
  function Unpack(buf: seq<Lane>, base: nat, len: nat): (out: seq<Byte>)
    requires base + LaneCount(len) <= |buf|
    ensures |out| == len
  {
    seq(len, i requires 0 <= i < len => LaneByte(buf, base, i))
  }

  function LaneByte(buf: seq<Lane>, base: nat, i: nat): Byte
    requires base + i / 4 < |buf|
  {
    LaneBytes(buf[base + i / 4])[i % 4]
  }

  predicate Packed(buf: seq<Lane>, base: nat, msg: seq<Byte>) {
    base + LaneCount(|msg|) <= |buf| && forall k: nat | k < LaneCount(|msg|) :: buf[base + k] == PackLane(msg, k)
  }

  /** Copying out what was copied in gives the payload back; the rest of its last lane is zero. */
  lemma UnpackPacked(buf: seq<Lane>, base: nat, msg: seq<Byte>)
    requires Packed(buf, base, msg)
    ensures Unpack(buf, base, |msg|) == msg
    ensures forall i: nat | |msg| <= i < 4 * LaneCount(|msg|) :: LaneByte(buf, base, i) == 0
  {
    forall i: nat | |msg| <= i < 4 * LaneCount(|msg|) ensures LaneByte(buf, base, i) == 0 {
      var k := i / 4;
      assert buf[base + k] == PackLane(msg, k);
      LaneRoundTrip(ByteAt(msg, 4 * k), ByteAt(msg, 4 * k + 1), ByteAt(msg, 4 * k + 2), ByteAt(msg, 4 * k + 3));
    }
    forall i: nat | i < |msg| ensures LaneByte(buf, base, i) == msg[i] {
      var k := i / 4;
      assert buf[base + k] == PackLane(msg, k);
      LaneRoundTrip(ByteAt(msg, 4 * k), ByteAt(msg, 4 * k + 1), ByteAt(msg, 4 * k + 2), ByteAt(msg, 4 * k + 3));
    }
  }

  method CopyInLanes(src: seq<Byte>, dst: array<Lane>, base: nat)
    requires base + LaneCount(|src|) <= dst.Length
    modifies dst
    ensures Packed(dst[..], base, src)
    ensures dst[..base] == old(dst[..base])
    ensures dst[base + LaneCount(|src|)..] == old(dst[base + LaneCount(|src|)..])
  {
    var off := 0;
    while off + 4 <= |src|
      invariant off <= |src| && off % 4 == 0
      invariant forall k: nat | k < off / 4 :: dst[base + k] == PackLane(src, k)
      invariant forall i: nat | i < dst.Length && !(base <= i < base + off / 4) :: dst[i] == old(dst[i])
    {
      ghost var k := off / 4;
      assert off == 4 * k;
      dst[base + off / 4] := PackLane(src[off..off + 4], 0);
      off := off + 4;
      assert off / 4 == k + 1;
    }
    if off < |src| {
      ghost var k := off / 4;
      assert off == 4 * k && LaneCount(|src|) == k + 1;
      var lane := src[off..] + seq(4 - (|src| - off), _ => 0);
      dst[base + off / 4] := PackLane(lane, 0);
    }
  }

  method CopyOutLanes(src: array<Lane>, base: nat, dst: array<Byte>, len: nat)
    requires base + LaneCount(len) <= src.Length && len <= dst.Length
    modifies dst
    ensures dst[..len] == Unpack(src[..], base, len)
    ensures dst[len..] == old(dst[len..])
  {
    ghost var want := Unpack(src[..], base, len);
    var off := 0;
    while off + 4 <= len
      invariant off <= len && off % 4 == 0
      invariant forall i: nat | i < off :: dst[i] == want[i]
      invariant forall i: nat | len <= i < dst.Length :: dst[i] == old(dst[i])
    {
      PutLane(src[base + off / 4], dst, off, 4);
      off := off + 4;
    }
    if off < len {
      PutLane(src[base + off / 4], dst, off, len - off);
    }
  }

  /** The first `n` bytes of a lane. */
  method PutLane(l: Lane, dst: array<Byte>, off: nat, n: nat)
    requires n <= 4 && off + n <= dst.Length
    modifies dst
    ensures forall i: nat | i < dst.Length ::
      dst[i] == if off <= i < off + n then LaneBytes(l)[i - off] else old(dst[i])
  {
    var lane := LaneBytes(l);
    forall k | 0 <= k < n {
      dst[off + k] := lane[k];
    }
  }

  /** Whole words while they fit, then the remaining bytes: either direction of the element payload copy. */
  method CopyWords(src: seq<Byte>, dst: array<Byte>, to: nat, word: Size)
    requires to + |src| <= dst.Length
    modifies dst
    ensures dst[..] == old(dst[..to]) + src + old(dst[to + |src|..])
  {
    var off := 0;
    while off + word <= |src|
      invariant off <= |src|
      invariant forall i: nat | i < dst.Length ::
        dst[i] == if to <= i < to + off then src[i - to] else old(dst[i])
    {
      forall k | 0 <= k < word {
        dst[to + off + k] := src[off + k];
      }
      off := off + word;
    }
    while off < |src|
      invariant off <= |src|
      invariant forall i: nat | i < dst.Length ::
        dst[i] == if to <= i < to + off then src[i - to] else old(dst[i])
    {
      dst[to + off] := src[off];
      off := off + 1;
    }
  }
}
