/** The record framing shared by the two lossy byte rings: lanes, headers, wrap padding, and
    the sequence of frames a producer commits. Positions are unbounded byte counts. */
module Framing {

  const HEADER: nat := 4
  const ALIGN: nat := 8
  const LANE: nat := 4
  const PADDING: nat := 0xFFFF_FFFF

  type Byte = b: int | 0 <= b < 256

  /** A capacity: the buffer is never empty. */
  type Size = n: int | n > 0 witness 1

  /** The value of one 4-byte atomic lane. */
  type Lane = v: nat | v <= PADDING

  /** A committed record with the wrap padding written in front of it. */
  datatype Frame = Frame(start: nat, pad: nat, msg: seq<Byte>) {
    /** Where the header of the record itself lies. */
    function Rec(): nat { start + pad }
    function End(): nat { start + pad + RecordLen(|msg|) }
  }

  // ------------------------------------------------------------------ geometry

  function AlignUp(n: nat): nat { (n + 7) / 8 * 8 }

  function RecordLen(len: nat): nat { AlignUp(HEADER + len) }

  function MaxMessageLen(cap: nat): nat {
    if cap / 8 < PADDING - 1 then cap / 8 else PADDING - 1
  }

  /** The widest footprint of one push: wrap padding plus a maximum-size record. */
  function MaxRecordSpan(cap: nat): nat { 2 * RecordLen(MaxMessageLen(cap)) - ALIGN }

  predicate PowerOfTwo(n: nat) {
    n == 1 || (n > 1 && n % 2 == 0 && PowerOfTwo(n / 2))
  }

  /** What the constructors guarantee: a power of two, at least one 8-byte record. */
  predicate LegalCapacity(cap: nat) { PowerOfTwo(cap) && cap >= 8 }

  /** The part of `LegalCapacity` the proofs use. */
  predicate Geometry(cap: nat) { cap >= 8 && cap % 8 == 0 }

  function Doubled(n: Size, k: nat): Size { if k == 0 then n else 2 * Doubled(n, k - 1) }

  /** The legal capacities are 8, 16, 32 and so on, and no others. */
  lemma {:induction false} LegalCapacityIs(cap: nat)
    ensures LegalCapacity(cap) <==> exists k: nat :: cap == Doubled(8, k)
  {
    if LegalCapacity(cap) {
      var k := Doublings(cap);
    }
    if k: nat :| cap == Doubled(8, k) {
      DoubledIsLegal(k);
    }
  }

  lemma {:induction false} Doublings(cap: nat) returns (k: nat)
    requires LegalCapacity(cap)
    ensures cap == Doubled(8, k)
  {
    LegalCapacityIsAligned(cap);
    if cap == 8 {
      k := 0;
    } else {
      k := Doublings(cap / 2);
      k := k + 1;
    }
  }

  lemma {:induction false} DoubledIsLegal(k: nat)
    ensures LegalCapacity(Doubled(8, k))
  {
    if k == 0 {
      assert PowerOfTwo(1) && PowerOfTwo(2) && PowerOfTwo(4);
    } else {
      DoubledIsLegal(k - 1);
    }
  }

  lemma {:induction false} LegalCapacityIsAligned(cap: nat)
    requires LegalCapacity(cap)
    ensures Geometry(cap)
  {
    var h := cap / 2;
    NoPowersBetween();
    assert cap > 8 ==> cap == 2 * h && PowerOfTwo(h) && h != 5 && h != 6 && h != 7;
    if cap >= 16 {
      LegalCapacityIsAligned(h);
      assert h == 8 * (h / 8);
    }
  }

  lemma NoPowersBetween()
    ensures !PowerOfTwo(5) && !PowerOfTwo(6) && !PowerOfTwo(7)
  {
    assert !PowerOfTwo(3);
  }

  /** A maximum-size record fits the buffer, whatever the capacity. */
  lemma MaxRecordFits(cap: nat)
    requires Geometry(cap)
    ensures RecordLen(MaxMessageLen(cap)) <= cap
    ensures RecordLen(MaxMessageLen(cap)) >= 8
  {
    if cap >= 16 {
      assert RecordLen(MaxMessageLen(cap)) <= 4 + cap / 8 + 7;
    }
  }

  /** The inequality behind "every lap makes progress", and its one exception. */
  lemma ThreeRecords(cap: nat)
    requires Geometry(cap)
    ensures 3 * RecordLen(MaxMessageLen(cap)) - 8 <= cap <==> cap >= 16
  {
    if cap >= 40 {
      assert RecordLen(MaxMessageLen(cap)) <= 4 + cap / 8 + 7;
    } else if cap >= 16 {
      assert cap == 16 || cap == 24 || cap == 32;
    }
  }

  /** A starving producer's span never reaches the capacity, so `capacity - span` is positive. */
  lemma SpanBelowCapacity(cap: nat)
    requires Geometry(cap)
    ensures MaxRecordSpan(cap) < cap <==> cap >= 16
  {
    if cap >= 40 {
      assert RecordLen(MaxMessageLen(cap)) <= 4 + cap / 8 + 7;
    } else if cap >= 16 {
      assert cap == 16 || cap == 24 || cap == 32;
    }
  }

  lemma RecordLenMonotone(a: nat, b: nat)
    requires a <= b
    ensures RecordLen(a) <= RecordLen(b)
  {
  }

  /** What these lengths are: a message is legal up to an eighth of the ring while it is shorter than the
      marker's value, and its record takes the least multiple of eight that holds it and its header. */
  lemma LengthsAre(cap: nat, len: nat)
    ensures len <= MaxMessageLen(cap) <==> 8 * len <= cap && len < 0xFFFF_FFFF
    ensures RecordLen(len) % 8 == 0 && 4 + len <= RecordLen(len) < 12 + len
  {
  }

  /** How much consumed progress a consumer may hold back: an eighth of the ring, at least one unit. */
  function PublishBatch(cap: Size, max: Size): (b: nat)
    ensures 1 <= b <= cap && b <= max
    ensures b == 1 || 8 * b <= cap
    ensures b == max || 8 * (b + 1) > cap
  {
    if cap / 8 == 0 then 1 else if cap / 8 > max then max else cap / 8
  }

  /** When deferred progress has reached the batch. */
  lemma BatchReached(held: nat, cap: Size, max: Size)
    ensures held >= PublishBatch(cap, max) <==> held > 0 && (held >= max || 8 * (held + 1) > cap)
  {
  }

  // ------------------------------------------------------------------ positions modulo the capacity

  /** The buffer offset of a position: the source's `p & mask`, defined by counting laps off so that
      the proofs about it stay linear. */
  function Off(p: nat, cap: Size): (o: nat)
    ensures o < cap && o <= p
  {
    if p < cap then p else Off(p - cap, cap)
  }

  lemma {:induction false} OffIsRemainder(p: nat, cap: Size)
    ensures Off(p, cap) == p % cap
  {
    if p >= cap {
      OffIsRemainder(p - cap, cap);
      var q := (p - cap) / cap;
      assert p - cap == cap * q + (p - cap) % cap;
      assert p == cap * (q + 1) + Off(p, cap);
      RemainderUnique(p, q + 1, Off(p, cap), cap);
    }
  }

  lemma RemainderUnique(p: nat, q: int, r: nat, cap: Size)
    requires r < cap && p == cap * q + r
    ensures p % cap == r
  {
    var a := p / cap;
    assert p == cap * a + p % cap;
    assert cap * (q - a) == p % cap - r;
    MulSign(cap, q - a);
  }

  lemma MulSign(cap: Size, k: int)
    ensures k >= 1 ==> cap * k >= cap
    ensures k <= -1 ==> cap * k + cap <= 0
  {
  }

  /** Positions with equal offsets are whole laps apart. */
  lemma {:induction false} OffSame(p: nat, q: nat, cap: Size)
    requires Off(p, cap) == Off(q, cap) && p < q
    ensures p + cap <= q
  {
    if p >= cap {
      OffSame(p - cap, q - cap, cap);
    }
  }

  lemma {:induction false} OffAdd(p: nat, d: nat, cap: Size)
    requires Off(p, cap) + d < cap
    ensures Off(p + d, cap) == Off(p, cap) + d
  {
    if p >= cap {
      OffAdd(p - cap, d, cap);
    }
  }

  /** Running to the end of the buffer lands on offset zero. */
  lemma {:induction false} OffToEnd(p: nat, cap: Size)
    ensures Off(p + (cap - Off(p, cap)), cap) == 0
  {
    if p >= cap {
      OffToEnd(p - cap, cap);
    }
  }

  lemma {:induction false} OffAligned(p: nat, cap: Size)
    requires Geometry(cap) && p % 8 == 0
    ensures Off(p, cap) % 8 == 0
  {
    if p >= cap {
      EightBack(p, cap);
      OffAligned(p - cap, cap);
    }
  }

  lemma {:induction false} OffAlignedFour(p: nat, cap: Size)
    requires Geometry(cap) && p % 4 == 0
    ensures Off(p, cap) % 4 == 0
  {
    if p >= cap {
      FourBack(p, cap);
      OffAlignedFour(p - cap, cap);
    }
  }

  lemma EightBack(p: nat, q: nat)
    requires p % 8 == 0 && q % 8 == 0 && q <= p
    ensures (p - q) % 8 == 0
  {
  }

  lemma EightSum(p: nat, q: nat)
    requires p % 8 == 0 && q % 8 == 0
    ensures (p + q) % 8 == 0
  {
  }

  lemma FourBack(p: nat, q: nat)
    requires p % 4 == 0 && q % 8 == 0 && q <= p
    ensures (p - q) % 4 == 0
  {
  }

  /** Lane index of a byte position. */
  function Cell(p: nat, cap: Size): nat { Off(p, cap) / LANE }

  /** Two lane-aligned positions that share a cell are whole laps apart. */
  lemma CellSame(p: nat, q: nat, cap: Size)
    requires Geometry(cap) && p % 4 == 0 && q % 4 == 0
    requires Cell(p, cap) == Cell(q, cap) && p < q
    ensures p + cap <= q
  {
    OffAlignedFour(p, cap);
    OffAlignedFour(q, cap);
    OffSame(p, q, cap);
  }

  lemma CellInRange(p: nat, cap: Size)
    requires Geometry(cap)
    ensures Cell(p, cap) < cap / LANE
  {
  }

  // ------------------------------------------------------------------ lanes

  function LaneCount(len: nat): nat { (len + 3) / 4 }

  function ByteAt(msg: seq<Byte>, i: nat): Byte {
    if i < |msg| then msg[i] else 0
  }

  /** The k-th payload lane; the final partial lane is zero-padded. */
  function PackLane(msg: seq<Byte>, k: nat): Lane {
    ByteAt(msg, 4 * k) + 0x100 * ByteAt(msg, 4 * k + 1)
    + 0x1_0000 * ByteAt(msg, 4 * k + 2) + 0x100_0000 * ByteAt(msg, 4 * k + 3)
  }

  function LaneBytes(l: Lane): (s: seq<Byte>)
    ensures |s| == 4
  {
    [l % 256, l / 0x100 % 256, l / 0x1_0000 % 256, l / 0x100_0000]
  }

  /** Unpacking undoes packing. */
  lemma LaneRoundTrip(b0: Byte, b1: Byte, b2: Byte, b3: Byte)
    ensures LaneBytes(b0 + 0x100 * b1 + 0x1_0000 * b2 + 0x100_0000 * b3) == [b0, b1, b2, b3]
  {
    var v := b0 + 0x100 * b1 + 0x1_0000 * b2 + 0x100_0000 * b3;
    assert v / 0x100 == b1 + 0x100 * b2 + 0x1_0000 * b3;
    assert v / 0x1_0000 == b2 + 0x100 * b3;
    assert v / 0x100_0000 == b3;
  }

  /** How many bytes of a `len`-byte payload the lane after `have` bytes supplies. */
  function Take(len: nat, have: nat): nat
    requires have <= len
  {
    if len - have < 4 then len - have else 4
  }

  /** A copy-out buffer after one more lane load. */
  function Extend(out: seq<Byte>, len: nat, l: Lane): (s: seq<Byte>)
    requires |out| < len
    ensures |out| < |s| <= len
    ensures |out| % 4 == 0 ==> |s| == len || |s| % 4 == 0
  {
    out + LaneBytes(l)[..Take(len, |out|)]
  }

  /** Unpacking the next packed lane extends a prefix of the message by its next bytes. */
  lemma UnpackPrefix(msg: seq<Byte>, k: nat)
    requires 4 * k < |msg|
    ensures var s := Extend(msg[..4 * k], |msg|, PackLane(msg, k)); s == msg[..|s|]
  {
    var i := 4 * k;
    LaneRoundTrip(ByteAt(msg, i), ByteAt(msg, i + 1), ByteAt(msg, i + 2), ByteAt(msg, i + 3));
  }

  // ------------------------------------------------------------------ frames

  function PadFor(start: nat, len: nat, cap: Size): nat
  {
    if RecordLen(len) <= cap - Off(start, cap) then 0 else cap - Off(start, cap)
  }

  function NewFrame(start: nat, msg: seq<Byte>, cap: Size): Frame
  {
    Frame(start, PadFor(start, |msg|, cap), msg)
  }

  predicate LegalFrame(f: Frame, cap: Size)
  {
    && f.start % 8 == 0
    && |f.msg| <= MaxMessageLen(cap)
    && f.pad == PadFor(f.start, |f.msg|, cap)
  }

  /** A record never straddles the end of the buffer; padding runs exactly to it, is shorter than
      the record it makes room for, and is followed by a record at offset zero. */
  lemma FrameShape(f: Frame, cap: Size)
    requires Geometry(cap) && LegalFrame(f, cap)
    ensures f.pad % 8 == 0 && f.Rec() % 8 == 0 && f.End() % 8 == 0
    ensures f.start % 4 == 0 && f.Rec() % 4 == 0
    ensures Off(f.Rec(), cap) + RecordLen(|f.msg|) <= cap
    ensures f.pad > 0 ==> Off(f.Rec(), cap) == 0 && Off(f.start, cap) + f.pad == cap && f.pad < RecordLen(|f.msg|)
    ensures f.start < f.End() <= f.start + MaxRecordSpan(cap)
    ensures f.Rec() < f.End() <= f.Rec() + RecordLen(MaxMessageLen(cap))
  {
    PadShape(f.start, |f.msg|, cap);
    SpanShape(f.start, f.pad, |f.msg|, MaxMessageLen(cap));
  }

  /** Where a push puts its record, by the buffer alone: at the next position if it fits before the end,
      else behind padding that runs to the end. */
  lemma FramePlace(start: nat, msg: seq<Byte>, cap: Size)
    requires Geometry(cap) && start % 8 == 0 && |msg| <= MaxMessageLen(cap)
    ensures var f := NewFrame(start, msg, cap); var record := f.End() - f.start - f.pad;
      && f.start == start && f.msg == msg && f.Rec() == start + f.pad
      && record % 8 == 0 && 4 + |msg| <= record < 12 + |msg|
      && (f.pad == 0 <==> start % cap + record <= cap)
      && (f.pad > 0 ==> start % cap + f.pad == cap)
  {
    OffIsRemainder(start, cap);
    LengthsAre(cap, |msg|);
  }

  /** The widest span is what some push needs: one that finds a maximum-size record just too long for what
      is left before the end. */
  lemma WidestSpanIsNeeded(cap: Size)
    requires Geometry(cap)
    ensures exists f: Frame :: LegalFrame(f, cap) && f.End() == f.start + MaxRecordSpan(cap)
  {
    MaxRecordFits(cap);
    var record := RecordLen(MaxMessageLen(cap));
    var msg: seq<Byte> := seq(MaxMessageLen(cap), _ => 0);
    var start := cap - (record - 8);
    LengthsAre(cap, |msg|);
    EightBack(cap, record - 8);
    assert record == 8 ==> Off(cap, cap) == 0;
    var f := NewFrame(start, msg, cap);
    assert LegalFrame(f, cap) && f.End() == f.start + MaxRecordSpan(cap);
  }

  lemma SpanShape(start: nat, pad: nat, len: nat, max: nat)
    requires start % 8 == 0 && pad % 8 == 0 && len <= max && (pad > 0 ==> pad < RecordLen(len))
    ensures (start + pad) % 8 == 0 && (start + pad + RecordLen(len)) % 8 == 0
    ensures start % 4 == 0 && (start + pad) % 4 == 0
    ensures 8 <= RecordLen(len) <= RecordLen(max)
    ensures pad + RecordLen(len) <= 2 * RecordLen(max) - 8
  {
    RecordLenMonotone(len, max);
    EightIsFour(start);
    EightIsFour(start + pad);
  }

  lemma EightIsFour(p: nat)
    requires p % 8 == 0
    ensures p % 4 == 0
  {
  }

  lemma PadShape(start: nat, len: nat, cap: Size)
    requires Geometry(cap) && start % 8 == 0 && len <= MaxMessageLen(cap)
    ensures var pad := PadFor(start, len, cap);
      && pad % 8 == 0
      && Off(start + pad, cap) + RecordLen(len) <= cap
      && (pad > 0 ==> Off(start + pad, cap) == 0 && Off(start, cap) + pad == cap && pad < RecordLen(len))
  {
    OffAligned(start, cap);
    OffToEnd(start, cap);
    RecordLenMonotone(len, MaxMessageLen(cap));
    MaxRecordFits(cap);
  }

  /** Frames laid end to end from position zero up to `tail`. */
  predicate Framed(frames: seq<Frame>, tail: nat, cap: Size)
  {
    if frames == [] then tail == 0
    else
      var f := frames[|frames| - 1];
      f.End() == tail && LegalFrame(f, cap) && Framed(frames[..|frames| - 1], f.start, cap)
  }

  /** The payloads of a run of frames. */
  function Messages(frames: seq<Frame>): seq<seq<Byte>> {
    seq(|frames|, i requires 0 <= i < |frames| => frames[i].msg)
  }

  lemma {:induction false} FramedAll(frames: seq<Frame>, tail: nat, cap: Size, i: nat)
    requires Framed(frames, tail, cap) && i < |frames|
    ensures LegalFrame(frames[i], cap) && frames[i].End() <= tail
    ensures i + 1 < |frames| ==> frames[i].End() == frames[i + 1].start
  {
    var n := |frames| - 1;
    if i < n {
      FramedAll(frames[..n], frames[n].start, cap, i);
      if i + 1 == n {
        assert frames[..n][n - 1] == frames[i];
      }
    }
  }

  lemma {:induction false} FramedAligned(frames: seq<Frame>, tail: nat, cap: Size)
    requires Geometry(cap) && Framed(frames, tail, cap)
    ensures tail % 8 == 0
    ensures frames != [] ==> tail > 0
  {
    if frames != [] {
      FrameShape(frames[|frames| - 1], cap);
    }
  }

  lemma FramedAppend(frames: seq<Frame>, tail: nat, cap: Size, f: Frame)
    requires Framed(frames, tail, cap) && f.start == tail && LegalFrame(f, cap)
    ensures Framed(frames + [f], f.End(), cap)
  {
    assert (frames + [f])[..|frames|] == frames;
  }

  /** The index of the frame whose span covers a position below the tail. */
  function IndexOf(frames: seq<Frame>, p: nat): (i: nat)
    ensures frames != [] ==> i < |frames|
  {
    if frames == [] then 0
    else if frames[|frames| - 1].start <= p || |frames| == 1 then |frames| - 1
    else IndexOf(frames[..|frames| - 1], p)
  }

  lemma {:induction false} IndexCovers(frames: seq<Frame>, tail: nat, cap: Size, p: nat)
    requires Framed(frames, tail, cap) && p < tail
    ensures frames != [] && var f := frames[IndexOf(frames, p)]; f.start <= p < f.End()
  {
    var n := |frames| - 1;
    if frames[n].start > p {
      IndexCovers(frames[..n], frames[n].start, cap, p);
    }
  }

  /** Every frame is found at each position of its span. */
  lemma {:induction false} IndexOfOwn(frames: seq<Frame>, tail: nat, cap: Size, i: nat, p: nat)
    requires Framed(frames, tail, cap) && i < |frames|
    requires frames[i].start <= p < frames[i].End()
    ensures IndexOf(frames, p) == i
  {
    var n := |frames| - 1;
    if i < n {
      FramedAll(frames[..n], frames[n].start, cap, i);
      IndexOfOwn(frames[..n], frames[n].start, cap, i, p);
    }
  }

  lemma IndexStable(frames: seq<Frame>, tail: nat, cap: Size, f: Frame, p: nat)
    requires Framed(frames, tail, cap) && p < tail && f.start == tail
    ensures IndexOf(frames + [f], p) == IndexOf(frames, p) < |frames|
  {
    IndexCovers(frames, tail, cap, p);
    assert (frames + [f])[..|frames|] == frames;
  }

  /** A position a reader may stand at: a frame start or record start, the tail, or (left behind by
      a producer that died between its `latest` and `tail` stores) a future lap boundary. */
  predicate Boundary(frames: seq<Frame>, tail: nat, cap: Size, p: nat)
  {
    if p < tail && frames != [] then
      var f := frames[IndexOf(frames, p)];
      p == f.start || p == f.Rec()
    else p == tail || (p > tail && Off(p, cap) == 0)
  }

  /** Every capacity multiple below the tail is a record start, on every lap. */
  lemma LapBoundaryIsRecord(frames: seq<Frame>, tail: nat, cap: Size, p: nat)
    requires Geometry(cap) && Framed(frames, tail, cap) && p < tail && Off(p, cap) == 0
    ensures frames != [] && frames[IndexOf(frames, p)].Rec() == p
  {
    IndexCovers(frames, tail, cap, p);
    var i := IndexOf(frames, p);
    FramedAll(frames, tail, cap, i);
    LapInsideFrame(frames[i], cap, p);
  }

  lemma LapInsideFrame(f: Frame, cap: Size, p: nat)
    requires Geometry(cap) && LegalFrame(f, cap) && f.start <= p < f.End() && Off(p, cap) == 0
    ensures p == f.Rec()
  {
    FrameShape(f, cap);
    RecordLenMonotone(|f.msg|, MaxMessageLen(cap));
    MaxRecordFits(cap);
    var next := f.start + (cap - Off(f.start, cap));
    OffToEnd(f.start, cap);
    if Off(f.start, cap) == 0 {
      assert f.pad == 0;
      if p > f.start { OffSame(f.start, p, cap); }
    } else {
      if p < next {
        assert f.start < p;
        OffAdd(f.start, p - f.start, cap);
      } else if p > next {
        OffSame(next, p, cap);
      }
    }
  }

  /** Committing one more frame keeps every boundary a boundary: in particular a position parked on a
      dead producer's `latest` becomes a real record start when the tail passes it. */
  lemma BoundaryGrows(frames: seq<Frame>, tail: nat, cap: Size, f: Frame, p: nat)
    requires Geometry(cap) && Framed(frames, tail, cap) && LegalFrame(f, cap) && f.start == tail
    requires Boundary(frames, tail, cap, p)
    ensures Boundary(frames + [f], f.End(), cap, p)
  {
    FrameShape(f, cap);
    FramedAppend(frames, tail, cap, f);
    if p < tail {
      IndexCovers(frames, tail, cap, p);
      IndexStable(frames, tail, cap, f, p);
    } else if p < f.End() {
      IndexOfOwn(frames + [f], f.End(), cap, |frames|, p);
      if p > tail {
        LapInsideFrame(f, cap, p);
      }
    }
  }
}
