/** A pop of the lossy byte ring run alone, start to finish: exactly what it must answer. */
module BytesPops {
  import opened Framing
  import opened BytesRing
  import opened BytesProof
  import opened BytesReaders

  /** n reader steps with nobody else moving. */
  function Steps(r: Ring, a: Reader, n: nat): Reader {
    if n == 0 then a else ReadStep(r, Steps(r, a, n - 1))
  }

  /** Nothing there: empty or, once closed, told so. In the window: the framed message, exactly. Out of
      it: the number of bytes to the newest record. */
  predicate Answered(r: Ring, a0: Reader, a: Reader) {
    if a0.pos >= r.tail then
      a.pos == a0.pos && a.tailCache == r.tail && a.log == a0.log + (if r.closed then [Shut] else [])
    else if InWindow(r, a0.pos) then
      r.frames != [] && var f := FrameOf(r, a0.pos);
        a.pos == f.End() && a.log == a0.log + [Got(a0.pos, f.End(), f.msg)]
    else a.pos == Max(r.latest, a0.pos) && a.tailCache == r.tail && a.log == a0.log + [Lag(a.pos - a0.pos)]
  }

  /** In the middle of a pop nothing has been decided; at its end, everything. */
  predicate Mid(r: Ring, a0: Reader, a: Reader) {
    && ReaderInv(r, a)
    && if a.pc.Idle? then Answered(r, a0, a)
       else
         && a.pos == a0.pos && a.log == a0.log
         && (a.pc.ClosedDue? || a.pc.DrainDue? ==> r.tail <= a.pos)
         && (a.pc.ClosedDue? || a.pc.DrainDue? || a.pc.JumpDue? ==> a.tailCache == r.tail)
         && (a.pc.DrainDue? ==> r.closed)
         && (!a.pc.RefreshDue? && !a.pc.ClosedDue? && !a.pc.DrainDue? ==> a.pos < r.tail)
  }

  lemma MidStep(r: Ring, a0: Reader, a: Reader)
    requires RingInv(r) && Mid(r, a0, a)
    ensures Mid(r, a0, ReadStep(r, a))
  {
    ReadKeeps(r, a);
    if a.pos < r.tail && !a.pc.Idle? {
      StandsOnFrame(r, a.pos);
      DataStep(r, a0, a);
    } else {
      DryStep(r, a0, a);
    }
  }

  lemma DataStep(r: Ring, a0: Reader, a: Reader)
    requires OnFrame(r, a.pos) && Mid(r, a0, a) && !a.pc.Idle? && ReaderInv(r, ReadStep(r, a))
    ensures Mid(r, a0, ReadStep(r, a))
  {
    if a.pc.CopyDue? && |a.pc.out| == a.pc.len && !Lapped(r, a.pos) {
      AcceptExact(r, a.pos, a.pc.cursor, a.pc.len, a.pc.out);
    }
  }

  lemma DryStep(r: Ring, a0: Reader, a: Reader)
    requires Mid(r, a0, a) && (a.pos >= r.tail || a.pc.Idle?) && ReaderInv(r, ReadStep(r, a))
    ensures Mid(r, a0, ReadStep(r, a))
  {
  }

  /** However many steps it takes, a pop that ends has answered. */
  lemma {:induction false} PopAnswers(r: Ring, a0: Reader, a: Reader, n: nat)
    requires RingInv(r) && Mid(r, a0, a)
    ensures Mid(r, a0, Steps(r, a, n))
  {
    if n > 0 {
      PopAnswers(r, a0, a, n - 1);
      MidStep(r, a0, Steps(r, a, n - 1));
    }
  }

  /** In the middle of a pop that has not looked at the shared tail, or at its end. */
  predicate CacheUsed(r: Ring, a: Reader, b: Reader) {
    && ReaderInv(r, b) && b.tailCache == a.tailCache && (b.pc.Idle? || b.pos == a.pos)
    && !b.pc.RefreshDue? && !b.pc.ClosedDue? && !b.pc.DrainDue?
  }

  lemma CacheStep(r: Ring, a: Reader, b: Reader)
    requires RingInv(r) && CacheUsed(r, a, b) && InWindow(r, a.pos)
    ensures CacheUsed(r, a, ReadStep(r, b))
  {
    ReadKeeps(r, b);
    if !b.pc.Idle? {
      InWindowStays(r, b);
    }
  }

  lemma InWindowStays(r: Ring, b: Reader)
    requires ReaderInv(r, b) && InWindow(r, b.pos) && !b.pc.RefreshDue? && !b.pc.ClosedDue? && !b.pc.DrainDue?
    ensures var c := ReadStep(r, b);
      && c.tailCache == b.tailCache && (c.pc.Idle? || c.pos == b.pos)
      && !c.pc.RefreshDue? && !c.pc.ClosedDue? && !c.pc.DrainDue?
  {
  }

  /** With something below its cached tail and nobody overtaking it, a pop never looks at the shared tail. */
  lemma {:induction false} CachedPopLoadsNoTail(r: Ring, a: Reader, n: nat)
    requires RingInv(r) && ReaderInv(r, a) && a.pc.Idle? && a.pos < a.tailCache && InWindow(r, a.pos)
    ensures CacheUsed(r, a, Steps(r, BeginPop(a), n))
  {
    if n == 0 {
      PopKeeps(r, a);
    } else {
      CachedPopLoadsNoTail(r, a, n - 1);
      CacheStep(r, a, Steps(r, BeginPop(a), n - 1));
    }
  }

  // ------------------------------------------------------------------ the remaining messages

  /** The index of the frame a reader at boundary p stands on, or one past the last. */
  function IndexAt(frames: seq<Frame>, tail: nat, p: nat): (i: nat)
    ensures i <= |frames|
  {
    if p < tail && frames != [] then IndexOf(frames, p) else |frames|
  }

  /** Everything framed from boundary p on. */
  function Remaining(frames: seq<Frame>, tail: nat, p: nat): seq<seq<Byte>> {
    Messages(frames[IndexAt(frames, tail, p)..])
  }

  lemma NextIndex(frames: seq<Frame>, tail: nat, cap: Size, p: nat)
    requires Geometry(cap) && Framed(frames, tail, cap) && p < tail
    ensures frames != [] && var k := IndexOf(frames, p);
      IndexAt(frames, tail, frames[k].End()) == k + 1 && p < frames[k].End() <= tail
  {
    IndexCovers(frames, tail, cap, p);
    IndexAfter(frames, tail, cap, IndexOf(frames, p));
  }

  lemma IndexAfter(frames: seq<Frame>, tail: nat, cap: Size, k: nat)
    requires Geometry(cap) && Framed(frames, tail, cap) && k < |frames|
    ensures IndexAt(frames, tail, frames[k].End()) == k + 1 && frames[k].End() <= tail
  {
    FramedAll(frames, tail, cap, k);
    if k + 1 < |frames| {
      FramedAll(frames, tail, cap, k + 1);
      FrameShape(frames[k + 1], cap);
      IndexOfOwn(frames, tail, cap, k + 1, frames[k].End());
    } else {
      LastEnds(frames, tail, cap);
    }
  }

  lemma LastEnds(frames: seq<Frame>, tail: nat, cap: Size)
    requires Framed(frames, tail, cap) && frames != []
    ensures frames[|frames| - 1].End() == tail
  {
  }

  /** Taking one message leaves the rest. */
  lemma RemainingSplits(frames: seq<Frame>, tail: nat, cap: Size, p: nat)
    requires Geometry(cap) && Framed(frames, tail, cap) && p < tail
    ensures frames != [] && var f := frames[IndexOf(frames, p)];
      Remaining(frames, tail, p) == [f.msg] + Remaining(frames, tail, f.End())
  {
    NextIndex(frames, tail, cap, p);
    var k := IndexOf(frames, p);
    assert frames[k..] == [frames[k]] + frames[k + 1..];
  }

  lemma NothingRemains(frames: seq<Frame>, tail: nat, p: nat)
    requires p >= tail
    ensures Remaining(frames, tail, p) == []
  {
  }
}
