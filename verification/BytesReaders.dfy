/** The readers of the lossy byte ring: what a pop in progress knows, and why an accepted copy is the
    message. A reader relies on the producer only through `Grew`. */
module BytesReaders {
  import opened Framing
  import opened BytesRing
  import opened BytesProof

  /** The frame a position below the tail belongs to. */
  function FrameOf(r: Ring, p: nat): Frame
    requires r.frames != []
  {
    r.frames[IndexOf(r.frames, p)]
  }

  /** The declared intent has not reached the frame the reader stands on. */
  predicate InWindow(r: Ring, pos: nat) { r.intent <= pos + r.cap }

  predicate Reading(r: Ring, pos: nat) { pos < r.tail && r.frames != [] }

  /** In the window, the local cursor is at the frame's marker or, past genuine padding, at its record. */
  predicate CursorOk(r: Ring, pos: nat, c: nat)
    requires Reading(r, pos)
  {
    var f := FrameOf(r, pos);
    c % 8 == 0 && (InWindow(r, pos) ==> c == pos || (pos == f.start && f.pad > 0 && c == f.Rec()))
  }

  predicate SkipOk(r: Ring, pos: nat, c: nat)
    requires Reading(r, pos)
  {
    var f := FrameOf(r, pos);
    c % 8 == 0 && (InWindow(r, pos) ==> c == pos == f.start && f.pad > 0)
  }

  /** In the window, what has been copied is a prefix of the frame's message; out of it, the lane
      loads still stay inside the buffer. */
  predicate CopyOk(r: Ring, pos: nat, c: nat, len: nat, out: seq<Byte>)
    requires Reading(r, pos)
  {
    var f := FrameOf(r, pos);
    && c % 8 == 0 && len <= MaxMessageLen(r.cap) && Off(c, r.cap) + RecordLen(len) <= r.cap
    && |out| <= len && (|out| == len || |out| % 4 == 0)
    && (InWindow(r, pos) ==> c == f.Rec() && len == |f.msg| && out == f.msg[..|out|])
  }

  predicate PcOk(r: Ring, pos: nat, pc: ReadPc) {
    match pc
    case WindowDue(c) => Reading(r, pos) && CursorOk(r, pos, c)
    case LengthDue(c) => Reading(r, pos) && CursorOk(r, pos, c)
    case SkipCheckDue(c) => Reading(r, pos) && SkipOk(r, pos, c)
    case CopyDue(c, len, out) => Reading(r, pos) && CopyOk(r, pos, c, len, out)
    case ReloadDue => pos + r.cap < r.intent
    case JumpDue => pos + r.cap < r.intent
    case _ => true
  }

  /** A delivery is one committed frame's message, taken from the frame's own boundary. */
  predicate Delivered(frames: seq<Frame>, tail: nat, at: nat, end: nat, msg: seq<Byte>) {
    && frames != [] && at < end <= tail
    && var f := frames[IndexOf(frames, at)];
      (at == f.start || at == f.Rec()) && end == f.End() && msg == f.msg
  }

  /** The log leads from the join point to the current position without gap or overlap. */
  predicate LogOk(frames: seq<Frame>, tail: nat, join: nat, log: seq<Event>, pos: nat) {
    if log == [] then pos == join
    else
      var before := log[..|log| - 1];
      match log[|log| - 1]
      case Got(at, end, msg) =>
        end == pos && Delivered(frames, tail, at, end, msg) && LogOk(frames, tail, join, before, at)
      case Lag(n) => n <= pos && LogOk(frames, tail, join, before, pos - n)
      case Skip(n) => n <= pos && LogOk(frames, tail, join, before, pos - n)
      case Shut => LogOk(frames, tail, join, before, pos)
  }

  predicate ReaderInv(r: Ring, a: Reader) {
    && Boundary(r.frames, r.tail, r.cap, a.pos)
    && a.pos % 8 == 0 && a.pos <= r.intent && a.tailCache <= r.tail
    && LogOk(r.frames, r.tail, a.join, a.log, a.pos)
    && PcOk(r, a.pos, a.pc)
  }

  // ------------------------------------------------------------------ producer steps

  lemma {:induction false} LogGrows(r: Ring, r': Ring, join: nat, log: seq<Event>, pos: nat)
    requires Framed(r.frames, r.tail, r.cap) && Grew(r, r') && LogOk(r.frames, r.tail, join, log, pos)
    ensures LogOk(r'.frames, r'.tail, join, log, pos)
  {
    if log != [] {
      var before := log[..|log| - 1];
      match log[|log| - 1]
      case Got(at, end, msg) =>
        LogGrows(r, r', join, before, at);
        FrameKept(r, r', at);
      case Lag(n) => LogGrows(r, r', join, before, pos - n);
      case Skip(n) => LogGrows(r, r', join, before, pos - n);
      case Shut => LogGrows(r, r', join, before, pos);
    }
  }

  lemma FrameKept(r: Ring, r': Ring, p: nat)
    requires Framed(r.frames, r.tail, r.cap) && Grew(r, r') && p < r.tail
    ensures r.frames != [] && r'.frames != [] && FrameOf(r', p) == FrameOf(r, p) && r.tail <= r'.tail
  {
    IndexCovers(r.frames, r.tail, r.cap, p);
    if r'.frames != r.frames {
      IndexStable(r.frames, r.tail, r.cap, r'.frames[|r'.frames| - 1], p);
    }
  }

  lemma ReaderGrew(r: Ring, r': Ring, a: Reader)
    requires RingInv(r) && Grew(r, r') && ReaderInv(r, a)
    ensures ReaderInv(r', a)
  {
    LogGrows(r, r', a.join, a.log, a.pos);
    if a.pos < r.tail {
      FrameKept(r, r', a.pos);
    }
    if r'.frames != r.frames {
      BoundaryGrows(r.frames, r.tail, r.cap, r'.frames[|r'.frames| - 1], a.pos);
    }
  }

  // ------------------------------------------------------------------ reader steps

  /** Where a reader stands when data is available, and which lanes it may trust. */
  predicate OnFrame(r: Ring, pos: nat) {
    && Geometry(r.cap) && Reading(r, pos) && pos <= r.intent
    && var f := FrameOf(r, pos);
      && LegalFrame(f, r.cap) && (pos == f.start || pos == f.Rec()) && pos < f.End() <= r.tail
      && (InWindow(r, pos) ==> RecordIntact(r.buf, r.cap, f))
      && (InWindow(r, pos) && pos == f.start ==> PadIntact(r.buf, r.cap, f))
  }

  lemma StandsOnFrame(r: Ring, pos: nat)
    requires RingInv(r) && Boundary(r.frames, r.tail, r.cap, pos) && pos < r.tail
    ensures OnFrame(r, pos)
  {
    IndexCovers(r.frames, r.tail, r.cap, pos);
    var i := IndexOf(r.frames, pos);
    FramedAll(r.frames, r.tail, r.cap, i);
    assert FrameIntact(r, r.frames[i]);
  }

  lemma PcOnly(r: Ring, a: Reader, pc: ReadPc)
    requires ReaderInv(r, a) && PcOk(r, a.pos, pc)
    ensures ReaderInv(r, a.(pc := pc))
  {
  }

  /** In the window, the header lane at the cursor is the frame's own marker or length. */
  lemma HeaderSeen(r: Ring, pos: nat, c: nat)
    requires OnFrame(r, pos) && CursorOk(r, pos, c) && InWindow(r, pos)
    ensures var f := FrameOf(r, pos); var v := Load(r.buf, Off(c, r.cap) / LANE);
      if c == f.Rec() then v == |f.msg| < PADDING else v == PADDING && c == pos == f.start && f.pad > 0
  {
  }

  /** A genuine header passes both bounds checks, so a failed check proves a lap. */
  lemma ParseOk(r: Ring, pos: nat, c: nat)
    requires OnFrame(r, pos) && CursorOk(r, pos, c)
    ensures PcOk(r, pos, Parse(r.cap, c, Load(r.buf, Off(c, r.cap) / LANE)))
  {
    var f := FrameOf(r, pos);
    if InWindow(r, pos) {
      HeaderSeen(r, pos, c);
      if c == f.Rec() {
        FrameShape(f, r.cap);
      }
    }
  }

  /** Skipping genuine padding lands on the record behind it. */
  lemma SkipLands(f: Frame, c: nat, cap: Size)
    requires Geometry(cap) && LegalFrame(f, cap) && c % 8 == 0
    ensures (c + (cap - Off(c, cap))) % 8 == 0
    ensures c == f.start && f.pad > 0 ==> c + (cap - Off(c, cap)) == f.Rec()
  {
    FrameShape(f, cap);
    SkipAligned(c, cap);
  }

  lemma SkipAligned(c: nat, cap: Size)
    requires Geometry(cap) && c % 8 == 0
    ensures (c + (cap - Off(c, cap))) % 8 == 0
  {
    OffAligned(c, cap);
    EightBack(cap, Off(c, cap));
    EightSum(c, cap - Off(c, cap));
  }

  lemma CopyStepOk(r: Ring, pos: nat, c: nat, len: nat, out: seq<Byte>, l: Lane)
    requires OnFrame(r, pos) && CopyOk(r, pos, c, len, out) && |out| < len
    requires l == Load(r.buf, (Off(c, r.cap) + HEADER + |out|) / LANE)
    ensures CopyOk(r, pos, c, len, Extend(out, len, l))
  {
    if InWindow(r, pos) {
      var f := FrameOf(r, pos);
      LaneCopied(r.buf, f, r.cap, out, l);
    }
  }

  lemma LaneCopied(buf: seq<Lane>, f: Frame, cap: Size, out: seq<Byte>, l: Lane)
    requires Geometry(cap) && LegalFrame(f, cap) && RecordIntact(buf, cap, f)
    requires |out| < |f.msg| && |out| % 4 == 0 && out == f.msg[..|out|]
    requires l == Load(buf, (Off(f.Rec(), cap) + HEADER + |out|) / LANE)
    ensures var s := Extend(out, |f.msg|, l); s == f.msg[..|s|]
  {
    var k := |out| / 4;
    assert |out| == 4 * k;
    LaneCell(f, cap, k);
    LaneHeld(buf, Cell(f.Rec(), cap), f.msg, k);
    UnpackPrefix(f.msg, k);
  }

  lemma LaneHeld(buf: seq<Lane>, base: nat, msg: seq<Byte>, k: nat)
    requires RecordAt(buf, base, msg) && k < LaneCount(|msg|)
    ensures Load(buf, base + 1 + k) == PackLane(msg, k)
  {
    assert buf[base + 1 + k] == PackLane(msg, k);
  }

  /** An accepted copy is byte for byte the message framed at the reader's position. */
  lemma AcceptExact(r: Ring, pos: nat, c: nat, len: nat, out: seq<Byte>)
    requires OnFrame(r, pos) && CopyOk(r, pos, c, len, out) && |out| == len && !Lapped(r, pos)
    ensures var f := FrameOf(r, pos);
      out == f.msg && c + RecordLen(len) == f.End() && f.End() % 8 == 0
  {
    FrameShape(FrameOf(r, pos), r.cap);
  }

  lemma Accepted(r: Ring, a: Reader, end: nat, out: seq<Byte>)
    requires Framed(r.frames, r.tail, r.cap) && r.tail <= r.intent && ReaderInv(r, a) && OnFrame(r, a.pos)
    requires end == FrameOf(r, a.pos).End() && end % 8 == 0 && out == FrameOf(r, a.pos).msg
    ensures ReaderInv(r, a.(pos := end, pc := Idle, log := a.log + [Got(a.pos, end, out)]))
  {
    AfterFrame(r, a.pos);
    var log := a.log + [Got(a.pos, end, out)];
    assert log[..|log| - 1] == a.log;
  }

  lemma LaneKeeps(r: Ring, a: Reader, c: nat, len: nat, out: seq<Byte>)
    requires OnFrame(r, a.pos) && ReaderInv(r, a) && a.pc == CopyDue(c, len, out) && |out| < len
    ensures ReaderInv(r, ReadStep(r, a))
  {
    var l := Load(r.buf, (Off(c, r.cap) + HEADER + |out|) / LANE);
    CopyStepOk(r, a.pos, c, len, out, l);
    PcOnly(r, a, CopyDue(c, len, Extend(out, len, l)));
  }

  lemma AcceptKeeps(r: Ring, a: Reader, c: nat, len: nat, out: seq<Byte>)
    requires Framed(r.frames, r.tail, r.cap) && r.tail <= r.intent && OnFrame(r, a.pos) && ReaderInv(r, a)
    requires a.pc == CopyDue(c, len, out) && |out| == len && !Lapped(r, a.pos)
    ensures ReaderInv(r, ReadStep(r, a))
  {
    var end := c + RecordLen(len);
    assert ReadStep(r, a) == a.(pos := end, pc := Idle, log := a.log + [Got(a.pos, end, out)]);
    AcceptExact(r, a.pos, c, len, out);
    Accepted(r, a, end, out);
  }

  /** The end of a committed frame is a boundary. */
  lemma AfterFrame(r: Ring, p: nat)
    requires Geometry(r.cap) && Framed(r.frames, r.tail, r.cap) && p < r.tail
    ensures r.frames != [] && Boundary(r.frames, r.tail, r.cap, FrameOf(r, p).End())
  {
    IndexCovers(r.frames, r.tail, r.cap, p);
    var i := IndexOf(r.frames, p);
    if i + 1 < |r.frames| {
      NextStart(r.frames, r.tail, r.cap, i);
    }
  }

  lemma NextStart(frames: seq<Frame>, tail: nat, cap: Size, i: nat)
    requires Geometry(cap) && Framed(frames, tail, cap) && i + 1 < |frames|
    ensures Boundary(frames, tail, cap, frames[i].End())
  {
    FramedAll(frames, tail, cap, i);
    FramedAll(frames, tail, cap, i + 1);
    var g := frames[i + 1];
    FrameShape(g, cap);
    IndexOfOwn(frames, tail, cap, i + 1, g.start);
  }

  lemma JumpKeeps(r: Ring, a: Reader)
    requires RingInv(r) && ReaderInv(r, a) && a.pc.JumpDue?
    ensures ReaderInv(r, ReadStep(r, a))
  {
    var a' := ReadStep(r, a);
    assert a'.log[..|a'.log| - 1] == a.log;
  }

  lemma DrainKeeps(r: Ring, a: Reader)
    requires RingInv(r) && ReaderInv(r, a) && (a.pc.RefreshDue? || a.pc.DrainDue?)
    ensures ReaderInv(r, ReadStep(r, a))
  {
    if r.tail > a.pos {
      StandsOnFrame(r, a.pos);
    } else {
      var a' := ReadStep(r, a);
      if a.pc.DrainDue? {
        assert a'.log[..|a'.log| - 1] == a.log;
      }
    }
  }

  lemma LengthKeeps(r: Ring, a: Reader, c: nat)
    requires OnFrame(r, a.pos) && ReaderInv(r, a) && a.pc == LengthDue(c)
    ensures ReaderInv(r, ReadStep(r, a))
  {
    ParseOk(r, a.pos, c);
    PcOnly(r, a, Parse(r.cap, c, Load(r.buf, Off(c, r.cap) / LANE)));
  }

  lemma SkipKeeps(r: Ring, a: Reader, c: nat)
    requires OnFrame(r, a.pos) && ReaderInv(r, a) && a.pc == SkipCheckDue(c)
    ensures ReaderInv(r, ReadStep(r, a))
  {
    SkipLands(FrameOf(r, a.pos), c, r.cap);
    PcOnly(r, a, if Lapped(r, a.pos) then ReloadDue else WindowDue(c + (r.cap - Off(c, r.cap))));
  }

  /** Every step of a pop keeps what the reader knows. */
  lemma ReadKeeps(r: Ring, a: Reader)
    requires RingInv(r) && ReaderInv(r, a)
    ensures ReaderInv(r, ReadStep(r, a))
  {
    if a.pos < r.tail {
      StandsOnFrame(r, a.pos);
    }
    match a.pc
    case Idle =>
    case RefreshDue => DrainKeeps(r, a);
    case DrainDue => DrainKeeps(r, a);
    case ClosedDue =>
    case WindowDue(c) => PcOnly(r, a, if Lapped(r, a.pos) then ReloadDue else LengthDue(c));
    case LengthDue(c) => LengthKeeps(r, a, c);
    case SkipCheckDue(c) => SkipKeeps(r, a, c);
    case CopyDue(c, len, out) =>
      if |out| < len {
        LaneKeeps(r, a, c, len, out);
      } else if Lapped(r, a.pos) {
        PcOnly(r, a, ReloadDue);
      } else {
        AcceptKeeps(r, a, c, len, out);
      }
    case ReloadDue =>
    case JumpDue => JumpKeeps(r, a);
  }

  lemma PopKeeps(r: Ring, a: Reader)
    requires RingInv(r) && ReaderInv(r, a)
    ensures ReaderInv(r, BeginPop(a))
  {
    if a.pos < r.tail {
      StandsOnFrame(r, a.pos);
    }
  }

  lemma SkipToLatestKeeps(r: Ring, a: Reader)
    requires RingInv(r) && ReaderInv(r, a)
    ensures ReaderInv(r, SkipToLatest(r, a))
  {
    FramedAligned(r.frames, r.tail, r.cap);
    var a' := SkipToLatest(r, a);
    if a.pc.Idle? {
      assert a'.log[..|a'.log| - 1] == a.log;
    }
  }

  lemma SubscribeOk(r: Ring)
    requires RingInv(r)
    ensures ReaderInv(r, Subscribe(r))
  {
    FramedAligned(r.frames, r.tail, r.cap);
  }
}
