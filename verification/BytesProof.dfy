/** The inductive invariant of the lossy byte ring and its preservation by every step. */
module BytesProof {
  import opened Framing
  import opened BytesRing

  // ------------------------------------------------------------------ what the buffer holds

  /** A record whose header lane is cell `base`: the length, then the payload lanes. */
  predicate RecordAt(buf: seq<Lane>, base: nat, msg: seq<Byte>) {
    HeaderAt(buf, base, |msg|) && LanesAt(buf, base, msg, LaneCount(|msg|))
  }

  predicate HeaderAt(buf: seq<Lane>, base: nat, v: nat) {
    base < |buf| && buf[base] == v
  }

  /** The first n payload lanes of a record. */
  predicate LanesAt(buf: seq<Lane>, base: nat, msg: seq<Byte>, n: nat) {
    && base + n < |buf|
    && n <= LaneCount(|msg|)
    && forall k: nat | k < n :: buf[base + 1 + k] == PackLane(msg, k)
  }

  predicate RecordIntact(buf: seq<Lane>, cap: Size, f: Frame) { RecordAt(buf, Cell(f.Rec(), cap), f.msg) }

  predicate PadIntact(buf: seq<Lane>, cap: Size, f: Frame) {
    f.pad > 0 ==> HeaderAt(buf, Cell(f.start, cap), PADDING)
  }

  /** Whatever starts within a capacity of the declared intent is whole. */
  predicate WindowIntact(r: Ring) {
    forall i: nat | i < |r.frames| :: FrameIntact(r, r.frames[i])
  }

  predicate FrameIntact(r: Ring, f: Frame) {
    && (f.Rec() + r.cap >= r.intent ==> RecordIntact(r.buf, r.cap, f))
    && (f.start + r.cap >= r.intent ==> PadIntact(r.buf, r.cap, f))
  }

  // ------------------------------------------------------------------ producer invariant

  predicate CountersOk(r: Ring) {
    && r.tail <= r.intent <= r.tail + MaxRecordSpan(r.cap)
    && r.tail <= r.latest + RecordLen(MaxMessageLen(r.cap))
    && r.latest <= r.intent && r.latest % 8 == 0
    && Boundary(r.frames, r.tail, r.cap, r.latest)
  }

  predicate StageOk(r: Ring, f: Frame, stage: Stage) {
    match stage
    case PadDue => f.pad > 0
    case HeaderDue => PadIntact(r.buf, r.cap, f)
    case LaneDue(k) =>
      && PadIntact(r.buf, r.cap, f)
      && HeaderAt(r.buf, Cell(f.Rec(), r.cap), |f.msg|)
      && LanesAt(r.buf, Cell(f.Rec(), r.cap), f.msg, k)
      && k < LaneCount(|f.msg|)
    case LatestDue => PadIntact(r.buf, r.cap, f) && RecordIntact(r.buf, r.cap, f)
    case TailDue => PadIntact(r.buf, r.cap, f) && RecordIntact(r.buf, r.cap, f) && r.latest == f.Rec()
  }

  predicate ProducerOk(r: Ring) {
    match r.prod
    case Ready(next, floor) => next == r.tail && r.intent == Max(r.tail, floor)
    case Writing(next, floor, msg, stage) =>
      && next == r.tail
      && |msg| <= MaxMessageLen(r.cap)
      && r.intent == Max(NewFrame(next, msg, r.cap).End(), floor)
      && StageOk(r, NewFrame(next, msg, r.cap), stage)
    case _ => true
  }

  predicate RingInv(r: Ring) {
    && Geometry(r.cap)
    && |r.buf| == r.cap / LANE
    && Framed(r.frames, r.tail, r.cap)
    && CountersOk(r)
    && WindowIntact(r)
    && ProducerOk(r)
    && (r.closed ==> r.prod.Dead?)
  }

  /** What a reader may rely on across a producer step. */
  predicate Grew(r: Ring, r': Ring) {
    && r'.cap == r.cap
    && r.intent <= r'.intent
    && ((r'.frames == r.frames && r'.tail == r.tail)
        || (r'.frames != [] && var f := r'.frames[|r'.frames| - 1];
            r'.frames == r.frames + [f] && f.start == r.tail && LegalFrame(f, r.cap) && r'.tail == f.End()))
  }

  // ------------------------------------------------------------------ the buffer under a store

  /** A payload lane stays inside its record. */
  lemma LaneInRecord(len: nat, k: nat)
    requires k < LaneCount(len)
    ensures 8 + 4 * k <= RecordLen(len)
  {
    var q := (len + 11) / 8;
    assert 4 * k + 4 < 8 * q;
    assert k + 2 <= 2 * q;
  }

  /** The cell of the k-th payload lane. */
  lemma LaneCell(f: Frame, cap: Size, k: nat)
    requires Geometry(cap) && LegalFrame(f, cap) && k < LaneCount(|f.msg|)
    ensures Cell(f.Rec() + (4 + 4 * k), cap) == Cell(f.Rec(), cap) + 1 + k
    ensures (Off(f.Rec(), cap) + HEADER + LANE * k) / LANE == Cell(f.Rec(), cap) + 1 + k
    ensures f.Rec() + (4 + 4 * k) < f.End() && (f.Rec() + (4 + 4 * k)) % 4 == 0
    ensures Cell(f.Rec(), cap) + 1 + k < cap / LANE
  {
    FrameShape(f, cap);
    LaneInRecord(|f.msg|, k);
    FourAligned(f.Rec(), k);
    LaneCellAt(f.Rec(), RecordLen(|f.msg|), cap, k);
  }

  lemma LaneCellAt(rec: nat, len: nat, cap: Size, k: nat)
    requires Geometry(cap) && rec % 8 == 0 && Off(rec, cap) + len <= cap && 8 + 4 * k <= len
    ensures Cell(rec + (4 + 4 * k), cap) == Cell(rec, cap) + 1 + k
    ensures (Off(rec, cap) + 4 + 4 * k) / 4 == Cell(rec, cap) + 1 + k < cap / 4
  {
    OffAligned(rec, cap);
    OffAdd(rec, 4 + 4 * k, cap);
    QuarterShift(Off(rec, cap), k);
    QuarterBelow(Off(rec, cap), k, cap);
  }

  lemma FourAligned(p: nat, k: nat)
    requires p % 8 == 0
    ensures p % 4 == 0 && (p + (4 + 4 * k)) % 4 == 0
  {
  }

  lemma QuarterShift(m: nat, k: nat)
    requires m % 8 == 0
    ensures (m + (4 + 4 * k)) / 4 == m / 4 + 1 + k
  {
  }

  lemma QuarterBelow(m: nat, k: nat, cap: nat)
    requires m % 8 == 0 && cap % 8 == 0 && m + 8 + 4 * k <= cap
    ensures m / 4 + 1 + k < cap / 4
  {
  }

  /** A store below the declared intent at or above the tail never touches a frame in the window. */
  lemma StoreKeepsFrame(r: Ring, f: Frame, q: nat, l: Lane)
    requires Geometry(r.cap) && |r.buf| == r.cap / LANE && LegalFrame(f, r.cap)
    requires q % 4 == 0 && f.End() <= q < r.intent && FrameIntact(r, f)
    ensures FrameIntact(r.(buf := Store(r.buf, Cell(q, r.cap), l)), f)
  {
    FrameShape(f, r.cap);
    if f.start + r.cap >= r.intent && f.pad > 0 {
      OtherCell(f.start, q, r.cap);
      StoreOffHeader(r.buf, Cell(f.start, r.cap), PADDING, Cell(q, r.cap), l);
    }
    if f.Rec() + r.cap >= r.intent {
      OffRecord(f, q, r.cap);
      StoreOffRecord(r.buf, Cell(f.Rec(), r.cap), f.msg, Cell(q, r.cap), l);
    }
  }

  /** A later position less than a lap away lies outside the record's cells. */
  lemma OffRecord(f: Frame, q: nat, cap: Size)
    requires Geometry(cap) && LegalFrame(f, cap) && q % 4 == 0 && f.End() <= q < f.Rec() + cap
    ensures Cell(q, cap) < Cell(f.Rec(), cap) || Cell(q, cap) > Cell(f.Rec(), cap) + LaneCount(|f.msg|)
  {
    FrameShape(f, cap);
    var base, c := Cell(f.Rec(), cap), Cell(q, cap);
    OtherCell(f.Rec(), q, cap);
    if base < c <= base + LaneCount(|f.msg|) {
      var k := c - base - 1;
      LaneCell(f, cap, k);
      OtherCell(f.Rec() + (4 + 4 * k), q, cap);
    }
  }

  lemma StoreOffHeader(buf: seq<Lane>, base: nat, v: nat, c: nat, l: Lane)
    requires HeaderAt(buf, base, v) && c != base
    ensures HeaderAt(Store(buf, c, l), base, v)
  {
  }

  lemma StoreOffRecord(buf: seq<Lane>, base: nat, msg: seq<Byte>, c: nat, l: Lane)
    requires RecordAt(buf, base, msg) && (c < base || c > base + LaneCount(|msg|))
    ensures RecordAt(Store(buf, c, l), base, msg)
  {
    StoreOffLanes(buf, base, msg, LaneCount(|msg|), c, l);
  }

  lemma StoreOffLanes(buf: seq<Lane>, base: nat, msg: seq<Byte>, n: nat, c: nat, l: Lane)
    requires LanesAt(buf, base, msg, n) && (c <= base || c > base + n)
    ensures LanesAt(Store(buf, c, l), base, msg, n)
  {
    var buf' := Store(buf, c, l);
    forall k: nat | k < n ensures buf'[base + 1 + k] == PackLane(msg, k) {
      assert buf[base + 1 + k] == PackLane(msg, k);
    }
  }

  lemma OtherCell(p: nat, q: nat, cap: Size)
    requires Geometry(cap) && p % 4 == 0 && q % 4 == 0 && p < q < p + cap
    ensures Cell(p, cap) != Cell(q, cap)
  {
    if Cell(p, cap) == Cell(q, cap) {
      CellSame(p, q, cap);
    }
  }

  lemma StoreKeepsWindow(r: Ring, q: nat, l: Lane)
    requires Geometry(r.cap) && |r.buf| == r.cap / LANE && Framed(r.frames, r.tail, r.cap) && WindowIntact(r)
    requires q % 4 == 0 && r.tail <= q < r.intent
    ensures WindowIntact(r.(buf := Store(r.buf, Cell(q, r.cap), l)))
  {
    forall i: nat | i < |r.frames|
      ensures FrameIntact(r.(buf := Store(r.buf, Cell(q, r.cap), l)), r.frames[i])
    {
      FramedAll(r.frames, r.tail, r.cap, i);
      StoreKeepsFrame(r, r.frames[i], q, l);
    }
  }

  /** Within one push, distinct lanes have distinct cells, all in range. */
  lemma OwnCells(f: Frame, cap: Size)
    requires Geometry(cap) && LegalFrame(f, cap)
    ensures f.pad > 0 ==> Cell(f.Rec(), cap) + LaneCount(|f.msg|) < Cell(f.start, cap)
    ensures Cell(f.Rec(), cap) + LaneCount(|f.msg|) < cap / LANE
    ensures Cell(f.start, cap) < cap / LANE
    ensures |f.msg| < PADDING
  {
    FrameShape(f, cap);
    CellInRange(f.Rec(), cap);
    CellInRange(f.start, cap);
    if LaneCount(|f.msg|) > 0 {
      LaneCell(f, cap, LaneCount(|f.msg|) - 1);
    }
    if f.pad > 0 {
      PadCell(f, cap);
    }
  }

  /** The padding marker lies beyond the record that wraps to offset zero. */
  lemma PadCell(f: Frame, cap: Size)
    requires Geometry(cap) && LegalFrame(f, cap) && f.pad > 0
    ensures Cell(f.Rec(), cap) == 0 && LaneCount(|f.msg|) < Cell(f.start, cap)
  {
    FrameShape(f, cap);
    OffAligned(f.start, cap);
    SpanBelowCapacity(cap);
    assert RecordLen(|f.msg|) <= Off(f.start, cap);
    LanesFitRecord(|f.msg|);
  }

  lemma LanesFitRecord(len: nat)
    ensures 4 + 4 * LaneCount(len) <= RecordLen(len)
  {
    var q, n := (len + 11) / 8, (len + 3) / 4;
    assert 4 * n <= len + 3 && len + 4 <= 8 * q;
    assert n + 1 <= 2 * q;
  }

  // ------------------------------------------------------------------ producer steps

  lemma NewFrameLegal(r: Ring, msg: seq<Byte>)
    requires RingInv(r) && |msg| <= MaxMessageLen(r.cap)
    ensures LegalFrame(NewFrame(r.tail, msg, r.cap), r.cap)
  {
    FramedAligned(r.frames, r.tail, r.cap);
  }

  lemma DeclareKeeps(r: Ring, msg: seq<Byte>)
    requires RingInv(r)
    ensures RingInv(Declare(r, msg)) && Grew(r, Declare(r, msg))
  {
    if r.prod.Ready? && |msg| <= MaxMessageLen(r.cap) {
      NewFrameLegal(r, msg);
      var f := NewFrame(r.tail, msg, r.cap);
      FrameShape(f, r.cap);
      SameFrames(r, Declare(r, msg));
    }
  }

  lemma ProduceKeeps(r: Ring)
    requires RingInv(r)
    ensures RingInv(Produce(r)) && Grew(r, Produce(r))
  {
    if r.prod.Writing? {
      var f := NewFrame(r.prod.next, r.prod.msg, r.cap);
      NewFrameLegal(r, r.prod.msg);
      match r.prod.stage
      case PadDue => PadKeeps(r, f);
      case HeaderDue => HeaderKeeps(r, f);
      case LaneDue(k) => LaneKeeps(r, f, k);
      case LatestDue => LatestKeeps(r, f);
      case TailDue => CommitKeeps(r, f);
    }
  }

  predicate Pushing(r: Ring, f: Frame) {
    RingInv(r) && r.prod.Writing? && f == NewFrame(r.prod.next, r.prod.msg, r.cap) && LegalFrame(f, r.cap)
  }

  /** One lane store of a push: everything but the push's own progress is unaffected. */
  lemma StoreStep(r: Ring, f: Frame, q: nat, c: nat, l: Lane, stage: Stage, r': Ring)
    requires Pushing(r, f) && q % 4 == 0 && r.tail <= q < f.End() && c == Cell(q, r.cap)
    requires r' == r.(buf := Store(r.buf, c, l), prod := r.prod.(stage := stage))
    requires StageOk(r', f, stage)
    ensures RingInv(r') && Grew(r, r')
  {
    StoreKeepsWindow(r, q, l);
    SameFrames(r.(buf := Store(r.buf, c, l)), r');
  }

  lemma PadKeeps(r: Ring, f: Frame)
    requires Pushing(r, f) && r.prod.stage.PadDue?
    ensures RingInv(Produce(r)) && Grew(r, Produce(r))
  {
    FrameShape(f, r.cap);
    OwnCells(f, r.cap);
    StoreStep(r, f, f.start, Cell(f.start, r.cap), PADDING, HeaderDue, Produce(r));
  }

  lemma HeaderKeeps(r: Ring, f: Frame)
    requires Pushing(r, f) && r.prod.stage.HeaderDue?
    ensures RingInv(Produce(r)) && Grew(r, Produce(r))
  {
    FrameShape(f, r.cap);
    OwnCells(f, r.cap);
    HeaderStaged(r.buf, r.cap, f, Cell(f.start, r.cap), Cell(f.Rec(), r.cap));
    StoreStep(r, f, f.Rec(), Cell(f.Rec(), r.cap), |f.msg|, FirstLane(|f.msg|), Produce(r));
  }

  lemma HeaderStaged(buf: seq<Lane>, cap: Size, f: Frame, pad: nat, base: nat)
    requires base + LaneCount(|f.msg|) < |buf| && |f.msg| <= PADDING
    requires f.pad > 0 ==> HeaderAt(buf, pad, PADDING) && pad != base
    ensures var buf' := Store(buf, base, |f.msg|);
      && (f.pad > 0 ==> HeaderAt(buf', pad, PADDING))
      && HeaderAt(buf', base, |f.msg|) && LanesAt(buf', base, f.msg, 0)
  {
  }

  function AfterLane(f: Frame, k: nat): Stage {
    if k + 1 < LaneCount(|f.msg|) then LaneDue(k + 1) else LatestDue
  }

  lemma LaneKeeps(r: Ring, f: Frame, k: nat)
    requires Pushing(r, f) && r.prod.stage == LaneDue(k)
    ensures RingInv(Produce(r)) && Grew(r, Produce(r))
  {
    LaneStored(r.buf, r.cap, f, k);
    ProduceLane(r, f, k);
    LaneAdvance(r, f, k, Produce(r));
  }

  lemma LaneAdvance(r: Ring, f: Frame, k: nat, r': Ring)
    requires Pushing(r, f) && k < LaneCount(|f.msg|)
    requires r' == r.(buf := Store(r.buf, Cell(f.Rec(), r.cap) + 1 + k, PackLane(f.msg, k)),
                      prod := r.prod.(stage := AfterLane(f, k)))
    requires PadIntact(r'.buf, r.cap, f) && HeaderAt(r'.buf, Cell(f.Rec(), r.cap), |f.msg|)
    requires LanesAt(r'.buf, Cell(f.Rec(), r.cap), f.msg, k + 1)
    ensures RingInv(r') && Grew(r, r')
  {
    LaneCell(f, r.cap, k);
    StoreStep(r, f, f.Rec() + (4 + 4 * k), Cell(f.Rec(), r.cap) + 1 + k, PackLane(f.msg, k), AfterLane(f, k), r');
  }

  lemma LaneStored(buf: seq<Lane>, cap: Size, f: Frame, k: nat)
    requires Geometry(cap) && LegalFrame(f, cap) && |buf| == cap / LANE && k < LaneCount(|f.msg|)
    requires PadIntact(buf, cap, f) && HeaderAt(buf, Cell(f.Rec(), cap), |f.msg|)
    requires LanesAt(buf, Cell(f.Rec(), cap), f.msg, k)
    ensures var base := Cell(f.Rec(), cap); var buf' := Store(buf, base + 1 + k, PackLane(f.msg, k));
      PadIntact(buf', cap, f) && HeaderAt(buf', base, |f.msg|) && LanesAt(buf', base, f.msg, k + 1)
  {
    OwnCells(f, cap);
    LaneStaged(buf, f, k, Cell(f.start, cap), Cell(f.Rec(), cap));
  }

  lemma ProduceLane(r: Ring, f: Frame, k: nat)
    requires Geometry(r.cap) && LegalFrame(f, r.cap) && k < LaneCount(|f.msg|)
    requires r.prod.Writing? && f == NewFrame(r.prod.next, r.prod.msg, r.cap) && r.prod.stage == LaneDue(k)
    ensures Produce(r) == r.(buf := Store(r.buf, Cell(f.Rec(), r.cap) + 1 + k, PackLane(f.msg, k)),
                             prod := r.prod.(stage := AfterLane(f, k)))
  {
    LaneCell(f, r.cap, k);
  }

  lemma LaneStaged(buf: seq<Lane>, f: Frame, k: nat, pad: nat, base: nat)
    requires base + LaneCount(|f.msg|) < |buf| && k < LaneCount(|f.msg|)
    requires f.pad > 0 ==> HeaderAt(buf, pad, PADDING) && pad > base + LaneCount(|f.msg|)
    requires HeaderAt(buf, base, |f.msg|) && LanesAt(buf, base, f.msg, k)
    ensures var buf' := Store(buf, base + 1 + k, PackLane(f.msg, k));
      && (f.pad > 0 ==> HeaderAt(buf', pad, PADDING))
      && HeaderAt(buf', base, |f.msg|) && LanesAt(buf', base, f.msg, k + 1)
  {
    StoreOffLanes(buf, base, f.msg, k, base + 1 + k, PackLane(f.msg, k));
  }

  /** The window depends on the buffer, the intent and the frames only. */
  lemma SameFrames(r: Ring, r': Ring)
    requires WindowIntact(r) && r'.cap == r.cap && r'.buf == r.buf && r'.frames == r.frames && r'.intent >= r.intent
    ensures WindowIntact(r')
  {
    forall i: nat | i < |r'.frames| ensures FrameIntact(r', r'.frames[i]) {
      assert FrameIntact(r, r.frames[i]);
    }
  }

  lemma LatestKeeps(r: Ring, f: Frame)
    requires Pushing(r, f) && r.prod.stage.LatestDue?
    ensures RingInv(Produce(r)) && Grew(r, Produce(r))
  {
    FrameShape(f, r.cap);
    SameFrames(r, Produce(r));
  }

  lemma CommitKeeps(r: Ring, f: Frame)
    requires Pushing(r, f) && r.prod.stage.TailDue?
    ensures RingInv(Produce(r)) && Grew(r, Produce(r))
  {
    FrameShape(f, r.cap);
    FramedAppend(r.frames, r.tail, r.cap, f);
    BoundaryGrows(r.frames, r.tail, r.cap, f, r.latest);
    var r' := Produce(r);
    forall i: nat | i < |r'.frames| ensures FrameIntact(r', r'.frames[i]) {
      if i < |r.frames| {
        assert FrameIntact(r, r.frames[i]);
      }
    }
  }

  lemma AttachKeeps(r: Ring)
    requires RingInv(r)
    ensures RingInv(Attach(r)) && Grew(r, Attach(r))
  {
    FramedAligned(r.frames, r.tail, r.cap);
    MaxRecordFits(r.cap);
    SameFrames(r, Attach(r));
  }

  lemma StopKeeps(r: Ring)
    requires RingInv(r)
    ensures RingInv(Close(r)) && Grew(r, Close(r)) && RingInv(Crash(r)) && Grew(r, Crash(r))
  {
    SameFrames(r, Close(r));
    SameFrames(r, Crash(r));
  }

  lemma NewRingOk(cap: Size)
    requires Geometry(cap)
    ensures RingInv(NewRing(cap))
  {
    MaxRecordFits(cap);
  }
}
