/** The lossy byte ring's handles as they are written: a push with its lane copy, and a consumer's pops
    with their parse-and-recheck loop. */
module BytesHandles {
  import opened Framing
  import opened BytesRing
  import opened BytesProof
  import opened BytesReaders
  import opened BytesPops
  import opened LaneCopy

  class SharedBytes {
    const cap: Size
    const buf: array<Lane>
    var intent: nat
    var latest: nat
    var tail: nat
    var closed: bool
    ghost var frames: seq<Frame>

    constructor (cap: Size)
      requires LegalCapacity(cap)
      ensures this.cap == cap && fresh(buf) && View(Ready(0, 0)) == NewRing(cap) && RingInv(View(Ready(0, 0)))
    {
      this.cap := cap;
      intent, latest, tail, closed, frames := 0, 0, 0, false, [];
      buf := new Lane[cap / LANE](_ => 0);
      new;
      assert buf[..] == NewRing(cap).buf;
      LegalCapacityIsAligned(cap);
      NewRingOk(cap);
    }

    /** The machine state, given where the producer stands. */
    ghost function View(prod: Producer): Ring
      reads this, buf
    {
      Ring(cap, buf[..], intent, latest, tail, closed, frames, prod)
    }

    /** Whatever the producer, its death or its successors do between two loads of a reader. A caller knows
        this contract only, so it is proved against every behaviour within it, and `StepIsKept` puts every
        step of the machine within it. When `quiet`, nobody moves. */
    method Others(ghost prod: Producer, ghost quiet: bool) returns (ghost now: Producer)
      requires RingInv(View(prod))
      modifies this, buf
      ensures RingInv(View(now)) && Kept(old(View(prod)), View(now))
      ensures quiet ==> View(now) == old(View(prod))
    {
      now := prod;
    }
  }

  /** What a reader relies on over any stretch of steps: the stream only grows, and what is known about a
      reader stays true. */
  ghost predicate Kept(r: Ring, r': Ring) { Grown(r, r') && forall a: Reader :: StillKnown(r, r', a) }

  predicate Grown(r: Ring, r': Ring) {
    r'.cap == r.cap && r.intent <= r'.intent && r.tail <= r'.tail && r.frames <= r'.frames
  }

  predicate StillKnown(r: Ring, r': Ring, a: Reader) { ReaderInv(r, a) ==> ReaderInv(r', a) }

  /** Every step of the machine that is not a reader's is within the rely. */
  lemma StepIsKept(r: Ring, act: Action)
    requires RingInv(r)
    ensures var r' := Apply(System(r, []), act).ring; RingInv(r') && Kept(r, r')
  {
    StepGrew(r, act);
    GrewIsKept(r, Apply(System(r, []), act).ring);
  }

  lemma StepGrew(r: Ring, act: Action)
    requires RingInv(r)
    ensures var r' := Apply(System(r, []), act).ring; RingInv(r') && Grew(r, r')
  {
    match act
    case DoDeclare(msg) => DeclareKeeps(r, msg);
    case DoProduce => ProduceKeeps(r);
    case DoClose => StopKeeps(r);
    case DoCrash => StopKeeps(r);
    case DoAttach => AttachKeeps(r);
    case _ =>
  }

  lemma GrewIsKept(r: Ring, r': Ring)
    requires RingInv(r) && Grew(r, r')
    ensures Kept(r, r')
  {
    forall a: Reader ensures StillKnown(r, r', a) {
      if ReaderInv(r, a) {
        ReaderGrew(r, r', a);
      }
    }
  }

  /** A pop that began at a0 on the ring r0 and stands at a on the ring r. */
  predicate Midway(r0: Ring, a0: Reader, r: Ring, a: Reader, quiet: bool) {
    RingInv(r) && Grown(r0, r) && ReaderInv(r, a) && (quiet ==> r == r0 && Mid(r, a0, a))
  }

  lemma Advance(r0: Ring, a0: Reader, r: Ring, a: Reader, quiet: bool)
    requires Midway(r0, a0, r, a, quiet)
    ensures Midway(r0, a0, r, ReadStep(r, a), quiet)
  {
    ReadKeeps(r, a);
    if quiet {
      MidStep(r, a0, a);
    }
  }

  lemma Overtaken(r0: Ring, a0: Reader, r: Ring, r': Ring, a: Reader, quiet: bool)
    requires Midway(r0, a0, r, a, quiet) && RingInv(r') && Kept(r, r') && (quiet ==> r' == r)
    ensures Midway(r0, a0, r', a, quiet)
  {
    assert StillKnown(r, r', a);
  }

  lemma PopBegins(r: Ring, a: Reader, quiet: bool)
    requires RingInv(r) && ReaderInv(r, a) && a.pc.Idle?
    ensures Midway(r, a, r, BeginPop(a), quiet)
  {
    PopKeeps(r, a);
  }

  // ------------------------------------------------------------------ the lane copy as machine steps

  /** Lane stores run to the end of the payload. */
  function RunLanes(r: Ring): Ring
    requires r.prod.Writing?
    decreases if r.prod.stage.LaneDue? then LaneCount(|r.prod.msg|) - r.prod.stage.k else 0
  {
    if r.prod.stage.LaneDue? && r.prod.stage.k < LaneCount(|r.prod.msg|) then RunLanes(Produce(r)) else r
  }

  /** Where lane stores stand: payload lanes below `k` are in place. */
  function NextLane(r: Ring): nat
    requires r.prod.Writing?
  {
    if r.prod.stage.LaneDue? then r.prod.stage.k else LaneCount(|r.prod.msg|)
  }

  /** `buf` is the buffer of r with the payload lanes from k on copied in at `base`. */
  predicate CopiedFrom(r: Ring, buf: seq<Lane>, msg: seq<Byte>, base: nat, k: nat) {
    && |buf| == |r.buf| && LanesAt(buf, base, msg, LaneCount(|msg|))
    && forall i: nat | i < |buf| && !(base + 1 + k <= i < base + 1 + LaneCount(|msg|)) :: buf[i] == r.buf[i]
  }

  lemma LaneRun(r: Ring, buf: seq<Lane>, msg: seq<Byte>, base: nat, k: nat)
    requires CopiedFrom(r, buf, msg, base, k) && k < LaneCount(|msg|)
    ensures CopiedFrom(r.(buf := Store(r.buf, base + 1 + k, PackLane(msg, k))), buf, msg, base, k + 1)
  {
    assert buf[base + 1 + k] == PackLane(msg, k);
  }

  /** Running the lane stores to the end gives r with the whole payload in place. */
  lemma {:induction false} LanesRun(r: Ring, f: Frame, buf: seq<Lane>)
    requires Geometry(r.cap) && r.prod.Writing? && LegalFrame(f, r.cap)
    requires f == NewFrame(r.prod.next, r.prod.msg, r.cap)
    requires r.prod.stage.LatestDue? || (r.prod.stage.LaneDue? && r.prod.stage.k < LaneCount(|f.msg|))
    requires CopiedFrom(r, buf, f.msg, Cell(f.Rec(), r.cap), NextLane(r))
    ensures RunLanes(r) == r.(buf := buf, prod := r.prod.(stage := LatestDue))
    decreases LaneCount(|r.prod.msg|) - NextLane(r)
  {
    if r.prod.stage.LaneDue? {
      var k := r.prod.stage.k;
      ProduceLane(r, f, k);
      LaneRun(r, buf, f.msg, Cell(f.Rec(), r.cap), k);
      LanesRun(Produce(r), f, buf);
    } else {
      assert buf == r.buf;
    }
  }

  lemma {:induction false} RunLanesKeeps(r: Ring)
    requires RingInv(r) && r.prod.Writing?
    ensures RingInv(RunLanes(r))
    decreases LaneCount(|r.prod.msg|) - NextLane(r)
  {
    if r.prod.stage.LaneDue? && r.prod.stage.k < LaneCount(|r.prod.msg|) {
      ProduceKeeps(r);
      RunLanesKeeps(Produce(r));
    }
  }

  /** A payload about to be written has its cells inside the buffer. */
  lemma PayloadFits(r: Ring, msg: seq<Byte>)
    requires RingInv(r) && r.prod.Writing? && r.prod.msg == msg
    ensures var f := NewFrame(r.prod.next, msg, r.cap);
      LegalFrame(f, r.cap) && Cell(f.Rec(), r.cap) + 1 + LaneCount(|msg|) <= |r.buf| && |msg| < PADDING
      && Cell(f.start, r.cap) < |r.buf|
  {
    NewFrameLegal(r, msg);
    OwnCells(NewFrame(r.prod.next, msg, r.cap), r.cap);
  }

  lemma PayloadRoom(r: Ring, rec: nat)
    requires RingInv(r) && r.prod.Writing? && rec == r.prod.next + PadFor(r.prod.next, |r.prod.msg|, r.cap)
    ensures Off(rec, r.cap) / LANE + 1 + LaneCount(|r.prod.msg|) <= |r.buf|
  {
    PayloadFits(r, r.prod.msg);
  }

  lemma PayloadCopied(r: Ring, rec: nat, buf: seq<Lane>, base: nat)
    requires RingInv(r) && r.prod.Writing? && r.prod.stage == FirstLane(|r.prod.msg|)
    requires rec == r.prod.next + PadFor(r.prod.next, |r.prod.msg|, r.cap) && base == Off(rec, r.cap) / LANE + 1
    requires |buf| == |r.buf| && Packed(buf, base, r.prod.msg) && buf[..base] == r.buf[..base]
    requires buf[base + LaneCount(|r.prod.msg|)..] == r.buf[base + LaneCount(|r.prod.msg|)..]
    ensures RunLanes(r) == r.(buf := buf, prod := r.prod.(stage := LatestDue)) && RingInv(RunLanes(r))
  {
    PayloadFits(r, r.prod.msg);
    CopiedShape(r, buf, r.prod.msg, base);
    RecordCell(r.prod, r.cap, rec);
    FirstIsZero(r);
    LanesRunAt(r, NewFrame(r.prod.next, r.prod.msg, r.cap), buf, base - 1);
  }

  lemma RecordCell(p: Producer, cap: Size, rec: nat)
    requires p.Writing? && rec == p.next + PadFor(p.next, |p.msg|, cap)
    ensures var f := NewFrame(p.next, p.msg, cap); f.msg == p.msg && Cell(f.Rec(), cap) == Off(rec, cap) / LANE
  {
  }

  lemma FirstIsZero(r: Ring)
    requires r.prod.Writing? && r.prod.stage == FirstLane(|r.prod.msg|)
    ensures (r.prod.stage.LaneDue? || r.prod.stage.LatestDue?) && NextLane(r) == 0
  {
  }

  lemma LanesRunAt(r: Ring, f: Frame, buf: seq<Lane>, base: nat)
    requires RingInv(r) && r.prod.Writing? && f == NewFrame(r.prod.next, r.prod.msg, r.cap) && LegalFrame(f, r.cap)
    requires r.prod.stage.LaneDue? || r.prod.stage.LatestDue?
    requires base == Cell(f.Rec(), r.cap) && NextLane(r) == 0 && CopiedFrom(r, buf, f.msg, base, 0)
    ensures RunLanes(r) == r.(buf := buf, prod := r.prod.(stage := LatestDue)) && RingInv(RunLanes(r))
  {
    LanesRun(r, f, buf);
    RunLanesKeeps(r);
  }

  lemma CopiedShape(r: Ring, buf: seq<Lane>, msg: seq<Byte>, base: nat)
    requires base > 0 && |buf| == |r.buf| && Packed(buf, base, msg) && buf[..base] == r.buf[..base]
    requires buf[base + LaneCount(|msg|)..] == r.buf[base + LaneCount(|msg|)..]
    ensures CopiedFrom(r, buf, msg, base - 1, 0)
  {
    PackedAt(buf, base - 1, msg);
    OutsideSame(buf, r.buf, base, base + LaneCount(|msg|));
  }

  lemma OutsideSame(a: seq<Lane>, b: seq<Lane>, lo: nat, hi: nat)
    requires |a| == |b| && lo <= hi <= |a| && a[..lo] == b[..lo] && a[hi..] == b[hi..]
    ensures forall i: nat | i < |a| && !(lo <= i < hi) :: a[i] == b[i]
  {
    forall i: nat | i < |a| && !(lo <= i < hi) ensures a[i] == b[i] {
      if i < lo {
        assert a[..lo][i] == b[..lo][i];
      } else {
        assert a[hi..][i - hi] == b[hi..][i - hi];
      }
    }
  }

  lemma PackedAt(buf: seq<Lane>, base: nat, msg: seq<Byte>)
    requires Packed(buf, base + 1, msg)
    ensures base < |buf| ==> LanesAt(buf, base, msg, LaneCount(|msg|))
  {
    forall k: nat | k < LaneCount(|msg|) ensures buf[base + 1 + k] == PackLane(msg, k) {
    }
  }

  lemma HeaderProduced(r: Ring, rec: nat)
    requires RingInv(r) && r.prod.Writing? && r.prod.stage.HeaderDue?
    requires rec == r.prod.next + PadFor(r.prod.next, |r.prod.msg|, r.cap)
    ensures |r.prod.msg| < PADDING && Off(rec, r.cap) / LANE < |r.buf|
    ensures var r' := r.(buf := r.buf[Off(rec, r.cap) / LANE := |r.prod.msg|],
                         prod := r.prod.(stage := FirstLane(|r.prod.msg|)));
      r' == Produce(r) && RingInv(r')
  {
    PayloadFits(r, r.prod.msg);
    ProduceKeeps(r);
  }

  // ------------------------------------------------------------------ producer

  lemma NextPlaces(r: Ring, msg: seq<Byte>)
    requires RingInv(r) && r.prod.Ready? && |msg| <= MaxMessageLen(r.cap)
    ensures var f := NewFrame(r.prod.next, msg, r.cap); var record := f.End() - f.Rec();
      && f.start == r.tail && f.msg == msg && f.Rec() == f.start + f.pad
      && record % 8 == 0 && 4 + |msg| <= record < 12 + |msg|
      && (f.pad == 0 <==> f.start % r.cap + record <= r.cap)
      && (f.pad > 0 ==> f.start % r.cap + f.pad == r.cap)
  {
    FramedAligned(r.frames, r.tail, r.cap);
    FramePlace(r.tail, msg, r.cap);
  }

  class BytesProducer {
    const ring: SharedBytes
    var next: nat
    var floor: nat

    /** Sound, open, and between pushes. */
    ghost predicate Valid()
      reads this, ring, ring.buf
    {
      RingInv(ring.View(Ready(next, floor))) && !ring.closed
    }

    /** Attaching heals `latest` and floors the intent. */
    constructor (ring: SharedBytes)
      requires RingInv(ring.View(Opened)) && !ring.closed
      modifies ring`latest
      ensures Valid() && this.ring == ring && next == ring.tail && floor == Max(ring.intent, ring.tail)
      ensures ring.latest == if ring.intent != ring.tail then ring.tail else old(ring.latest)
    {
      this.ring := ring;
      next, floor := ring.tail, Max(ring.intent, ring.tail);
      new;
      ghost var v := ring.View(Opened);
      AttachKeeps(v);
      if ring.intent != ring.tail {
        ring.latest := ring.tail;
      }
      ghost var w := ring.View(Healed);
      assert w == Attach(v);
      AttachKeeps(w);
      assert ring.View(Ready(next, floor)) == Attach(w);
    }

    /** Refused, with nothing stored, exactly when longer than an eighth of the ring or not shorter than the
        marker's value. Otherwise one more frame is committed at the tail: a header and the payload in the
        least multiple of eight bytes that holds them, directly if they fit before the end of the buffer and
        behind padding up to the end if not. `latest` is the record, the tail its end, the intent the tail or
        what a predecessor had declared beyond it. */
    method Push(msg: seq<Byte>) returns (ok: bool)
      requires Valid()
      modifies this`next, ring, ring.buf
      ensures Valid() && (ok <==> 8 * |msg| <= ring.cap && |msg| < PADDING)
      ensures ok ==> ring.frames == old(ring.frames) + [NewFrame(old(next), msg, ring.cap)] && next == ring.tail
      ensures ok ==> var f, record := ring.frames[|ring.frames| - 1], ring.tail - ring.latest;
        && f.start == old(ring.tail) && f.msg == msg && ring.latest == f.start + f.pad
        && record % 8 == 0 && 4 + |msg| <= record < 12 + |msg|
        && (f.pad == 0 <==> f.start % ring.cap + record <= ring.cap)
        && (f.pad > 0 ==> f.start % ring.cap + f.pad == ring.cap)
      ensures ok ==> ring.tail <= ring.intent && floor <= ring.intent
      ensures ok ==> ring.intent == ring.tail || ring.intent == floor
      ensures !ok ==> next == old(next) && ring.View(Ready(next, floor)) == old(ring.View(Ready(next, floor)))
      ensures Grew(old(ring.View(Ready(next, floor))), ring.View(Ready(next, floor)))
    {
      if |msg| > MaxMessageLen(ring.cap) {
        LengthsAre(ring.cap, |msg|);
        return false;
      }
      LengthsAre(ring.cap, |msg|);
      NewFrameLegal(ring.View(Ready(next, floor)), msg);
      NextPlaces(ring.View(Ready(next, floor)), msg);
      StoreFrame(msg);
      ok := true;
    }

    /** Intent, then the bytes, then the two published counters. */
    method StoreFrame(msg: seq<Byte>)
      requires Valid() && |msg| <= MaxMessageLen(ring.cap)
      modifies this`next, ring, ring.buf
      ensures Valid() && ring.frames == old(ring.frames) + [NewFrame(old(next), msg, ring.cap)] && next == ring.tail
      ensures var f := NewFrame(old(next), msg, ring.cap); ring.latest == f.Rec() && ring.tail == f.End()
      ensures ring.intent >= old(ring.intent)
    {
      var pad, total := Plan(|msg|);
      DeclareIntent(msg, pad, next + total);
      WriteRecord(msg, pad);
      Commit(msg, next + pad, next + total);
    }

    /** The marker, if the record wraps, then the header and the payload. */
    method WriteRecord(msg: seq<Byte>, pad: nat)
      requires RingInv(Stands(msg, if pad > 0 then PadDue else HeaderDue)) && pad == PadFor(next, |msg|, ring.cap)
      modifies ring.buf
      ensures RingInv(Stands(msg, LatestDue))
    {
      if pad > 0 {
        WritePad(msg);
      }
      WriteHeader(msg, next + pad);
      WritePayload(msg, next + pad);
    }

    /** Records never wrap: pad to the end when this one does not fit before it. */
    method Plan(len: nat) returns (pad: nat, total: nat)
      ensures pad == PadFor(next, len, ring.cap) && total == pad + RecordLen(len)
    {
      var record := RecordLen(len);
      var toEnd := ring.cap - Off(next, ring.cap);
      pad, total := 0, record;
      if record > toEnd {
        pad, total := toEnd, toEnd + record;
      }
    }

    ghost function Stands(msg: seq<Byte>, stage: Stage): Ring
      reads this, ring, ring.buf
    {
      ring.View(Writing(next, floor, msg, stage))
    }

    method DeclareIntent(msg: seq<Byte>, pad: nat, newTail: nat)
      requires Valid() && |msg| <= MaxMessageLen(ring.cap)
      requires pad == PadFor(next, |msg|, ring.cap) && newTail == next + pad + RecordLen(|msg|)
      modifies ring`intent
      ensures RingInv(Stands(msg, if pad > 0 then PadDue else HeaderDue)) && ring.intent >= old(ring.intent)
    {
      ghost var v := ring.View(Ready(next, floor));
      DeclareKeeps(v, msg);
      ring.intent := Max(newTail, floor);
      assert Stands(msg, if pad > 0 then PadDue else HeaderDue) == Declare(v, msg);
    }

    method WritePad(msg: seq<Byte>)
      requires RingInv(Stands(msg, PadDue))
      modifies ring.buf
      ensures RingInv(Stands(msg, HeaderDue))
    {
      ghost var v := Stands(msg, PadDue);
      PayloadFits(v, msg);
      ProduceKeeps(v);
      ring.buf[Off(next, ring.cap) / LANE] := PADDING;
      assert Stands(msg, HeaderDue) == Produce(v);
    }

    method WriteHeader(msg: seq<Byte>, rec: nat)
      requires RingInv(Stands(msg, HeaderDue)) && rec == next + PadFor(next, |msg|, ring.cap)
      modifies ring.buf
      ensures RingInv(Stands(msg, FirstLane(|msg|)))
    {
      ghost var v := Stands(msg, HeaderDue);
      HeaderProduced(v, rec);
      ring.buf[Off(rec, ring.cap) / LANE] := |msg|;
      assert ring.buf[..] == v.buf[Off(rec, ring.cap) / LANE := |msg|];
    }

    /** The bulk copy stores exactly what the machine's lane steps would. */
    method WritePayload(msg: seq<Byte>, rec: nat)
      requires RingInv(Stands(msg, FirstLane(|msg|))) && rec == next + PadFor(next, |msg|, ring.cap)
      modifies ring.buf
      ensures RingInv(Stands(msg, LatestDue)) && Stands(msg, LatestDue) == RunLanes(old(Stands(msg, FirstLane(|msg|))))
    {
      ghost var v := Stands(msg, FirstLane(|msg|));
      PayloadRoom(v, rec);
      var base := Off(rec, ring.cap) / LANE + 1;
      CopyPayload(msg, base, v.buf);
      PayloadCopied(v, rec, ring.buf[..], base);
      assert Stands(msg, LatestDue) == RunLanes(v);
    }

    method CopyPayload(msg: seq<Byte>, base: nat, ghost before: seq<Lane>)
      requires base + LaneCount(|msg|) <= ring.buf.Length && before == ring.buf[..]
      modifies ring.buf
      ensures var after := ring.buf[..]; var end := base + LaneCount(|msg|);
        && |after| == |before| && Packed(after, base, msg)
        && after[..base] == before[..base] && after[end..] == before[end..]
    {
      CopyInLanes(msg, ring.buf, base);
    }

    /** `latest` first, the tail last. */
    method Commit(msg: seq<Byte>, rec: nat, newTail: nat)
      requires RingInv(Stands(msg, LatestDue)) && !ring.closed
      requires var f := NewFrame(next, msg, ring.cap); rec == f.Rec() && newTail == f.End()
      modifies this`next, ring`latest, ring`tail, ring`frames
      ensures Valid() && next == ring.tail == newTail && ring.latest == rec
      ensures ring.frames == old(ring.frames) + [NewFrame(old(next), msg, ring.cap)]
    {
      ghost var v := Stands(msg, LatestDue);
      ghost var f := NewFrame(next, msg, ring.cap);
      ProduceKeeps(v);
      ring.latest := rec;
      ghost var w := Stands(msg, TailDue);
      assert w == Produce(v);
      ProduceKeeps(w);
      ring.tail := newTail;
      ring.frames := ring.frames + [f];
      next := newTail;
      assert ring.View(Ready(next, floor)) == Produce(w);
    }

    method Close()
      requires Valid()
      modifies ring`closed
      ensures ring.closed && RingInv(ring.View(Dead))
    {
      ghost var v := ring.View(Ready(next, floor));
      StopKeeps(v);
      ring.closed := true;
      assert ring.View(Dead) == BytesRing.Close(v);
    }
  }

  // ------------------------------------------------------------------ consumer

  /** The next lane of a copy lies inside the buffer. */
  lemma LaneInRange(off: nat, have: nat, len: nat, cap: Size)
    requires Geometry(cap) && off + RecordLen(len) <= cap && have < len
    ensures (off + HEADER + have) / LANE < cap / LANE
  {
    assert off + 4 + have < cap;
  }

  lemma LaneLoaded(r: Ring, a: Reader, c: nat, len: nat, out: seq<Byte>)
    requires Geometry(r.cap) && |r.buf| == r.cap / LANE && Off(c, r.cap) + RecordLen(len) <= r.cap
    requires a.pc == CopyDue(c, len, out) && |out| < len
    ensures var i := (Off(c, r.cap) + HEADER + |out|) / LANE;
      i < |r.buf| && ReadStep(r, a) == a.(pc := CopyDue(c, len, Extend(out, len, r.buf[i])))
  {
    LaneInRange(Off(c, r.cap), |out|, len, r.cap);
  }

  /** One lane more. */
  lemma LaneStep(r0: Ring, a0: Reader, r: Ring, a: Reader, c: nat, len: nat, out: seq<Byte>, i: nat, quiet: bool)
    requires Midway(r0, a0, r, a, quiet) && a.pc == CopyDue(c, len, out) && |out| < len
    requires i == (Off(c, r.cap) + HEADER + |out|) / LANE
    ensures i < |r.buf| && Midway(r0, a0, r, a.(pc := CopyDue(c, len, Extend(out, len, r.buf[i]))), quiet)
  {
    Advance(r0, a0, r, a, quiet);
    LaneLoaded(r, a, c, len, out);
  }

  /** The tail is looked at again after the flag. */
  lemma DrainStep(r0: Ring, a0: Reader, r: Ring, a: Reader, quiet: bool)
    requires Midway(r0, a0, r, a, quiet) && a.pc.DrainDue?
    ensures r.tail <= a.pos ==>
      Midway(r0, a0, r, a.(tailCache := r.tail, pc := Idle, log := a.log + [Shut]), quiet)
    ensures r.tail > a.pos ==> Midway(r0, a0, r, a.(tailCache := r.tail, pc := WindowDue(a.pos)), quiet)
  {
    Advance(r0, a0, r, a, quiet);
  }

  predicate ChecksWindow(pc: ReadPc) {
    pc.WindowDue? || pc.SkipCheckDue? || (pc.CopyDue? && |pc.out| == pc.len)
  }

  /** What follows a window check passed; an accepted copy is looked at where it is committed. */
  function Passed(pc: ReadPc, cap: Size): ReadPc {
    match pc
    case WindowDue(c) => LengthDue(c)
    case SkipCheckDue(c) => WindowDue(c + (cap - Off(c, cap)))
    case _ => pc
  }

  lemma WindowStep(r0: Ring, a0: Reader, r: Ring, a: Reader, quiet: bool)
    requires Midway(r0, a0, r, a, quiet) && ChecksWindow(a.pc)
    ensures Midway(r0, a0, r, a.(pc := if Lapped(r, a.pos) then ReloadDue else Passed(a.pc, r.cap)), quiet)
  {
    if Lapped(r, a.pos) || !a.pc.CopyDue? {
      Advance(r0, a0, r, a, quiet);
    }
  }

  /** Genuine padding only ever lies at the reader's own position. */
  lemma PaddingIsFirst(r: Ring, a: Reader, cursor: nat)
    requires ReaderInv(r, a) && a.pc == SkipCheckDue(cursor) && !Lapped(r, a.pos)
    ensures cursor == a.pos && Off(cursor, r.cap) < r.cap
  {
  }

  function Accepting(a: Reader, end: nat, out: seq<Byte>): Reader {
    a.(pos := end, pc := Idle, log := a.log + [Got(a.pos, end, out)])
  }

  /** The copy is accepted; `b` is the same reader between pops. */
  lemma AcceptStep(r0: Ring, a0: Reader, r: Ring, b: Reader, c: nat, len: nat, out: seq<Byte>, quiet: bool)
    requires Midway(r0, a0, r, b.(pc := CopyDue(c, len, out)), quiet) && b.pc.Idle?
    requires |out| == len && !Lapped(r, b.pos)
    ensures var end := c + RecordLen(len);
      Midway(r0, a0, r, Accepting(b, end, out), quiet) && Delivered(r.frames, r.tail, b.pos, end, out)
  {
    var end := c + RecordLen(len);
    var a := b.(pc := CopyDue(c, len, out));
    AcceptIs(r, a, c, len, out);
    Advance(r0, a0, r, a, quiet);
    assert Accepting(a, end, out) == Accepting(b, end, out);
    GotIsDelivered(r, b, Accepting(b, end, out), end, out);
  }

  lemma AcceptIs(r: Ring, a: Reader, c: nat, len: nat, out: seq<Byte>)
    requires a.pc == CopyDue(c, len, out) && |out| == len && !Lapped(r, a.pos)
    ensures ReadStep(r, a) == Accepting(a, c + RecordLen(len), out)
  {
  }

  lemma GotIsDelivered(r: Ring, a: Reader, b: Reader, end: nat, out: seq<Byte>)
    requires LogOk(r.frames, r.tail, b.join, b.log, b.pos) && b == Accepting(a, end, out)
    ensures Delivered(r.frames, r.tail, a.pos, end, out) && b.log[..|b.log| - 1] == a.log
  {
    assert b.log[..|b.log| - 1] == a.log;
  }

  function Jumped(a: Reader, latest: nat): Reader {
    a.(pos := Max(latest, a.pos), pc := Idle, log := a.log + [Lag(Max(latest, a.pos) - a.pos)])
  }

  /** The jump is made; `b` is the same reader between pops. */
  lemma JumpStep(r0: Ring, a0: Reader, r: Ring, b: Reader, quiet: bool)
    requires Midway(r0, a0, r, b.(pc := JumpDue), quiet) && b.pc.Idle?
    ensures Midway(r0, a0, r, Jumped(b, r.latest), quiet) && b.pos + r.cap < r.intent
  {
    Advance(r0, a0, r, b.(pc := JumpDue), quiet);
    assert ReadStep(r, b.(pc := JumpDue)) == Jumped(b, r.latest);
  }

  datatype Popped = Item(msg: seq<Byte>) | Empty | Lagged(missed: nat) | Closed

  class BytesConsumer {
    const ring: SharedBytes
    var pos: nat
    var tailCache: nat
    ghost var join: nat
    ghost var log: seq<Event>

    ghost function View(pc: ReadPc): Reader
      reads this
    {
      Reader(pos, tailCache, pc, join, log)
    }

    ghost predicate Valid(prod: Producer)
      reads this, ring, ring.buf
    {
      RingInv(ring.View(prod)) && ReaderInv(ring.View(prod), View(Idle))
    }

    constructor (ring: SharedBytes, ghost prod: Producer)
      requires RingInv(ring.View(prod))
      ensures Valid(prod) && this.ring == ring && pos == ring.tail && log == []
    {
      this.ring := ring;
      pos, tailCache, join, log := ring.tail, ring.tail, ring.tail, [];
      new;
      SubscribeOk(ring.View(prod));
    }

    /** What a pop's answer means, whatever happened meanwhile: an item is the one committed message framed
        from the old position to the new, a loss is real and exact, and nothing is missed by `Empty` and
        `Closed`. */
    ghost predicate Justified(e: Popped, p: nat, tail0: nat)
      reads this, ring
    {
      match e
      case Item(msg) => Delivered(ring.frames, ring.tail, p, pos, msg)
      case Lagged(n) =>
        && p + ring.cap < ring.intent && pos == p + n && ring.latest <= pos && (n == 0 || pos == ring.latest)
        && tail0 <= tailCache
      case Empty => tail0 <= pos == p
      case Closed => tail0 <= ring.tail <= pos == p
    }

    /** Anybody may move. */
    method Pause(ghost r0: Ring, ghost a0: Reader, ghost prod: Producer, ghost pc: ReadPc, ghost quiet: bool)
      returns (ghost now: Producer)
      requires Midway(r0, a0, ring.View(prod), View(pc), quiet)
      modifies ring, ring.buf
      ensures Midway(r0, a0, ring.View(now), View(pc), quiet)
    {
      ghost var r := ring.View(prod);
      now := ring.Others(prod, quiet);
      Overtaken(r0, a0, r, ring.View(now), View(pc), quiet);
    }

    /** Jump to the newest record, by a fresh tail and then a fresh `latest`. */
    method Reposition(ghost r0: Ring, ghost a0: Reader, ghost prod: Producer, ghost quiet: bool)
      returns (e: Popped, ghost now: Producer)
      requires Midway(r0, a0, ring.View(prod), View(ReloadDue), quiet)
      modifies this, ring, ring.buf
      ensures Midway(r0, a0, ring.View(now), View(Idle), quiet)
      ensures e.Lagged? && Tells(old(log), log, e) && Justified(e, old(pos), r0.tail)
    {
      now := Reload(r0, a0, prod, quiet);
      now := Pause(r0, a0, now, JumpDue, quiet);
      e := Jump(r0, a0, now, quiet);
    }

    method Jump(ghost r0: Ring, ghost a0: Reader, ghost prod: Producer, ghost quiet: bool) returns (e: Popped)
      requires Midway(r0, a0, ring.View(prod), View(JumpDue), quiet) && r0.tail <= tailCache
      modifies this
      ensures Midway(r0, a0, ring.View(prod), View(Idle), quiet)
      ensures e.Lagged? && Tells(old(log), log, e) && Justified(e, old(pos), r0.tail)
    {
      JumpStep(r0, a0, ring.View(prod), View(Idle), quiet);
      e := MoveTo(ring.latest);
    }

    method Reload(ghost r0: Ring, ghost a0: Reader, ghost prod: Producer, ghost quiet: bool)
      returns (ghost now: Producer)
      requires Midway(r0, a0, ring.View(prod), View(ReloadDue), quiet)
      modifies this`tailCache, ring, ring.buf
      ensures Midway(r0, a0, ring.View(now), View(JumpDue), quiet) && r0.tail <= tailCache
    {
      now := Pause(r0, a0, prod, ReloadDue, quiet);
      LoadTail(r0, a0, now, quiet);
    }

    method LoadTail(ghost r0: Ring, ghost a0: Reader, ghost prod: Producer, ghost quiet: bool)
      requires Midway(r0, a0, ring.View(prod), View(ReloadDue), quiet)
      modifies this`tailCache
      ensures Midway(r0, a0, ring.View(prod), View(JumpDue), quiet) && r0.tail <= tailCache
    {
      Advance(r0, a0, ring.View(prod), View(ReloadDue), quiet);
      tailCache := ring.tail;
    }

    /** Never backwards. */
    method MoveTo(latest: nat) returns (e: Popped)
      modifies this
      ensures View(Idle) == Jumped(old(View(Idle)), latest) && e == Lagged(pos - old(pos))
    {
      var to := Max(latest, pos);
      e := Lagged(to - pos);
      log := log + [Lag(to - pos)];
      pos := to;
    }

    /** The window check before a header, and before trusting padding. */
    method InsideWindow(ghost r0: Ring, ghost a0: Reader, ghost prod: Producer, ghost pc: ReadPc, ghost quiet: bool)
      returns (inside: bool, ghost now: Producer)
      requires Midway(r0, a0, ring.View(prod), View(pc), quiet) && (pc.WindowDue? || pc.SkipCheckDue?)
      modifies ring, ring.buf
      ensures Midway(r0, a0, ring.View(now), View(if inside then Passed(pc, ring.cap) else ReloadDue), quiet)
      ensures inside && pc.SkipCheckDue? ==> pc.cursor == pos && Off(pos, ring.cap) < ring.cap
    {
      now := Pause(r0, a0, prod, pc, quiet);
      inside := !(ring.intent < pos || ring.intent - pos > ring.cap);
      WindowStep(r0, a0, ring.View(now), View(pc), quiet);
      if inside && pc.SkipCheckDue? {
        PaddingIsFirst(ring.View(now), View(pc), pc.cursor);
      }
    }

    /** The header lane, which a racing push may have overwritten. */
    method LoadHeader(ghost r0: Ring, ghost a0: Reader, ghost prod: Producer, cursor: nat, ghost quiet: bool)
      returns (header: Lane, ghost now: Producer)
      requires Midway(r0, a0, ring.View(prod), View(LengthDue(cursor)), quiet)
      modifies ring, ring.buf
      ensures Midway(r0, a0, ring.View(now), View(Parse(ring.cap, cursor, header)), quiet)
    {
      now := Pause(r0, a0, prod, LengthDue(cursor), quiet);
      ghost var r, a := ring.View(now), View(LengthDue(cursor));
      Advance(r0, a0, r, a, quiet);
      CellInRange(cursor, ring.cap);
      header := ring.buf[Off(cursor, ring.cap) / LANE];
      assert View(Parse(ring.cap, cursor, header)) == ReadStep(r, a);
    }

    /** Window check, header, padding skip: at most twice around, then the bounds checks and the body. */
    method ReadRecord(ghost r0: Ring, ghost a0: Reader, ghost prod: Producer, ghost quiet: bool)
      returns (e: Popped, ghost now: Producer)
      requires Midway(r0, a0, ring.View(prod), View(WindowDue(pos)), quiet)
      modifies this, ring, ring.buf
      ensures Midway(r0, a0, ring.View(now), View(Idle), quiet)
      ensures Tells(old(log), log, e) && Justified(e, old(pos), r0.tail)
    {
      now, e := prod, Empty;
      var cursor: nat := pos;
      var done := false;
      while !done
        invariant !done ==> unchanged(this) && Midway(r0, a0, ring.View(now), View(WindowDue(cursor)), quiet)
        invariant done ==> Midway(r0, a0, ring.View(now), View(Idle), quiet)
        invariant done ==> Tells(old(log), log, e) && Justified(e, old(pos), r0.tail)
        decreases if done then 0 else if cursor == pos then 2 else 1
      {
        done, cursor, e, now := TurnAround(r0, a0, now, cursor, quiet);
      }
    }

    /** Once around the loop: answered, or past the padding at the reader's own position. */
    method TurnAround(ghost r0: Ring, ghost a0: Reader, ghost prod: Producer, cursor: nat, ghost quiet: bool)
      returns (done: bool, next: nat, e: Popped, ghost now: Producer)
      requires Midway(r0, a0, ring.View(prod), View(WindowDue(cursor)), quiet)
      modifies this, ring, ring.buf
      ensures done ==> Midway(r0, a0, ring.View(now), View(Idle), quiet)
      ensures done ==> Tells(old(log), log, e) && Justified(e, old(pos), r0.tail)
      ensures !done ==> unchanged(this) && cursor == pos < next
      ensures !done ==> Midway(r0, a0, ring.View(now), View(WindowDue(next)), quiet)
    {
      done, next := true, cursor;
      var inside;
      inside, now := InsideWindow(r0, a0, prod, WindowDue(cursor), quiet);
      if !inside {
        e, now := Reposition(r0, a0, now, quiet);
        return;
      }
      var header;
      header, now := LoadHeader(r0, a0, now, cursor, quiet);
      if header != PADDING {
        e, now := ReadBody(r0, a0, now, cursor, header, quiet);
      } else {
        done, next, e, now := SkipPadding(r0, a0, now, cursor, quiet);
      }
    }

    /** The marker is trusted only if the window still holds after it was loaded. */
    method SkipPadding(ghost r0: Ring, ghost a0: Reader, ghost prod: Producer, cursor: nat, ghost quiet: bool)
      returns (done: bool, next: nat, e: Popped, ghost now: Producer)
      requires Midway(r0, a0, ring.View(prod), View(SkipCheckDue(cursor)), quiet)
      modifies this, ring, ring.buf
      ensures done ==> Midway(r0, a0, ring.View(now), View(Idle), quiet)
      ensures done ==> Tells(old(log), log, e) && Justified(e, old(pos), r0.tail)
      ensures !done ==> unchanged(this) && cursor == pos < next
      ensures !done ==> Midway(r0, a0, ring.View(now), View(WindowDue(next)), quiet)
    {
      var inside;
      inside, now := InsideWindow(r0, a0, prod, SkipCheckDue(cursor), quiet);
      done, next, e := !inside, cursor, Empty;
      if inside {
        next := cursor + (ring.cap - Off(cursor, ring.cap));
        assert Passed(SkipCheckDue(cursor), ring.cap) == WindowDue(next);
      } else {
        e, now := Reposition(r0, a0, now, quiet);
      }
    }

    /** An unvalidated length is bounds-checked before any use; then copy, check the window, accept. */
    method ReadBody(ghost r0: Ring, ghost a0: Reader, ghost prod: Producer, cursor: nat, len: Lane, ghost quiet: bool)
      returns (e: Popped, ghost now: Producer)
      requires len != PADDING && Midway(r0, a0, ring.View(prod), View(Parse(ring.cap, cursor, len)), quiet)
      modifies this, ring, ring.buf
      ensures Midway(r0, a0, ring.View(now), View(Idle), quiet)
      ensures Tells(old(log), log, e) && Justified(e, old(pos), r0.tail)
    {
      if len > MaxMessageLen(ring.cap) || RecordLen(len) > ring.cap - Off(cursor, ring.cap) {
        e, now := Reposition(r0, a0, prod, quiet);
        return;
      }
      var out;
      out, now := CopyOut(r0, a0, prod, cursor, len, quiet);
      e, now := Recheck(r0, a0, now, cursor, len, out, quiet);
    }

    /** The payload, one lane at a time, whole lanes first and then what is left of the last. */
    method CopyOut(ghost r0: Ring, ghost a0: Reader, ghost prod: Producer, cursor: nat, len: nat, ghost quiet: bool)
      returns (out: seq<Byte>, ghost now: Producer)
      requires Midway(r0, a0, ring.View(prod), View(CopyDue(cursor, len, [])), quiet)
      modifies ring, ring.buf
      ensures |out| == len && Midway(r0, a0, ring.View(now), View(CopyDue(cursor, len, out)), quiet)
    {
      out, now := [], prod;
      while |out| < len
        invariant |out| <= len && Midway(r0, a0, ring.View(now), View(CopyDue(cursor, len, out)), quiet)
      {
        out, now := CopyLane(r0, a0, now, cursor, len, out, quiet);
      }
    }

    method CopyLane(ghost r0: Ring, ghost a0: Reader, ghost prod: Producer, cursor: nat, len: nat, out: seq<Byte>,
                    ghost quiet: bool)
      returns (more: seq<Byte>, ghost now: Producer)
      requires |out| < len && Midway(r0, a0, ring.View(prod), View(CopyDue(cursor, len, out)), quiet)
      modifies ring, ring.buf
      ensures |out| < |more| <= len && Midway(r0, a0, ring.View(now), View(CopyDue(cursor, len, more)), quiet)
    {
      now := Pause(r0, a0, prod, CopyDue(cursor, len, out), quiet);
      var i := (Off(cursor, ring.cap) + HEADER + |out|) / LANE;
      LaneStep(r0, a0, ring.View(now), View(CopyDue(cursor, len, out)), cursor, len, out, i, quiet);
      more := Extend(out, len, ring.buf[i]);
    }

    /** The window once more after the copy; on accept, pad and record are committed together. */
    method Recheck(ghost r0: Ring, ghost a0: Reader, ghost prod: Producer, cursor: nat, len: nat, out: seq<Byte>,
                   ghost quiet: bool)
      returns (e: Popped, ghost now: Producer)
      requires |out| == len && Midway(r0, a0, ring.View(prod), View(CopyDue(cursor, len, out)), quiet)
      modifies this, ring, ring.buf
      ensures Midway(r0, a0, ring.View(now), View(Idle), quiet)
      ensures Tells(old(log), log, e) && Justified(e, old(pos), r0.tail)
    {
      now := Pause(r0, a0, prod, CopyDue(cursor, len, out), quiet);
      if ring.intent < pos || ring.intent - pos > ring.cap {
        WindowStep(r0, a0, ring.View(now), View(CopyDue(cursor, len, out)), quiet);
        e, now := Reposition(r0, a0, now, quiet);
      } else {
        e := AcceptCopy(r0, a0, now, cursor, len, out, quiet);
      }
    }

    method AcceptCopy(ghost r0: Ring, ghost a0: Reader, ghost prod: Producer, cursor: nat, len: nat, out: seq<Byte>,
                      ghost quiet: bool)
      returns (e: Popped)
      requires |out| == len && !Lapped(ring.View(prod), pos)
      requires Midway(r0, a0, ring.View(prod), View(CopyDue(cursor, len, out)), quiet)
      modifies this
      ensures Midway(r0, a0, ring.View(prod), View(Idle), quiet)
      ensures Tells(old(log), log, e) && Justified(e, old(pos), r0.tail)
    {
      var end := cursor + RecordLen(len);
      ghost var r, b := ring.View(prod), View(Idle);
      AcceptStep(r0, a0, r, b, cursor, len, out, quiet);
      e := Accept(end, out);
      assert ring.View(prod) == r && View(Idle) == Accepting(b, end, out);
    }

    /** Pad and record are committed together. */
    method Accept(end: nat, out: seq<Byte>) returns (e: Popped)
      modifies this
      ensures View(Idle) == Accepting(old(View(Idle)), end, out) && e == Item(out) && Tells(old(log), log, e)
    {
      log := log + [Got(pos, end, out)];
      pos := end;
      e := Item(out);
    }

    /** One non-blocking pop, every load in its order and anybody moving between any two. Left alone, a
        reader with nothing ahead is told so, one in the window gets a message, and one that was lapped is
        put at `latest`, never backwards. */
    method TryPop(ghost prod: Producer, ghost quiet: bool) returns (e: Popped, ghost now: Producer)
      requires Valid(prod)
      modifies this, ring, ring.buf
      ensures Valid(now) && Grown(old(ring.View(prod)), ring.View(now))
      ensures Tells(old(log), log, e) && Justified(e, old(pos), old(ring.tail))
      ensures quiet ==>
        ring.View(now) == old(ring.View(prod)) && Answered(ring.View(now), old(View(Idle)), View(Idle))
      ensures quiet && old(pos) >= ring.tail ==> e == (if ring.closed then Closed else Empty)
      ensures quiet && old(pos) < ring.tail ==> if ring.intent <= old(pos) + ring.cap then e.Item? else e.Lagged?
    {
      ghost var a0 := View(Idle);
      e, now := PopOnce(prod, quiet);
      if quiet {
        ToldWhat(ring.View(now), a0, View(Idle), e);
      }
    }

    method PopOnce(ghost prod: Producer, ghost quiet: bool) returns (e: Popped, ghost now: Producer)
      requires Valid(prod)
      modifies this, ring, ring.buf
      ensures Valid(now) && Grown(old(ring.View(prod)), ring.View(now))
      ensures Tells(old(log), log, e) && Justified(e, old(pos), old(ring.tail))
      ensures quiet ==>
        ring.View(now) == old(ring.View(prod)) && Answered(ring.View(now), old(View(Idle)), View(Idle))
    {
      ghost var r0, a0 := ring.View(prod), View(Idle);
      PopBegins(r0, a0, quiet);
      now := prod;
      if tailCache <= pos {
        e, now := Refresh(r0, a0, now, quiet);
        if tailCache <= pos {
          return;
        }
      }
      e, now := ReadRecord(r0, a0, now, quiet);
    }

    /** The cached tail has nothing left: a fresh load, and before `Closed` is told a second one after the
        flag. Answers unless it finds a message. */
    method Refresh(ghost r0: Ring, ghost a0: Reader, ghost prod: Producer, ghost quiet: bool)
      returns (e: Popped, ghost now: Producer)
      requires Midway(r0, a0, ring.View(prod), View(RefreshDue), quiet) && ring.View(prod) == r0
      modifies this, ring, ring.buf
      ensures pos == old(pos)
      ensures Midway(r0, a0, ring.View(now), View(if tailCache > pos then WindowDue(pos) else Idle), quiet)
      ensures if tailCache > pos then log == old(log)
              else Tells(old(log), log, e) && Justified(e, old(pos), r0.tail)
    {
      now, e := prod, Empty;
      Advance(r0, a0, r0, View(RefreshDue), quiet);
      tailCache := ring.tail;
      if tailCache <= pos {
        now := Pause(r0, a0, now, ClosedDue, quiet);
        Advance(r0, a0, ring.View(now), View(ClosedDue), quiet);
        if ring.closed {
          e, now := Drained(r0, a0, now, quiet);
        }
      }
    }

    method Drained(ghost r0: Ring, ghost a0: Reader, ghost prod: Producer, ghost quiet: bool)
      returns (e: Popped, ghost now: Producer)
      requires Midway(r0, a0, ring.View(prod), View(DrainDue), quiet) && r0.tail <= pos
      modifies this, ring, ring.buf
      ensures pos == old(pos)
      ensures Midway(r0, a0, ring.View(now), View(if tailCache > pos then WindowDue(pos) else Idle), quiet)
      ensures if tailCache > pos then log == old(log)
              else Tells(old(log), log, e) && Justified(e, old(pos), r0.tail)
    {
      e := Closed;
      now := Pause(r0, a0, prod, DrainDue, quiet);
      DrainStep(r0, a0, ring.View(now), View(DrainDue), quiet);
      tailCache := ring.tail;
      if tailCache <= pos {
        log := log + [Shut];
      }
    }

    /** To the tail, never backwards, leaving everything unread behind. */
    method SkipToLatest(ghost prod: Producer) returns (skipped: nat)
      requires Valid(prod)
      modifies this
      ensures Valid(prod) && tailCache == ring.tail <= pos && pos == old(pos) + skipped
      ensures skipped == 0 || pos == ring.tail
      ensures log == old(log) + [Skip(skipped)]
    {
      ghost var r := ring.View(prod);
      ghost var b := Skipped(r, View(Idle));
      tailCache := ring.tail;
      skipped := if tailCache > pos then tailCache - pos else 0;
      pos := Max(pos, tailCache);
      log := log + [Skip(skipped)];
      assert ring.View(prod) == r && View(Idle) == b;
    }

    /** Where a drain of everything reachable starts: here if still in the window, else at the newest
        record. */
    ghost function FirstReadable(): nat
      reads this, ring
    {
      if pos >= ring.tail || ring.intent <= pos + ring.cap then pos else Max(ring.latest, pos)
    }

    /** One pop of a drain. */
    method PopDraining(ghost prod: Producer, ghost p: nat, ghost start: nat, ghost got: seq<seq<Byte>>,
                       ghost missed: nat)
      returns (e: Popped)
      requires Valid(prod) && ring.closed && Draining(ring.View(prod), p, start, pos, got, missed)
      modifies this, ring, ring.buf
      ensures Valid(prod) && ring.View(prod) == old(ring.View(prod)) && old(pos) <= pos && !e.Empty?
      ensures Draining(ring.View(prod), p, start, pos, if e.Item? then got + [e.msg] else got,
                       if e.Lagged? then missed + e.missed else missed)
      ensures if e.Closed? then pos == old(pos) >= ring.tail else old(pos) < pos <= Max(start, ring.tail)
    {
      ghost var r := ring.View(prod);
      ghost var a := View(Idle);
      ghost var now;
      e, now := TryPop(prod, true);
      assert now == ring.View(now).prod == r.prod == prod;
      DrainOne(r, a, View(Idle), e);
      DrainAdvances(r, a.pos, pos, e, p, start, got, missed);
    }

    /** Once closed, popping until `Closed` ends, in the window or else from where the one jump lands, which
        is `latest`. It gives back exactly the payloads of the frames from there to the last, in order, and
        counts exactly the bytes before it. */
    method DrainToClosed(ghost prod: Producer) returns (got: seq<seq<Byte>>, missed: nat)
      requires Valid(prod) && ring.closed
      requires pos >= ring.tail || ring.intent <= pos + ring.cap || JumpReaches(ring.View(prod))
      modifies this, ring, ring.buf
      ensures Valid(prod) && ring.View(prod) == old(ring.View(prod)) && pos >= ring.tail
      ensures missed == if old(pos) >= ring.tail || ring.intent <= old(pos) + ring.cap then 0
                        else ring.latest - old(pos)
      ensures LastFrom(ring.frames, ring.tail, old(pos) + missed, got)
    {
      ghost var start := FirstReadable();
      FirstIsBoundary(ring.View(prod), View(Idle), start);
      RemainingIs(ring.frames, ring.tail, ring.cap, start);
      got, missed := PopAll(prod);
    }

    method PopAll(ghost prod: Producer) returns (got: seq<seq<Byte>>, missed: nat)
      requires Valid(prod) && ring.closed
      requires pos >= ring.tail || ring.intent <= pos + ring.cap || JumpReaches(ring.View(prod))
      modifies this, ring, ring.buf
      ensures Valid(prod) && ring.View(prod) == old(ring.View(prod)) && pos >= ring.tail
      ensures old(pos) + missed == old(FirstReadable())
      ensures got == Remaining(ring.frames, ring.tail, old(FirstReadable()))
      ensures old(pos) < ring.tail && ring.intent > old(pos) + ring.cap ==> old(pos) < ring.latest
    {
      got, missed := [], 0;
      ghost var r := ring.View(prod);
      ghost var p, start := pos, FirstReadable();
      if pos < r.tail && !InWindow(r, pos) {
        JumpLands(r, pos);
      }
      var done := false;
      while !done
        invariant Valid(prod) && ring.View(prod) == r && Draining(r, p, start, pos, got, missed)
        invariant done ==> pos >= r.tail
        decreases Max(start, r.tail) - pos, if done then 0 else 1
      {
        var e := PopDraining(prod, p, start, got, missed);
        match e {
          case Item(msg) => got := got + [msg];
          case Lagged(n) => missed := missed + n;
          case Closed => done := true;
          case Empty =>
        }
      }
      NothingRemains(r.frames, r.tail, pos);
    }
  }

  lemma FirstIsBoundary(r: Ring, a: Reader, start: nat)
    requires RingInv(r) && ReaderInv(r, a)
    requires start == if a.pos >= r.tail || r.intent <= a.pos + r.cap then a.pos else Max(r.latest, a.pos)
    ensures Boundary(r.frames, r.tail, r.cap, start)
  {
  }

  /** The payloads of the last so many frames, none at the tail, the first of them at p or behind padding
      at p. */
  predicate LastFrom(frames: seq<Frame>, tail: nat, p: nat, got: seq<seq<Byte>>) {
    && |got| <= |frames| && (got == [] <==> p >= tail)
    && (forall i: nat | i < |got| :: got[i] == frames[|frames| - |got| + i].msg)
    && (got != [] ==> var f := frames[|frames| - |got|]; p == f.start || p == f.start + f.pad)
  }

  lemma RemainingIs(frames: seq<Frame>, tail: nat, cap: Size, p: nat)
    requires Framed(frames, tail, cap) && Boundary(frames, tail, cap, p)
    ensures LastFrom(frames, tail, p, Remaining(frames, tail, p))
  {
  }

  lemma Skipped(r: Ring, a: Reader) returns (b: Reader)
    requires RingInv(r) && ReaderInv(r, a) && a.pc.Idle?
    ensures ReaderInv(r, b) && b == Reader(Max(a.pos, r.tail), r.tail, Idle, a.join, b.log)
    ensures b.log == a.log + [Skip(if r.tail > a.pos then r.tail - a.pos else 0)]
  {
    SkipToLatestKeeps(r, a);
    b := BytesRing.SkipToLatest(r, a);
  }

  /** What the caller is told is the last event logged. */
  predicate Tells(before: seq<Event>, after: seq<Event>, e: Popped) {
    match e
    case Item(msg) =>
      after != [] && after[..|after| - 1] == before && after[|after| - 1].Got? && after[|after| - 1].msg == msg
    case Lagged(n) => after == before + [Lag(n)]
    case Closed => after == before + [Shut]
    case Empty => after == before
  }

  lemma ToldWhat(r: Ring, a: Reader, b: Reader, e: Popped)
    requires Answered(r, a, b) && Tells(a.log, b.log, e)
    ensures a.pos >= r.tail ==> e == if r.closed then Closed else Empty
    ensures a.pos < r.tail ==> if r.intent <= a.pos + r.cap then e.Item? else e.Lagged?
  {
    if a.pos < r.tail {
      assert |b.log| == |a.log| + 1;
      var last := b.log[|a.log|];
      assert if InWindow(r, a.pos) then last.Got? else last.Lag?;
    } else if r.closed {
      assert b.log[|a.log|] == Shut;
    } else {
      assert b.log == a.log;
    }
  }

  /** The newest record lies in the window, or everything committed lies before it. */
  predicate JumpReaches(r: Ring) { r.intent <= r.latest + r.cap || r.tail <= r.latest }

  /** A lap's jump then goes forward, and has nothing to read or is in the window. */
  lemma JumpLands(r: Ring, p: nat)
    requires JumpReaches(r)
    ensures p < r.tail && !InWindow(r, p) ==> p < r.latest && (r.latest < r.tail ==> InWindow(r, r.latest))
  {
  }

  /** With sixteen bytes or more the jump always reaches. */
  lemma SixteenReaches(r: Ring)
    requires RingInv(r) && r.cap >= 16
    ensures JumpReaches(r)
  {
    ThreeRecords(r.cap);
  }

  /** Whatever the capacity, it does while nothing is declared beyond the tail. */
  lemma QuietReaches(r: Ring)
    requires Geometry(r.cap) && CountersOk(r) && r.intent == r.tail
    ensures JumpReaches(r)
  {
    MaxRecordFits(r.cap);
  }

  /** What one answered pop of a closed ring means for what remains. */
  lemma DrainOne(r: Ring, a: Reader, b: Reader, e: Popped)
    requires RingInv(r) && ReaderInv(r, a) && r.closed && Answered(r, a, b) && Tells(a.log, b.log, e)
    ensures a.pos >= r.tail ==> e.Closed? && b.pos == a.pos
    ensures a.pos < r.tail && InWindow(r, a.pos) ==>
      e.Item? && a.pos < b.pos <= r.tail
      && Remaining(r.frames, r.tail, a.pos) == [e.msg] + Remaining(r.frames, r.tail, b.pos)
    ensures a.pos < r.tail && !InWindow(r, a.pos) ==> e == Lagged(b.pos - a.pos) && b.pos == Max(r.latest, a.pos)
  {
    var last := b.log[|b.log| - 1];
    if a.pos < r.tail {
      RemainingSplits(r.frames, r.tail, r.cap, a.pos);
      NextIndex(r.frames, r.tail, r.cap, a.pos);
    }
  }

  /** A drain that began at p and could first read at `start`: nothing taken before it, everything after. */
  predicate Draining(r: Ring, p: nat, start: nat, pos: nat, got: seq<seq<Byte>>, missed: nat) {
    && p <= start
    && if pos < start then
         pos == p && got == [] && missed == 0 && pos < r.tail && !InWindow(r, pos) && start == Max(r.latest, pos)
         && pos < start && (start < r.tail ==> InWindow(r, start))
       else
         missed == start - p && (pos < r.tail ==> InWindow(r, pos))
         && Remaining(r.frames, r.tail, start) == got + Remaining(r.frames, r.tail, pos)
  }

  lemma DrainAdvances(r: Ring, pos: nat, pos': nat, e: Popped, p: nat, start: nat, got: seq<seq<Byte>>, missed: nat)
    requires Draining(r, p, start, pos, got, missed)
    requires pos >= r.tail ==> e.Closed? && pos' == pos
    requires pos < r.tail && InWindow(r, pos) ==>
      e.Item? && pos < pos' <= r.tail
      && Remaining(r.frames, r.tail, pos) == [e.msg] + Remaining(r.frames, r.tail, pos')
    requires pos < r.tail && !InWindow(r, pos) ==> pos' == Max(r.latest, pos) && e == Lagged(pos' - pos)
    ensures Draining(r, p, start, pos', if e.Item? then got + [e.msg] else got,
                     if e.Lagged? then missed + e.missed else missed)
    ensures pos <= pos' && (e.Item? || e.Lagged? ==> pos < pos' <= Max(start, r.tail)) && !e.Empty?
    ensures e.Closed? ==> pos' == pos >= r.tail
  {
  }

  // ------------------------------------------------------------------ round trip

  lemma ReadyToOpened(r: Ring)
    requires RingInv(r)
    ensures RingInv(r.(prod := Opened, closed := false))
  {
    SameFrames(r, r.(prod := Opened, closed := false));
  }

  /** Where a sequence of payloads framed from position zero ends. */
  function EndOf(msgs: seq<seq<Byte>>, cap: Size): nat {
    if msgs == [] then 0
    else NewFrame(EndOf(msgs[..|msgs| - 1], cap), msgs[|msgs| - 1], cap).End()
  }

  /** The newest record is where `latest` says. */
  predicate AtLast(frames: seq<Frame>, latest: nat) { frames != [] ==> latest == frames[|frames| - 1].Rec() }

  /** A fresh ring with one message after another pushed, and a consumer still at its start. */
  method PushAll(tx: BytesProducer, rx: BytesConsumer, msgs: seq<seq<Byte>>)
    requires tx.ring == rx.ring && tx.Valid() && rx.Valid(Ready(tx.next, tx.floor))
    requires tx.next == 0 && tx.floor == 0 && rx.pos == 0 && tx.ring.frames == []
    requires forall m | m in msgs :: 8 * |m| <= tx.ring.cap && |m| < PADDING
    modifies tx`next, tx.ring, tx.ring.buf
    ensures tx.Valid() && rx.Valid(Ready(tx.next, tx.floor)) && rx.pos == 0 && tx.floor == 0
    ensures Messages(tx.ring.frames) == msgs && tx.next == EndOf(msgs, tx.ring.cap)
    ensures AtLast(tx.ring.frames, tx.ring.latest)
  {
    Whole(msgs);
    for i := 0 to |msgs|
      invariant tx.Valid() && rx.Valid(Ready(tx.next, tx.floor)) && AtLast(tx.ring.frames, tx.ring.latest)
      invariant Messages(tx.ring.frames) == msgs[..i] && tx.next == EndOf(msgs[..i], tx.ring.cap)
    {
      OneMore(msgs, i, tx.ring.cap);
      PushOne(tx, rx, msgs[i]);
    }
  }

  lemma Whole(msgs: seq<seq<Byte>>)
    ensures msgs[..0] == [] && msgs[..|msgs|] == msgs
  {
  }

  lemma OneMore(msgs: seq<seq<Byte>>, i: nat, cap: Size)
    requires i < |msgs|
    ensures msgs[i] in msgs && msgs[..i + 1] == msgs[..i] + [msgs[i]]
    ensures EndOf(msgs[..i + 1], cap) == NewFrame(EndOf(msgs[..i], cap), msgs[i], cap).End()
  {
    assert msgs[..i + 1][..i] == msgs[..i];
  }

  method PushOne(tx: BytesProducer, rx: BytesConsumer, msg: seq<Byte>)
    requires tx.ring == rx.ring && tx.Valid() && rx.Valid(Ready(tx.next, tx.floor))
    requires 8 * |msg| <= tx.ring.cap && |msg| < PADDING
    modifies tx`next, tx.ring, tx.ring.buf
    ensures tx.Valid() && rx.Valid(Ready(tx.next, tx.floor))
    ensures Messages(tx.ring.frames) == old(Messages(tx.ring.frames)) + [msg]
    ensures tx.next == NewFrame(old(tx.next), msg, tx.ring.cap).End() && AtLast(tx.ring.frames, tx.ring.latest)
  {
    ghost var before := tx.ring.View(Ready(tx.next, tx.floor));
    var ok := tx.Push(msg);
    ReaderGrew(before, tx.ring.View(Ready(tx.next, tx.floor)), rx.View(Idle));
    LastEnds(tx.ring.frames, tx.ring.tail, tx.ring.cap);
  }

  /** Writing any sequence of legal payloads and then reading from the start: if their frames fit the ring,
      all of it comes back and no loss is told; once the ring has been lapped, the newest comes back alone,
      and every byte before its record is counted. */
  method RoundTrip(cap: Size, msgs: seq<seq<Byte>>) returns (got: seq<seq<Byte>>, missed: nat)
    requires LegalCapacity(cap) && forall m | m in msgs :: 8 * |m| <= cap && |m| < PADDING
    ensures CameBack(msgs, EndOf(msgs, cap), cap, got, missed)
  {
    var rx := Recorded(cap, msgs);
    got, missed := DrainFromStart(rx, msgs, EndOf(msgs, cap));
  }

  /** A closed ring with everything pushed, and a consumer that was there from the start. */
  method Recorded(cap: Size, msgs: seq<seq<Byte>>) returns (rx: BytesConsumer)
    requires LegalCapacity(cap) && forall m | m in msgs :: 8 * |m| <= cap && |m| < PADDING
    ensures fresh(rx) && fresh(rx.ring) && fresh(rx.ring.buf) && rx.ring.cap == cap
    ensures rx.Valid(Dead) && rx.ring.closed && rx.pos == 0 && JumpReaches(rx.ring.View(Dead))
    ensures rx.ring.intent == rx.ring.tail == EndOf(msgs, cap) && Messages(rx.ring.frames) == msgs
    ensures AtLast(rx.ring.frames, rx.ring.latest)
  {
    var tx;
    tx, rx := Session(cap);
    PushAndClose(tx, rx, msgs);
  }

  method PushAndClose(tx: BytesProducer, rx: BytesConsumer, msgs: seq<seq<Byte>>)
    requires tx.ring == rx.ring && tx.Valid() && rx.Valid(Ready(tx.next, tx.floor))
    requires tx.next == 0 && tx.floor == 0 && rx.pos == 0 && tx.ring.frames == []
    requires forall m | m in msgs :: 8 * |m| <= tx.ring.cap && |m| < PADDING
    modifies tx`next, tx.ring, tx.ring.buf
    ensures rx.Valid(Dead) && rx.ring.closed && rx.pos == 0 && JumpReaches(rx.ring.View(Dead))
    ensures rx.ring.intent == rx.ring.tail == EndOf(msgs, rx.ring.cap) && Messages(rx.ring.frames) == msgs
    ensures AtLast(rx.ring.frames, rx.ring.latest)
  {
    PushAll(tx, rx, msgs);
    CloseUnder(tx, rx);
  }

  /** A fresh ring with a producer and a consumer. */
  method Session(cap: Size) returns (tx: BytesProducer, rx: BytesConsumer)
    requires LegalCapacity(cap)
    ensures tx.ring == rx.ring && tx.ring.cap == cap && tx.Valid() && rx.Valid(Ready(tx.next, tx.floor))
    ensures tx.next == 0 && tx.floor == 0 && rx.pos == 0 && tx.ring.frames == []
    ensures fresh(tx) && fresh(rx) && fresh(tx.ring) && fresh(tx.ring.buf)
  {
    var ring := new SharedBytes(cap);
    ReadyToOpened(ring.View(Ready(0, 0)));
    tx := new BytesProducer(ring);
    rx := new BytesConsumer(ring, Ready(tx.next, tx.floor));
  }

  /** All of it, or the newest alone behind the bytes before its record. */
  predicate CameBack(msgs: seq<seq<Byte>>, end: nat, cap: Size, got: seq<seq<Byte>>, missed: nat) {
    if end <= cap then got == msgs && missed == 0
    else
      && msgs != [] && got == [msgs[|msgs| - 1]]
      && (end - missed) % 8 == 0 && 4 + |got[0]| <= end - missed < 12 + |got[0]|
  }

  lemma AllOfThem(frames: seq<Frame>, tail: nat, cap: Size, msgs: seq<seq<Byte>>, got: seq<seq<Byte>>, missed: nat)
    requires Messages(frames) == msgs && DrainedAll(frames, tail, cap, got, missed)
    ensures CameBack(msgs, tail, cap, got, missed)
  {
    if tail > cap {
      assert msgs[|msgs| - 1] == frames[|frames| - 1].msg;
      LengthsAre(cap, |msgs[|msgs| - 1]|);
    }
  }

  /** A closed ring drained from its start. */
  method DrainFromStart(rx: BytesConsumer, ghost msgs: seq<seq<Byte>>, ghost end: nat)
    returns (got: seq<seq<Byte>>, missed: nat)
    requires rx.Valid(Dead) && rx.ring.closed && rx.pos == 0 && JumpReaches(rx.ring.View(Dead))
    requires rx.ring.intent == rx.ring.tail == end && Messages(rx.ring.frames) == msgs
    requires AtLast(rx.ring.frames, rx.ring.latest)
    modifies rx, rx.ring, rx.ring.buf
    ensures CameBack(msgs, end, rx.ring.cap, got, missed)
  {
    ghost var r := rx.ring.View(Dead);
    FramedAligned(r.frames, r.tail, r.cap);
    got, missed := rx.DrainToClosed(Dead);
    assert rx.ring.View(Dead) == r;
    DrainedIs(r.frames, r.tail, r.cap, got, missed);
    AllOfThem(r.frames, r.tail, r.cap, msgs, got, missed);
  }

  predicate DrainedAll(frames: seq<Frame>, tail: nat, cap: Size, got: seq<seq<Byte>>, missed: nat) {
    && (tail <= cap ==> missed == 0 && got == Messages(frames))
    && (tail > cap ==> frames != [] && var f := frames[|frames| - 1];
          got == [f.msg] && tail == missed + RecordLen(|f.msg|))
  }

  /** A drain from zero, of a ring that has not been lapped and of one that has. */
  lemma DrainedIs(frames: seq<Frame>, tail: nat, cap: Size, got: seq<seq<Byte>>, missed: nat)
    requires Geometry(cap) && Framed(frames, tail, cap) && LastFrom(frames, tail, missed, got)
    requires if tail <= cap then missed == 0 else frames != [] && missed == frames[|frames| - 1].Rec()
    ensures DrainedAll(frames, tail, cap, got, missed)
  {
    if tail <= cap {
      DrainedWhole(frames, tail, cap, got);
    } else {
      RecordInside(frames, tail, cap, |frames| - 1);
      FramedAll(frames, tail, cap, |frames| - 1);
      DrainedLast(frames, tail, cap, got, missed);
    }
  }

  lemma DrainedWhole(frames: seq<Frame>, tail: nat, cap: Size, got: seq<seq<Byte>>)
    requires Geometry(cap) && Framed(frames, tail, cap) && LastFrom(frames, tail, 0, got)
    ensures got == Messages(frames)
  {
    FramedAligned(frames, tail, cap);
    if got != [] && |got| < |frames| {
      var k := |frames| - |got| - 1;
      FramedAll(frames, tail, cap, k);
      FrameShape(frames[k], cap);
    }
  }

  lemma DrainedLast(frames: seq<Frame>, tail: nat, cap: Size, got: seq<seq<Byte>>, p: nat)
    requires Geometry(cap) && Framed(frames, tail, cap) && frames != [] && LastFrom(frames, tail, p, got)
    requires p == frames[|frames| - 1].Rec() < tail
    ensures got == [frames[|frames| - 1].msg] && tail == p + RecordLen(|got[0]|)
  {
    var n, k := |frames| - 1, |frames| - |got|;
    RecordInside(frames, tail, cap, n);
    RecordInside(frames, tail, cap, k);
    IndexOfOwn(frames, tail, cap, n, p);
    IndexOfOwn(frames, tail, cap, k, p);
  }

  lemma RecordInside(frames: seq<Frame>, tail: nat, cap: Size, k: nat)
    requires Geometry(cap) && Framed(frames, tail, cap) && k < |frames|
    ensures frames[k].start <= frames[k].Rec() < frames[k].End()
  {
    FramedAll(frames, tail, cap, k);
    FrameShape(frames[k], cap);
  }

  /** Closing changes nothing for a consumer at the start. */
  method CloseUnder(tx: BytesProducer, rx: BytesConsumer)
    requires tx.ring == rx.ring && tx.Valid() && rx.Valid(Ready(tx.next, tx.floor)) && rx.pos == 0 && tx.floor == 0
    modifies tx.ring`closed
    ensures rx.Valid(Dead) && tx.ring.closed && JumpReaches(tx.ring.View(Dead))
    ensures tx.next == tx.ring.tail == tx.ring.intent
  {
    ghost var before := tx.ring.View(Ready(tx.next, tx.floor));
    StopKeeps(before);
    QuietReaches(before);
    tx.Close();
    ReaderGrew(before, tx.ring.View(Dead), rx.View(Idle));
  }
}
