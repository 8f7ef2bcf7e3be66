/** The composed invariant of the anchored byte ring and its theorems. */
module AnchoredProof {
  import opened Framing
  import G = Gate
  import P = GateProof
  import B = BytesRing
  import opened BytesProof
  import opened BytesReaders
  import T = BytesTheorems
  import opened AnchoredBytes

  // ------------------------------------------------------------------ frame marks

  /** The position before frame m; past the last frame, the tail. */
  function Mark(frames: seq<Frame>, tail: nat, m: nat): nat {
    if m < |frames| then frames[m].start else tail
  }

  lemma {:induction false} MarksAscend(frames: seq<Frame>, tail: nat, cap: Size, m: nat, n: nat)
    requires Geometry(cap) && Framed(frames, tail, cap) && m <= n <= |frames|
    ensures Mark(frames, tail, m) <= Mark(frames, tail, n)
    ensures m < n ==> frames[m].End() <= Mark(frames, tail, n)
    decreases n - m
  {
    if m < n {
      FramedAll(frames, tail, cap, m);
      FrameShape(frames[m], cap);
      MarksAscend(frames, tail, cap, m + 1, n);
    }
  }

  /** Where a reader stands on frame k, that frame is the one found. */
  lemma StandsAt(r: B.Ring, k: nat, pos: nat)
    requires RingInv(r) && k < |r.frames| && (pos == r.frames[k].start || pos == r.frames[k].Rec())
    ensures OnFrame(r, pos) && FrameOf(r, pos) == r.frames[k]
  {
    FramedAll(r.frames, r.tail, r.cap, k);
    FrameShape(r.frames[k], r.cap);
    IndexOfOwn(r.frames, r.tail, r.cap, k, pos);
    assert FrameIntact(r, r.frames[k]);
  }

  // ------------------------------------------------------------------ the invariant

  /** The two halves agree. */
  predicate Linked(gate: G.Gate, ring: B.Ring) {
    && gate.cap == ring.cap && gate.tail == ring.tail && ring.intent <= gate.hi
    && match ring.prod
       case Ready(next, floor) => gate.prod.Up? && !gate.prod.pc.Writing? && floor <= gate.hi
       case Writing(next, floor, msg, _) =>
         gate.prod.Up? && gate.prod.pc == G.Writing(Needed(next, msg, ring.cap)) && floor <= gate.hi
       case _ => gate.prod.Dead?
  }

  /** Between records: the cursor is at the next frame, or past its padding. */
  predicate Next(r: B.Ring, k: nat, rd: nat) {
    rd == Mark(r.frames, r.tail, k) || (k < |r.frames| && rd == r.frames[k].Rec())
  }

  predicate Given(frames: seq<Frame>, h: Hand) {
    h.first + |h.got| <= h.seen <= |frames| && forall k: nat | k < |h.got| :: h.got[k] == frames[h.first + k].msg
  }

  predicate Reads(r: B.Ring, h: Hand, who: G.Holder)
    requires who.Live?
  {
    && Given(r.frames, h)
    && Mark(r.frames, r.tail, h.first) == who.join && Mark(r.frames, r.tail, h.seen) == who.cache
    && Next(r, h.first + |h.got|, who.rd)
    && (h.pc.Idle? || h.pc.LengthDue? || h.pc.CopyDue?)
    && (!h.pc.Idle? ==> who.rd < who.cache && PcOk(r, who.rd, h.pc))
  }

  predicate HandOk(r: B.Ring, s: G.Slot, h: Hand) {
    s.state.Active? ==>
      && (s.who.Live? ==> Reads(r, h, s.who))
      && (s.who.Claimed? || s.who.GotProvisional? || s.who.StoredProvisional? || s.who.GotJoin? ==>
            h.got == [] && h.pc.Idle?)
      && (s.who.GotJoin? ==> h.first == h.seen <= |r.frames| && Mark(r.frames, r.tail, h.first) == s.who.j)
  }

  predicate AnchoredInv(s: Anchored) {
    && P.GateInv(s.gate) && T.SystemInv(s.sys) && Linked(s.gate, s.sys.ring)
    && |s.hands| == |s.gate.slots|
    && forall i: nat | i < |s.hands| :: HandOk(s.sys.ring, s.gate.slots[i], s.hands[i])
  }

  /** Only slot i and its hand moved. */
  lemma HandsAfter(r: B.Ring, slots: seq<G.Slot>, hands: seq<Hand>, slots': seq<G.Slot>, hands': seq<Hand>, i: nat)
    requires |hands| == |slots| == |slots'| == |hands'|
    requires forall k: nat | k < |hands| :: HandOk(r, slots[k], hands[k])
    requires forall k: nat | k < |hands| && k != i :: slots'[k] == slots[k] && hands'[k] == hands[k]
    requires i < |hands| ==> HandOk(r, slots'[i], hands'[i])
    ensures forall k: nat | k < |hands'| :: HandOk(r, slots'[k], hands'[k])
  {
    forall k: nat | k < |hands'| ensures HandOk(r, slots'[k], hands'[k]) {
      if k != i {
        assert HandOk(r, slots[k], hands[k]);
      }
    }
  }

  // ------------------------------------------------------------------ the ring grows

  lemma HandGrew(r: B.Ring, r': B.Ring, s: G.Slot, h: Hand)
    requires RingInv(r) && Grew(r, r') && HandOk(r, s, h)
    ensures HandOk(r', s, h)
  {
    if s.state.Active? && s.who.Live? {
      MarksKept(r, r', h);
      if s.who.rd < r.tail {
        FrameKept(r, r', s.who.rd);
      }
    }
  }

  lemma MarksKept(r: B.Ring, r': B.Ring, h: Hand)
    requires Grew(r, r')
    ensures forall m: nat | m <= |r.frames| :: Mark(r'.frames, r'.tail, m) == Mark(r.frames, r.tail, m)
    ensures |r.frames| <= |r'.frames|
  {
  }

  /** A producer step on both halves. */
  lemma BothMove(s: Anchored, gate': G.Gate, ring': B.Ring)
    requires AnchoredInv(s) && P.GateInv(gate') && gate'.slots == s.gate.slots
    requires RingInv(ring') && Grew(s.sys.ring, ring') && Linked(gate', ring')
    ensures AnchoredInv(s.(gate := gate', sys := s.sys.(ring := ring')))
  {
    T.RingStepKeeps(s.sys, ring');
    forall i: nat | i < |s.hands| ensures HandOk(ring', gate'.slots[i], s.hands[i]) {
      assert HandOk(s.sys.ring, s.gate.slots[i], s.hands[i]);
      HandGrew(s.sys.ring, ring', s.gate.slots[i], s.hands[i]);
    }
  }

  lemma GateOnly(s: Anchored, a: G.Action)
    requires AnchoredInv(s) && (a.DoTry? || a.DoScan? || a.DoAbandon?)
    ensures AnchoredInv(s.(gate := G.Apply(s.gate, a)))
  {
    P.ApplyKeeps(s.gate, a);
  }

  lemma DeclareOk(s: Anchored, msg: seq<Byte>)
    requires AnchoredInv(s)
    ensures AnchoredInv(Declare(s, msg))
  {
    if Declare(s, msg) != s {
      DeclareLinked(s, msg);
      BeginWriteOk(s.gate);
      DeclareKeeps(s.sys.ring, msg);
      BothMove(s, G.BeginWrite(s.gate), B.Declare(s.sys.ring, msg));
    }
  }

  lemma BeginWriteOk(gate: G.Gate)
    requires P.GateInv(gate)
    ensures P.GateInv(G.BeginWrite(gate)) && G.BeginWrite(gate).slots == gate.slots
  {
    P.ApplyKeeps(gate, G.DoBeginWrite);
  }

  lemma DeclareLinked(s: Anchored, msg: seq<Byte>)
    requires Linked(s.gate, s.sys.ring) && Declare(s, msg) != s
    requires s.sys.ring.prod.Ready? ==> s.gate.prod.Up? && s.sys.ring.prod.next == s.gate.prod.next
    ensures Linked(G.BeginWrite(s.gate), B.Declare(s.sys.ring, msg))
    ensures Declare(s, msg) == s.(gate := G.BeginWrite(s.gate), sys := s.sys.(ring := B.Declare(s.sys.ring, msg)))
  {
  }

  lemma ProduceLinked(gate: G.Gate, ring: B.Ring)
    requires Linked(gate, ring) && ring.prod.Writing? && ring.prod.next == ring.tail == gate.prod.next
    requires |ring.prod.msg| <= MaxMessageLen(ring.cap)
    ensures ring.prod.stage.TailDue? ==> Linked(G.Publish(gate), B.Produce(ring))
    ensures !ring.prod.stage.TailDue? ==> Linked(gate, B.Produce(ring))
  {
  }

  function PublishedGate(gate: G.Gate, ring: B.Ring): G.Gate {
    if ring.prod.Writing? && ring.prod.stage.TailDue? then G.Publish(gate) else gate
  }

  lemma PublishOk(gate: G.Gate, ring: B.Ring)
    requires P.GateInv(gate)
    ensures P.GateInv(PublishedGate(gate, ring)) && PublishedGate(gate, ring).slots == gate.slots
  {
    P.ApplyKeeps(gate, G.DoPublish);
  }

  lemma ProduceFacts(ring: B.Ring)
    requires RingInv(ring) && ring.prod.Writing?
    ensures ring.prod.next == ring.tail && |ring.prod.msg| <= MaxMessageLen(ring.cap)
  {
  }

  lemma ProduceOk(s: Anchored)
    requires AnchoredInv(s)
    ensures AnchoredInv(Produce(s))
  {
    var ring := s.sys.ring;
    if ring.prod.Writing? {
      ProduceKeeps(ring);
      ProduceFacts(ring);
      ProduceLinked(s.gate, ring);
      PublishOk(s.gate, ring);
      BothMove(s, PublishedGate(s.gate, ring), B.Produce(ring));
    }
  }

  lemma StopLinked(gate: G.Gate, ring: B.Ring)
    requires Linked(gate, ring)
    ensures Linked(G.CrashProducer(gate), B.Crash(ring))
    ensures ring.prod.Ready? ==> Linked(G.CrashProducer(gate), B.Close(ring))
  {
  }

  lemma StopOk(s: Anchored)
    requires AnchoredInv(s)
    ensures AnchoredInv(Close(s)) && AnchoredInv(Crash(s))
  {
    CrashOk(s);
    if Close(s) != s {
      StopKeeps(s.sys.ring);
      StopLinked(s.gate, s.sys.ring);
      GateDies(s.gate);
      BothMove(s, G.CrashProducer(s.gate), B.Close(s.sys.ring));
    }
  }

  lemma CrashOk(s: Anchored)
    requires AnchoredInv(s)
    ensures AnchoredInv(Crash(s))
  {
    StopKeeps(s.sys.ring);
    StopLinked(s.gate, s.sys.ring);
    GateDies(s.gate);
    BothMove(s, G.CrashProducer(s.gate), B.Crash(s.sys.ring));
  }

  lemma GateDies(gate: G.Gate)
    requires P.GateInv(gate)
    ensures P.GateInv(G.CrashProducer(gate)) && G.CrashProducer(gate).slots == gate.slots
  {
    P.ApplyKeeps(gate, G.DoCrash);
  }

  function AttachedGate(gate: G.Gate, ring: B.Ring): G.Gate {
    if ring.prod.Healed? then G.AttachProducer(gate) else gate
  }

  lemma AttachLinked(gate: G.Gate, ring: B.Ring)
    requires Linked(gate, ring) && gate.tail <= gate.hi
    ensures Linked(AttachedGate(gate, ring), B.Attach(ring))
  {
  }

  lemma GateAttaches(gate: G.Gate, ring: B.Ring)
    requires P.GateInv(gate)
    ensures P.GateInv(AttachedGate(gate, ring)) && AttachedGate(gate, ring).slots == gate.slots
  {
    P.ApplyKeeps(gate, G.DoAttach);
  }

  lemma AttachOk(s: Anchored)
    requires AnchoredInv(s)
    ensures AnchoredInv(Attach(s))
  {
    AttachKeeps(s.sys.ring);
    AttachLinked(s.gate, s.sys.ring);
    GateAttaches(s.gate, s.sys.ring);
    BothMove(s, AttachedGate(s.gate, s.sys.ring), B.Attach(s.sys.ring));
  }

  // ------------------------------------------------------------------ the table

  lemma HandTable(tail: nat, r: B.Ring, s: G.Slot, h: Hand, a: G.Action)
    requires HandOk(r, s, h) && P.HolderOk(tail, s) && tail == r.tail
    requires TableAction(a) && !a.DoClaim?
    ensures HandOk(r, G.SlotStep(tail, s, a), HandAfter(h, s.who, a, |r.frames|))
  {
  }

  lemma TableOk(s: Anchored, a: G.Action)
    requires AnchoredInv(s) && TableAction(a)
    ensures AnchoredInv(Table(s, a))
  {
    var s' := Table(s, a);
    P.ApplyKeeps(s.gate, a);
    TableLinked(s, a);
    forall k: nat | k < |s'.hands| ensures HandOk(s'.sys.ring, s'.gate.slots[k], s'.hands[k]) {
      assert HandOk(s.sys.ring, s.gate.slots[k], s.hands[k]) && P.SlotOk(s.gate, k);
      if k == a.i && !a.DoClaim? {
        HandTable(s.gate.tail, s.sys.ring, s.gate.slots[k], s.hands[k], a);
      }
    }
  }

  lemma TableLinked(s: Anchored, a: G.Action)
    requires TableAction(a) && Linked(s.gate, s.sys.ring) && |s.hands| == |s.gate.slots|
    ensures var s' := Table(s, a);
      && Linked(s'.gate, s'.sys.ring) && |s'.hands| == |s'.gate.slots| == |s.gate.slots| && s'.sys == s.sys
      && (forall k: nat | k < |s.hands| && k != a.i :: s'.hands[k] == s.hands[k] && s'.gate.slots[k] == s.gate.slots[k])
  {
  }

  // ------------------------------------------------------------------ the decode

  /** A joined anchor's cursor is inside the window: the gate keeps the declared intent behind it. */
  lemma AnchorInWindow(s: Anchored, i: nat)
    requires AnchoredInv(s) && Holds(s, i) && s.gate.slots[i].state.Active?
    ensures InWindow(s.sys.ring, s.gate.slots[i].who.rd)
  {
    assert P.SlotOk(s.gate, i) && P.Protected(s.gate.slots[i]);
  }

  /** With data ahead of it, a reader between records stands on the next frame it is owed. */
  lemma OnOwed(r: B.Ring, k: nat, seen: nat, rd: nat)
    requires RingInv(r) && k <= seen <= |r.frames| && Next(r, k, rd) && rd < Mark(r.frames, r.tail, seen)
    ensures k < seen && OnFrame(r, rd) && FrameOf(r, rd) == r.frames[k]
  {
    if k < |r.frames| {
      FramedAll(r.frames, r.tail, r.cap, k);
      FrameShape(r.frames[k], r.cap);
      StandsAt(r, k, rd);
    }
  }

  lemma PcMoves(r: B.Ring, h: Hand, who: G.Holder, pc: B.ReadPc)
    requires who.Live? && Reads(r, h, who) && who.rd < who.cache
    requires PcOk(r, who.rd, pc) && (pc.LengthDue? || pc.CopyDue?)
    ensures Reads(r, h.(pc := pc), who)
  {
  }

  lemma BeginSeen(r: B.Ring, pos: nat)
    requires OnFrame(r, pos)
    ensures PcOk(r, pos, B.LengthDue(pos))
  {
    FrameShape(FrameOf(r, pos), r.cap);
  }

  lemma BeginOk(r: B.Ring, h: Hand, who: G.Holder)
    requires who.Live? && OnFrame(r, who.rd) && Reads(r, h, who) && who.rd < who.cache
    ensures Reads(r, h.(pc := B.LengthDue(who.rd)), who)
  {
    BeginSeen(r, who.rd);
    PcMoves(r, h, who, B.LengthDue(who.rd));
  }

  lemma LengthSeen(r: B.Ring, pos: nat, c: nat)
    requires OnFrame(r, pos) && CursorOk(r, pos, c) && InWindow(r, pos)
    ensures PcOk(r, pos, AfterHeader(r.cap, c, B.Load(r.buf, Off(c, r.cap) / LANE)))
  {
    HeaderSeen(r, pos, c);
    FrameShape(FrameOf(r, pos), r.cap);
    SkipLands(FrameOf(r, pos), c, r.cap);
  }

  lemma LengthOk(r: B.Ring, h: Hand, who: G.Holder, c: nat)
    requires who.Live? && OnFrame(r, who.rd) && InWindow(r, who.rd)
    requires who.Live? && Reads(r, h, who) && h.pc == B.LengthDue(c)
    ensures Reads(r, h.(pc := AfterHeader(r.cap, c, B.Load(r.buf, Off(c, r.cap) / LANE))), who)
  {
    LengthSeen(r, who.rd, c);
    PcMoves(r, h, who, AfterHeader(r.cap, c, B.Load(r.buf, Off(c, r.cap) / LANE)));
  }

  lemma LaneOk(r: B.Ring, h: Hand, who: G.Holder, c: nat, len: nat, out: seq<Byte>)
    requires who.Live? && OnFrame(r, who.rd)
    requires who.Live? && Reads(r, h, who) && h.pc == B.CopyDue(c, len, out) && |out| < len
    ensures var l := B.Load(r.buf, (Off(c, r.cap) + HEADER + |out|) / LANE);
      Reads(r, h.(pc := B.CopyDue(c, len, Extend(out, len, l))), who)
  {
    var l := B.Load(r.buf, (Off(c, r.cap) + HEADER + |out|) / LANE);
    CopyStepOk(r, who.rd, c, len, out, l);
    PcMoves(r, h, who, B.CopyDue(c, len, Extend(out, len, l)));
  }

  /** The next frame ends at the next mark, at or before the cached tail. */
  lemma NextMark(frames: seq<Frame>, tail: nat, cap: Size, k: nat, seen: nat)
    requires Geometry(cap) && Framed(frames, tail, cap) && k < seen <= |frames|
    ensures frames[k].End() == Mark(frames, tail, k + 1) <= Mark(frames, tail, seen)
    ensures frames[k].Rec() <= frames[k].End()
  {
    MarksAscend(frames, tail, cap, k, seen);
    FramedAll(frames, tail, cap, k);
    MarksAscend(frames, tail, cap, k + 1, seen);
  }

  lemma DeliverOk(r: B.Ring, h: Hand, who: G.Holder, c: nat, len: nat, out: seq<Byte>)
    requires who.Live? && OnFrame(r, who.rd) && InWindow(r, who.rd) && Framed(r.frames, r.tail, r.cap)
    requires h.first + |h.got| < h.seen <= |r.frames| && FrameOf(r, who.rd) == r.frames[h.first + |h.got|]
    requires who.Live? && Reads(r, h, who) && h.pc == B.CopyDue(c, len, out) && |out| == len
    ensures var end := c + RecordLen(len);
      who.rd <= end <= who.cache
      && Reads(r, h.(got := h.got + [out], pc := B.ReadPc.Idle), who.(rd := end))
  {
    AcceptExact(r, who.rd, c, len, out);
    NextMark(r.frames, r.tail, r.cap, h.first + |h.got|, h.seen);
    DeliverGiven(r, h, who, out);
  }

  lemma DeliverGiven(r: B.Ring, h: Hand, who: G.Holder, out: seq<Byte>)
    requires who.Live? && Reads(r, h, who) && h.first + |h.got| < h.seen <= |r.frames|
    requires out == r.frames[h.first + |h.got|].msg
    ensures var end := Mark(r.frames, r.tail, h.first + |h.got| + 1);
      Reads(r, h.(got := h.got + [out], pc := B.ReadPc.Idle), who.(rd := end))
  {
  }

  lemma ForgetOk(r: B.Ring, h: Hand, who: G.Holder, c: nat, len: nat, out: seq<Byte>)
    requires who.Live? && OnFrame(r, who.rd) && InWindow(r, who.rd) && Framed(r.frames, r.tail, r.cap)
    requires h.first + |h.got| < h.seen <= |r.frames| && FrameOf(r, who.rd) == r.frames[h.first + |h.got|]
    requires who.Live? && Reads(r, h, who) && h.pc == B.CopyDue(c, len, out)
    ensures who.rd <= c <= who.cache && Reads(r, h.(pc := B.ReadPc.Idle), who.(rd := c))
  {
    NextMark(r.frames, r.tail, r.cap, h.first + |h.got|, h.seen);
    assert c == r.frames[h.first + |h.got|].Rec();
  }

  // ------------------------------------------------------------------ anchors' steps

  /** A step of one anchor: its hand, and its read cursor below the cached tail. */
  lemma HandMoves(s: Anchored, i: nat, to: nat, h: Hand)
    requires AnchoredInv(s) && Holds(s, i)
    requires var who := s.gate.slots[i].who;
      s.gate.slots[i].state.Active? ==> who.rd <= to <= who.cache && Reads(s.sys.ring, h, who.(rd := to))
    ensures AnchoredInv(Advance(s, i, to, h))
  {
    var s' := Advance(s, i, to, h);
    ReadGate(s, i, to, h);
    ReadMoves(s, i, to, h);
    MovedHands(s, i, to, h, s');
    Reassembled(s, s');
  }

  lemma ReadGate(s: Anchored, i: nat, to: nat, h: Hand)
    requires P.GateInv(s.gate) && Holds(s, i)
    ensures P.GateInv(Advance(s, i, to, h).gate)
  {
    var rd := s.gate.slots[i].who.rd;
    P.ApplyKeeps(s.gate, G.DoRead(i, if rd <= to then to - rd else 0));
  }

  lemma MovedHands(s: Anchored, i: nat, to: nat, h: Hand, s': Anchored)
    requires Holds(s, i) && s' == Advance(s, i, to, h) && |s'.hands| == |s'.gate.slots| == |s.hands| == |s.gate.slots|
    requires forall k: nat | k < |s.hands| :: HandOk(s.sys.ring, s.gate.slots[k], s.hands[k])
    requires forall k: nat | k < |s.hands| && k != i :: s'.hands[k] == s.hands[k] && s'.gate.slots[k] == s.gate.slots[k]
    requires s'.hands[i] == h && s'.gate.slots[i].who.Live?
    requires s'.gate.slots[i].state.Active? ==> Reads(s.sys.ring, h, s'.gate.slots[i].who)
    ensures forall k: nat | k < |s'.hands| :: HandOk(s.sys.ring, s'.gate.slots[k], s'.hands[k])
  {
    MovedHand(s.sys.ring, s'.gate.slots[i], h);
    HandsAfter(s.sys.ring, s.gate.slots, s.hands, s'.gate.slots, s'.hands, i);
  }

  lemma Reassembled(s: Anchored, s': Anchored)
    requires T.SystemInv(s.sys) && s'.sys == s.sys && P.GateInv(s'.gate) && Linked(s'.gate, s'.sys.ring)
    requires |s'.hands| == |s'.gate.slots|
    requires forall k: nat | k < |s'.hands| :: HandOk(s.sys.ring, s'.gate.slots[k], s'.hands[k])
    ensures AnchoredInv(s')
  {
  }

  lemma MovedHand(r: B.Ring, s: G.Slot, h: Hand)
    requires s.who.Live? && (s.state.Active? ==> Reads(r, h, s.who))
    ensures HandOk(r, s, h)
  {
  }

  lemma ReadMoves(s: Anchored, i: nat, to: nat, h: Hand)
    requires Holds(s, i) && |s.hands| == |s.gate.slots| && Linked(s.gate, s.sys.ring)
    ensures var s' := Advance(s, i, to, h); var who := s.gate.slots[i].who;
      && s'.sys == s.sys && Linked(s'.gate, s'.sys.ring) && |s'.hands| == |s'.gate.slots| == |s.hands|
      && (forall k: nat | k < |s.hands| && k != i :: s'.hands[k] == s.hands[k] && s'.gate.slots[k] == s.gate.slots[k])
      && s'.hands[i] == h && s'.gate.slots[i].state == s.gate.slots[i].state
      && (who.rd <= to <= who.cache ==> s'.gate.slots[i].who == who.(rd := to))
      && s'.gate.slots[i].who.Live?
  {
  }

  /** A step that leaves the cursor where it is. */
  lemma PcStep(s: Anchored, i: nat, h: Hand)
    requires AnchoredInv(s) && Holds(s, i)
    requires s.gate.slots[i].state.Active? ==> Reads(s.sys.ring, h, s.gate.slots[i].who)
    ensures AnchoredInv(s.(hands := s.hands[i := h]))
  {
    var s' := s.(hands := s.hands[i := h]);
    forall k: nat | k < |s'.hands| ensures HandOk(s'.sys.ring, s'.gate.slots[k], s'.hands[k]) {
      assert HandOk(s.sys.ring, s.gate.slots[k], s.hands[k]);
    }
  }

  /** What the composed invariant says of one joined anchor in the middle of a decode. */
  predicate Owed(r: B.Ring, h: Hand, who: G.Holder) {
    && who.Live? && Reads(r, h, who) && who.cache <= r.tail && Framed(r.frames, r.tail, r.cap)
    && InWindow(r, who.rd)
    && (who.rd < who.cache ==>
          && h.first + |h.got| < h.seen && OnFrame(r, who.rd) && FrameOf(r, who.rd) == r.frames[h.first + |h.got|])
  }

  lemma SlotOwed(r: B.Ring, h: Hand, s: G.Slot)
    requires RingInv(r) && s.state.Active? && s.who.Live? && HandOk(r, s, h) && s.who.cache <= r.tail
    requires InWindow(r, s.who.rd)
    ensures Owed(r, h, s.who)
  {
    if s.who.rd < s.who.cache {
      OnOwed(r, h.first + |h.got|, h.seen, s.who.rd);
    }
  }

  lemma AnchorOwed(s: Anchored, i: nat)
    requires AnchoredInv(s) && Holds(s, i) && s.gate.slots[i].state.Active?
    ensures Owed(s.sys.ring, s.hands[i], s.gate.slots[i].who)
  {
    AnchorInWindow(s, i);
    assert P.SlotOk(s.gate, i);
    SlotOwed(s.sys.ring, s.hands[i], s.gate.slots[i]);
  }

  lemma BeginKeeps(s: Anchored, i: nat)
    requires AnchoredInv(s)
    ensures AnchoredInv(Begin(s, i))
  {
    if Begin(s, i) != s {
      if s.gate.slots[i].state.Active? {
        AnchorOwed(s, i);
        BeginOk(s.sys.ring, s.hands[i], s.gate.slots[i].who);
      }
      PcStep(s, i, s.hands[i].(pc := B.LengthDue(s.gate.slots[i].who.rd)));
    }
  }

  lemma LoadedOk(r: B.Ring, h: Hand, who: G.Holder)
    requires Owed(r, h, who) && !h.pc.Idle? && !Copied(h.pc)
    ensures Reads(r, LoadStep(r, h), who)
  {
    if h.pc.LengthDue? {
      LoadedLength(r, h, who);
    } else {
      LoadedLane(r, h, who);
    }
  }

  lemma LoadedLength(r: B.Ring, h: Hand, who: G.Holder)
    requires who.Live? && OnFrame(r, who.rd) && InWindow(r, who.rd) && Reads(r, h, who) && h.pc.LengthDue?
    ensures Reads(r, LoadStep(r, h), who)
  {
    LengthOk(r, h, who, h.pc.cursor);
  }

  lemma LoadedLane(r: B.Ring, h: Hand, who: G.Holder)
    requires who.Live? && OnFrame(r, who.rd) && Reads(r, h, who) && h.pc.CopyDue? && !Copied(h.pc)
    ensures Reads(r, LoadStep(r, h), who)
  {
    LaneOk(r, h, who, h.pc.cursor, h.pc.len, h.pc.out);
  }

  lemma LoadKeeps(s: Anchored, i: nat)
    requires AnchoredInv(s) && Holds(s, i) && !Copied(s.hands[i].pc) && !s.hands[i].pc.Idle?
    ensures AnchoredInv(Decode(s, i))
  {
    if s.gate.slots[i].state.Active? {
      AnchorOwed(s, i);
      LoadedOk(s.sys.ring, s.hands[i], s.gate.slots[i].who);
    }
    PcStep(s, i, LoadStep(s.sys.ring, s.hands[i]));
  }

  lemma DeliveredOk(r: B.Ring, h: Hand, who: G.Holder)
    requires Owed(r, h, who) && Copied(h.pc)
    ensures var end := RecordEnd(h.pc);
      who.rd <= end <= who.cache && Reads(r, HandedOver(h), who.(rd := end))
  {
    DeliverOk(r, h, who, h.pc.cursor, h.pc.len, h.pc.out);
  }

  lemma DeliverKeeps(s: Anchored, i: nat)
    requires AnchoredInv(s) && Holds(s, i) && Copied(s.hands[i].pc)
    ensures AnchoredInv(Decode(s, i))
  {
    var end := RecordEnd(s.hands[i].pc);
    DeliverTo(s, i, end);
    HandMoves(s, i, end, HandedOver(s.hands[i]));
  }

  lemma DeliverTo(s: Anchored, i: nat, end: nat)
    requires AnchoredInv(s) && Holds(s, i) && Copied(s.hands[i].pc) && end == RecordEnd(s.hands[i].pc)
    ensures var who := s.gate.slots[i].who; s.gate.slots[i].state.Active? ==>
      who.rd <= end <= who.cache && Reads(s.sys.ring, HandedOver(s.hands[i]), who.(rd := end))
  {
    if s.gate.slots[i].state.Active? {
      AnchorOwed(s, i);
      DeliveredOk(s.sys.ring, s.hands[i], s.gate.slots[i].who);
    }
  }

  lemma ForgottenOk(r: B.Ring, h: Hand, who: G.Holder)
    requires Owed(r, h, who) && h.pc.CopyDue?
    ensures who.rd <= h.pc.cursor <= who.cache && Reads(r, h.(pc := B.ReadPc.Idle), who.(rd := h.pc.cursor))
  {
    ForgetOk(r, h, who, h.pc.cursor, h.pc.len, h.pc.out);
  }

  lemma ForgetKeeps(s: Anchored, i: nat)
    requires AnchoredInv(s)
    ensures AnchoredInv(Forget(s, i))
  {
    if Holds(s, i) && s.hands[i].pc.CopyDue? {
      if s.gate.slots[i].state.Active? {
        AnchorOwed(s, i);
        ForgottenOk(s.sys.ring, s.hands[i], s.gate.slots[i].who);
      }
      HandMoves(s, i, s.hands[i].pc.cursor, s.hands[i].(pc := B.ReadPc.Idle));
    }
  }

  lemma DecodeKeeps(s: Anchored, i: nat)
    requires AnchoredInv(s)
    ensures AnchoredInv(Decode(s, i))
  {
    if Holds(s, i) {
      if Copied(s.hands[i].pc) {
        DeliverKeeps(s, i);
      } else if !s.hands[i].pc.Idle? {
        LoadKeeps(s, i);
      } else {
        assert s.hands[i := s.hands[i]] == s.hands;
      }
    }
  }

  lemma ObserveKeeps(s: Anchored, b: B.Action)
    requires AnchoredInv(s) && ObserverAction(b)
    ensures AnchoredInv(s.(sys := B.Apply(s.sys, b)))
  {
    T.ApplyKeeps(s.sys, b);
    assert B.Apply(s.sys, b).ring == s.sys.ring;
  }

  lemma TryOk(s: Anchored, msg: seq<Byte>)
    requires AnchoredInv(s)
    ensures AnchoredInv(Try(s, msg))
  {
    if Try(s, msg) != s {
      GateOnly(s, G.DoTry(Needed(s.sys.ring.prod.next, msg, s.sys.ring.cap)));
    }
  }

  lemma ApplyKeeps(s: Anchored, a: Action)
    requires AnchoredInv(s)
    ensures AnchoredInv(Apply(s, a))
  {
    match a
    case DoTry(msg) => TryOk(s, msg);
    case DoScan => GateOnly(s, G.DoScan);
    case DoAbandon => GateOnly(s, G.DoAbandon);
    case DoDeclare(msg) => DeclareOk(s, msg);
    case DoProduce => ProduceOk(s);
    case DoClose => StopOk(s);
    case DoCrash => StopOk(s);
    case DoAttach => AttachOk(s);
    case _ => ReadersKeep(s, a);
  }

  lemma ReadersKeep(s: Anchored, a: Action)
    requires AnchoredInv(s) && (a.DoTable? || a.DoObserve? || a.DoBegin? || a.DoDecode? || a.DoForget?)
    ensures AnchoredInv(Apply(s, a))
  {
    match a
    case DoTable(b) =>
      if TableAction(b) {
        TableOk(s, b);
      }
    case DoObserve(b) =>
      if ObserverAction(b) {
        ObserveKeeps(s, b);
      }
    case DoBegin(i) => BeginKeeps(s, i);
    case DoDecode(i) => DecodeKeeps(s, i);
    case DoForget(i) => ForgetKeeps(s, i);
  }

  lemma StartOk(cap: Size, n: nat)
    requires LegalCapacity(cap)
    ensures AnchoredInv(Start(cap, n))
  {
    P.StartOk(cap, n);
    T.StartSound(cap);
  }

  lemma {:induction false} RunKeeps(cap: Size, n: nat, actions: seq<Action>)
    requires LegalCapacity(cap)
    ensures AnchoredInv(Run(Start(cap, n), actions))
  {
    if actions == [] {
      StartOk(cap, n);
    } else {
      var m := |actions| - 1;
      RunKeeps(cap, n, actions[..m]);
      ApplyKeeps(Run(Start(cap, n), actions[..m]), actions[m]);
    }
  }
}
