/** What every run of the lossy byte ring guarantees, whatever the interleaving and wherever the
    producer dies. */
module BytesTheorems {
  import opened Framing
  import opened BytesRing
  import opened BytesProof
  import opened BytesReaders

  predicate SystemInv(s: System) {
    RingInv(s.ring) && forall i: nat | i < |s.readers| :: ReaderInv(s.ring, s.readers[i])
  }

  lemma RingStepKeeps(s: System, ring': Ring)
    requires SystemInv(s) && RingInv(ring') && Grew(s.ring, ring')
    ensures SystemInv(s.(ring := ring'))
  {
    forall i: nat | i < |s.readers| ensures ReaderInv(ring', s.readers[i]) {
      ReaderGrew(s.ring, ring', s.readers[i]);
    }
  }

  lemma ReaderStepKeeps(s: System, i: nat, a': Reader)
    requires SystemInv(s) && i < |s.readers| && ReaderInv(s.ring, a')
    ensures SystemInv(s.(readers := s.readers[i := a']))
  {
  }

  lemma ApplyKeeps(s: System, a: Action)
    requires SystemInv(s)
    ensures SystemInv(Apply(s, a))
  {
    match a
    case DoDeclare(msg) =>
      DeclareKeeps(s.ring, msg);
      RingStepKeeps(s, Declare(s.ring, msg));
    case DoProduce =>
      ProduceKeeps(s.ring);
      RingStepKeeps(s, Produce(s.ring));
    case DoClose =>
      StopKeeps(s.ring);
      RingStepKeeps(s, Close(s.ring));
    case DoCrash =>
      StopKeeps(s.ring);
      RingStepKeeps(s, Crash(s.ring));
    case DoAttach =>
      AttachKeeps(s.ring);
      RingStepKeeps(s, Attach(s.ring));
    case DoSubscribe => SubscribeOk(s.ring);
    case DoPop(i) =>
      if i < |s.readers| {
        PopKeeps(s.ring, s.readers[i]);
        ReaderStepKeeps(s, i, BeginPop(s.readers[i]));
      }
    case DoSkip(i) =>
      if i < |s.readers| {
        SkipToLatestKeeps(s.ring, s.readers[i]);
        ReaderStepKeeps(s, i, SkipToLatest(s.ring, s.readers[i]));
      }
    case DoRead(i) =>
      if i < |s.readers| {
        ReadKeeps(s.ring, s.readers[i]);
        ReaderStepKeeps(s, i, ReadStep(s.ring, s.readers[i]));
      }
  }

  lemma ApplyCap(s: System, a: Action)
    ensures Apply(s, a).ring.cap == s.ring.cap
  {
  }

  predicate Sound(s: System, cap: Size) { SystemInv(s) && s.ring.cap == cap }

  lemma StartSound(cap: Size)
    requires LegalCapacity(cap)
    ensures Sound(Start(cap), cap)
  {
    LegalCapacityIsAligned(cap);
    NewRingOk(cap);
    SubscribeOk(NewRing(cap));
  }

  lemma StepSound(s: System, a: Action, s': System, cap: Size)
    requires Sound(s, cap) && s' == Apply(s, a)
    ensures Sound(s', cap)
  {
    ApplyKeeps(s, a);
    ApplyCap(s, a);
  }

  lemma {:induction false} RunKeeps(cap: Size, actions: seq<Action>)
    requires LegalCapacity(cap)
    ensures Sound(Run(Start(cap), actions), cap)
  {
    if actions == [] {
      StartSound(cap);
    } else {
      var n := |actions| - 1;
      RunKeeps(cap, actions[..n]);
      StepSound(Run(Start(cap), actions[..n]), actions[n], Run(Start(cap), actions), cap);
    }
  }

  // ------------------------------------------------------------------ accept implies intact

  /** In every interleaving, with any crashes and recoveries, an accepted copy is exactly one committed
      message, read from its own frame boundary. */
  lemma AcceptedIsIntact(cap: Size, actions: seq<Action>, i: nat, j: nat)
    requires LegalCapacity(cap)
    requires var s := Run(Start(cap), actions); i < |s.readers| && j < |s.readers[i].log| && s.readers[i].log[j].Got?
    ensures var s := Run(Start(cap), actions); var e := s.readers[i].log[j];
      exists k: nat :: k < |s.ring.frames| && s.ring.frames[k].msg == e.msg && s.ring.frames[k].End() == e.end
                       && (s.ring.frames[k].start == e.at || s.ring.frames[k].Rec() == e.at)
  {
    RunKeeps(cap, actions);
    var s := Run(Start(cap), actions);
    var a := s.readers[i];
    LogEntry(s.ring.frames, s.ring.tail, a.join, a.log, a.pos, j);
    var k := IndexOf(s.ring.frames, a.log[j].at);
    assert s.ring.frames[k].msg == a.log[j].msg;
  }

  lemma {:induction false} LogEntry(frames: seq<Frame>, tail: nat, join: nat, log: seq<Event>, pos: nat, j: nat)
    requires LogOk(frames, tail, join, log, pos) && j < |log|
    ensures join <= pos
    ensures log[j].Got? ==>
      Delivered(frames, tail, log[j].at, log[j].end, log[j].msg) && join <= log[j].at && log[j].end <= pos
  {
    LogBounds(frames, tail, join, log, pos);
    var n := |log| - 1;
    var before := Before(log, pos);
    LogBounds(frames, tail, join, log[..n], before);
    if j < n {
      LogEntry(frames, tail, join, log[..n], before, j);
    }
  }

  /** The position before the last event. */
  function Before(log: seq<Event>, pos: nat): nat
    requires log != []
  {
    match log[|log| - 1]
    case Got(at, _, _) => at
    case Lag(n) => if n <= pos then pos - n else 0
    case Skip(n) => if n <= pos then pos - n else 0
    case Shut => pos
  }

  lemma {:induction false} LogBounds(frames: seq<Frame>, tail: nat, join: nat, log: seq<Event>, pos: nat)
    requires LogOk(frames, tail, join, log, pos)
    ensures join <= pos
  {
    if log != [] {
      LogBounds(frames, tail, join, log[..|log| - 1], Before(log, pos));
    }
  }

  // ------------------------------------------------------------------ order and accounting

  /** Deliveries come in stream order and never repeat: each starts at or after the end of the one before. */
  lemma {:induction false} DeliveriesInOrder(cap: Size, actions: seq<Action>, i: nat, j: nat, k: nat)
    requires LegalCapacity(cap)
    requires var s := Run(Start(cap), actions); i < |s.readers| && j < k < |s.readers[i].log|
    requires var log := Run(Start(cap), actions).readers[i].log; log[j].Got? && log[k].Got?
    ensures var s := Run(Start(cap), actions); var log := s.readers[i].log;
      log[j].end <= log[k].at && IndexOf(s.ring.frames, log[j].at) < IndexOf(s.ring.frames, log[k].at)
  {
    RunKeeps(cap, actions);
    var s := Run(Start(cap), actions);
    var a := s.readers[i];
    LogOrdered(s.ring.frames, s.ring.tail, a.join, a.log, a.pos, j, k);
    LogEntry(s.ring.frames, s.ring.tail, a.join, a.log, a.pos, j);
    LogEntry(s.ring.frames, s.ring.tail, a.join, a.log, a.pos, k);
    LaterFrame(s.ring.frames, s.ring.tail, cap, a.log[j].at, a.log[k].at);
  }

  lemma {:induction false} LogOrdered(frames: seq<Frame>, tail: nat, join: nat, log: seq<Event>, pos: nat, j: nat,
                                      k: nat)
    requires LogOk(frames, tail, join, log, pos) && j < k < |log| && log[j].Got? && log[k].Got?
    ensures log[j].end <= log[k].at
  {
    var n := |log| - 1;
    var before := Before(log, pos);
    if k < n {
      LogOrdered(frames, tail, join, log[..n], before, j, k);
    } else {
      LogEntry(frames, tail, join, log[..n], before, j);
    }
  }

  lemma LaterFrame(frames: seq<Frame>, tail: nat, cap: Size, p: nat, q: nat)
    requires Geometry(cap) && Framed(frames, tail, cap) && p < tail && q < tail && frames != []
    requires frames[IndexOf(frames, p)].End() <= q
    ensures IndexOf(frames, p) < IndexOf(frames, q)
  {
    IndexCovers(frames, tail, cap, q);
    var i, j := IndexOf(frames, p), IndexOf(frames, q);
    FramedAll(frames, tail, cap, i);
    FrameShape(frames[i], cap);
    EndsAscend(frames, tail, cap, j, i);
  }

  lemma EndsAscend(frames: seq<Frame>, tail: nat, cap: Size, i: nat, j: nat)
    requires Geometry(cap) && Framed(frames, tail, cap) && i < |frames| && j < |frames|
    ensures i < j ==> frames[i].End() <= frames[j].start
  {
    if i < j {
      EndsOrdered(frames, tail, cap, i, j);
    }
  }

  lemma {:induction false} EndsOrdered(frames: seq<Frame>, tail: nat, cap: Size, i: nat, j: nat)
    requires Geometry(cap) && Framed(frames, tail, cap) && i < j < |frames|
    ensures frames[i].End() <= frames[j].start
    decreases j - i
  {
    FramedAll(frames, tail, cap, i);
    if i + 1 < j {
      FramedAll(frames, tail, cap, i + 1);
      FrameShape(frames[i + 1], cap);
      EndsOrdered(frames, tail, cap, i + 1, j);
    }
  }

  function Bytes(e: Event): int {
    match e
    case Got(at, end, _) => end - at
    case Lag(n) => n
    case Skip(n) => n
    case Shut => 0
  }

  function Total(log: seq<Event>): int {
    if log == [] then 0 else Total(log[..|log| - 1]) + Bytes(log[|log| - 1])
  }

  lemma {:induction false} LogTotal(frames: seq<Frame>, tail: nat, join: nat, log: seq<Event>, pos: nat)
    requires LogOk(frames, tail, join, log, pos)
    ensures pos == join + Total(log)
  {
    if log != [] {
      LogTotal(frames, tail, join, log[..|log| - 1], Before(log, pos));
    }
  }

  /** Exact accounting: the join point plus everything accepted, missed and skipped is the position. */
  lemma {:induction false} AccountingIsExact(cap: Size, actions: seq<Action>, i: nat)
    requires LegalCapacity(cap) && i < |Run(Start(cap), actions).readers|
    ensures var a := Run(Start(cap), actions).readers[i]; a.pos == a.join + Total(a.log)
  {
    RunKeeps(cap, actions);
    var s := Run(Start(cap), actions);
    var a := s.readers[i];
    LogTotal(s.ring.frames, s.ring.tail, a.join, a.log, a.pos);
  }

  // ------------------------------------------------------------------ laps and loads

  /** A reader about to reposition has really been lapped (a bounds-check failure included), every lane
      it loads lies inside the buffer, and where data reaches it, it stands on a frame boundary. */
  lemma ReadersAreSafe(cap: Size, actions: seq<Action>, i: nat)
    requires LegalCapacity(cap) && i < |Run(Start(cap), actions).readers|
    ensures var r := Run(Start(cap), actions).ring; var a := Run(Start(cap), actions).readers[i];
      && (a.pc.ReloadDue? || a.pc.JumpDue? ==> a.pos + cap < r.intent)
      && (a.pc.LengthDue? ==> Off(a.pc.cursor, cap) / LANE < |r.buf|)
      && (a.pc.CopyDue? && |a.pc.out| < a.pc.len ==> (Off(a.pc.cursor, cap) + HEADER + |a.pc.out|) / LANE < |r.buf|)
      && (a.pos < r.tail ==> exists k: nat ::
            (k < |r.frames| && (a.pos == r.frames[k].start || a.pos == r.frames[k].Rec())))
  {
    RunKeeps(cap, actions);
    var r, a := Run(Start(cap), actions).ring, Run(Start(cap), actions).readers[i];
    assert ReaderInv(r, a);
    if a.pc.LengthDue? {
      CellInRange(a.pc.cursor, cap);
    }
    if a.pc.CopyDue? && |a.pc.out| < a.pc.len {
      CopyInRange(Off(a.pc.cursor, cap), |a.pc.out|, a.pc.len, cap);
    }
    if a.pos < r.tail {
      StandsOnFrame(r, a.pos);
      var k := IndexOf(r.frames, a.pos);
      assert a.pos == r.frames[k].start || a.pos == r.frames[k].Rec();
    }
  }

  lemma CopyInRange(off: nat, have: nat, len: nat, cap: Size)
    requires Geometry(cap) && off + RecordLen(len) <= cap && have < len
    ensures (off + HEADER + have) / LANE < cap / LANE
  {
    assert off + 4 + have < cap;
  }

  /** The declared intent never regresses, through crashes and recoveries alike. */
  lemma IntentNeverRegresses(cap: Size, actions: seq<Action>, a: Action)
    requires LegalCapacity(cap)
    ensures Run(Start(cap), actions).ring.intent <= Run(Start(cap), actions + [a]).ring.intent
  {
    RunKeeps(cap, actions);
    var s := Run(Start(cap), actions);
    assert (actions + [a])[..|actions|] == actions;
    DeclareGrows(s.ring, a);
  }

  lemma DeclareGrows(r: Ring, a: Action)
    requires RingInv(r)
    ensures r.intent <= Apply(System(r, []), a).ring.intent
  {
    match a
    case DoDeclare(msg) => DeclareKeeps(r, msg);
    case _ =>
  }

  /** No step moves a reader back. */
  lemma PosStep(s: System, a: Action, i: nat)
    requires SystemInv(s) && i < |s.readers|
    ensures i < |Apply(s, a).readers| && s.readers[i].pos <= Apply(s, a).readers[i].pos
  {
    if a == DoRead(i) {
      assert ReaderInv(s.ring, s.readers[i]);
      ReadForward(s.ring, s.readers[i]);
    }
  }

  lemma ReadForward(r: Ring, a: Reader)
    requires RingInv(r) && ReaderInv(r, a)
    ensures a.pos <= ReadStep(r, a).pos
  {
    if a.pc.CopyDue? && |a.pc.out| == a.pc.len && !Lapped(r, a.pos) {
      StandsOnFrame(r, a.pos);
      AcceptExact(r, a.pos, a.pc.cursor, a.pc.len, a.pc.out);
    }
  }

  // ------------------------------------------------------------------ every lap makes progress

  predicate NoEmptyLap(log: seq<Event>) { Lag(0) !in log }

  predicate Progressing(s: System) {
    forall i: nat | i < |s.readers| :: NoEmptyLap(s.readers[i].log)
  }

  ghost predicate AlwaysProgresses(cap: Size) {
    forall actions: seq<Action> :: Progressing(Run(Start(cap), actions))
  }

  /** The jump target is never more than three records behind the declared intent. */
  lemma JumpAdvances(r: Ring, a: Reader)
    requires RingInv(r) && ReaderInv(r, a) && a.pc.JumpDue? && r.cap >= 16
    ensures r.latest > a.pos
  {
    ThreeRecords(r.cap);
  }

  lemma {:induction false} RunProgresses(cap: Size, actions: seq<Action>)
    requires LegalCapacity(cap) && cap >= 16
    ensures Progressing(Run(Start(cap), actions))
  {
    if actions != [] {
      var prior := actions[..|actions| - 1];
      RunProgresses(cap, prior);
      RunKeeps(cap, prior);
      StepProgresses(Run(Start(cap), prior), actions[|actions| - 1], Run(Start(cap), actions));
    }
  }

  lemma StepProgresses(s: System, a: Action, s': System)
    requires SystemInv(s) && s.ring.cap >= 16 && Progressing(s) && s' == Apply(s, a)
    ensures Progressing(s')
  {
    if a.DoRead? && a.i < |s.readers| {
      assert ReaderInv(s.ring, s.readers[a.i]) && NoEmptyLap(s.readers[a.i].log);
      ReadProgresses(s.ring, s.readers[a.i]);
    }
  }

  lemma ReadProgresses(r: Ring, a: Reader)
    requires RingInv(r) && ReaderInv(r, a) && r.cap >= 16 && NoEmptyLap(a.log)
    ensures NoEmptyLap(ReadStep(r, a).log)
  {
    if a.pc.JumpDue? {
      JumpAdvances(r, a);
    }
  }

  /** The smallest ring's empty lap: one record committed, the next declared, the reader still at zero. */
  function EmptyLapRun(): seq<Action> { PushEmpty() + [DoDeclare([]), DoPop(0)] + FourReads() }

  function PushEmpty(): seq<Action> { [DoDeclare([]), DoProduce, DoProduce, DoProduce] }

  function FourReads(): seq<Action> { [DoRead(0), DoRead(0), DoRead(0), DoRead(0)] }

  lemma {:induction false} RunAppend(s: System, first: seq<Action>, more: seq<Action>)
    ensures Run(s, first + more) == Run(Run(s, first), more)
  {
    if more == [] {
      assert first + more == first;
    } else {
      var n := |more| - 1;
      RunAppend(s, first, more[..n]);
      var all := first + more;
      assert all[..|all| - 1] == first + more[..n] && all[|all| - 1] == more[n];
      var u := Run(Run(s, first), more[..n]);
      assert Run(s, all) == Apply(u, more[n]);
    }
  }

  lemma RunFour(s: System, a: Action, b: Action, c: Action, d: Action)
    ensures Run(s, [a, b, c, d]) == Apply(Apply(Apply(Apply(s, a), b), c), d)
  {
    RunTwo(s, a, b);
    RunTwo(Apply(Apply(s, a), b), c, d);
    RunAppend(s, [a, b], [c, d]);
    assert [a, b] + [c, d] == [a, b, c, d];
  }

  lemma RunTwo(s: System, a: Action, b: Action)
    ensures Run(s, [a, b]) == Apply(Apply(s, a), b)
  {
    assert [a, b][..1] == [a] && [a][..0] == [];
    assert Run(s, [a]) == Apply(s, a);
  }

  function EightFrame(start: nat): Frame { Frame(start, 0, []) }

  lemma EightFrames(start: nat)
    requires start == 0 || start == 8
    ensures NewFrame(start, [], 8) == EightFrame(start) && EightFrame(start).End() == start + 8
    ensures MaxMessageLen(8) == 1
  {
  }

  /** The stores of an empty first record, one at a time. */
  lemma HeaderEight(r: Ring)
    requires r.cap == 8 && r.prod == Writing(0, 0, [], HeaderDue)
    ensures Produce(r).cap == 8 && Produce(r).prod == Writing(0, 0, [], LatestDue)
  {
    EightFrames(0);
    assert FirstLane(0) == LatestDue;
  }

  lemma LatestEight(r: Ring)
    requires r.cap == 8 && r.prod == Writing(0, 0, [], LatestDue)
    ensures Produce(r).cap == 8 && Produce(r).latest == 0 && Produce(r).prod == Writing(0, 0, [], TailDue)
  {
    EightFrames(0);
  }

  lemma TailEight(r: Ring)
    requires r.cap == 8 && r.prod == Writing(0, 0, [], TailDue)
    ensures Produce(r).cap == 8 && Produce(r).latest == r.latest && Produce(r).tail == 8
    ensures Produce(r).prod == Ready(8, 0)
  {
    EightFrames(0);
  }

  lemma DeclareEight(r: Ring, start: nat)
    requires r.cap == 8 && r.prod == Ready(start, 0) && (start == 0 || start == 8)
    ensures Declare(r, []) == r.(intent := start + 8, prod := Writing(start, 0, [], HeaderDue))
  {
    EightFrames(start);
  }

  lemma PushedEight(r: Ring, r1: Ring, r2: Ring, r3: Ring, r4: Ring)
    requires r.cap == 8 && r.prod == Ready(0, 0)
    requires r1 == Declare(r, []) && r2 == Produce(r1) && r3 == Produce(r2) && r4 == Produce(r3)
    ensures r4.cap == 8 && r4.tail == 8 && r4.latest == 0 && r4.prod == Ready(8, 0)
  {
    DeclareEight(r, 0);
    HeaderEight(r1);
    LatestEight(r2);
    TailEight(r3);
  }

  lemma PushRun(s: System)
    requires s.ring.cap == 8 && s.ring.prod == Ready(0, 0)
    ensures Run(s, PushEmpty()).readers == s.readers
    ensures var r := Run(s, PushEmpty()).ring; r.cap == 8 && r.tail == 8 && r.latest == 0 && r.prod == Ready(8, 0)
  {
    RunFour(s, DoDeclare([]), DoProduce, DoProduce, DoProduce);
    var r1 := Declare(s.ring, []);
    PushedEight(s.ring, r1, Produce(r1), Produce(Produce(r1)), Produce(Produce(Produce(r1))));
  }

  lemma LapRun(s: System)
    requires s.ring.cap == 8 && s.ring.prod == Ready(8, 0) && s.ring.tail == 8 && s.ring.latest == 0
    requires s.readers == [Reader(0, 0, Idle, 0, [])]
    ensures Run(Run(s, [DoDeclare([]), DoPop(0)]), FourReads()).readers == [Reader(0, 8, Idle, 0, [Lag(0)])]
  {
    RunTwo(s, DoDeclare([]), DoPop(0));
    DeclareEight(s.ring, 8);
    var s' := Run(s, [DoDeclare([]), DoPop(0)]);
    var a := Reader(0, 0, RefreshDue, 0, []);
    assert s'.readers == [a];
    LappedAtZero(s'.ring, Reader(0, 0, Idle, 0, []));
    ReadFour(s'.ring, a);
  }

  lemma ReadFour(r: Ring, a: Reader)
    ensures Run(System(r, [a]), FourReads()) == System(r, [ReadStep(r, ReadStep(r, ReadStep(r, ReadStep(r, a))))])
  {
    RunFour(System(r, [a]), DoRead(0), DoRead(0), DoRead(0), DoRead(0));
    ReadOne(r, a);
    ReadOne(r, ReadStep(r, a));
    ReadOne(r, ReadStep(r, ReadStep(r, a)));
    ReadOne(r, ReadStep(r, ReadStep(r, ReadStep(r, a))));
  }

  lemma ReadOne(r: Ring, a: Reader)
    ensures Apply(System(r, [a]), DoRead(0)) == System(r, [ReadStep(r, a)])
  {
  }

  lemma EmptyLapAtEight()
    ensures !Progressing(Run(Start(8), EmptyLapRun()))
  {
    var s := Start(8);
    PushRun(s);
    LapRun(Run(s, PushEmpty()));
    RunAppend(s, PushEmpty(), [DoDeclare([]), DoPop(0)]);
    RunAppend(s, PushEmpty() + [DoDeclare([]), DoPop(0)], FourReads());
    assert Run(s, EmptyLapRun()).readers[0].log == [Lag(0)];
  }

  lemma LappedAtZero(r: Ring, a: Reader)
    requires a == Reader(0, 0, Idle, 0, []) && r.tail == 8 && r.latest == 0 && r.intent == 16 && r.cap == 8
    ensures ReadStep(r, ReadStep(r, ReadStep(r, ReadStep(r, a.(pc := RefreshDue))))) == Reader(0, 8, Idle, 0, [Lag(0)])
  {
    var a1 := ReadStep(r, a.(pc := RefreshDue));
    assert a1 == Reader(0, 8, WindowDue(0), 0, []);
    var a2 := ReadStep(r, a1);
    assert a2 == Reader(0, 8, ReloadDue, 0, []);
    var a3 := ReadStep(r, a2);
    assert a3 == Reader(0, 8, JumpDue, 0, []);
  }

  /** Every lap of every run makes progress exactly when the capacity is at least 16. */
  lemma EveryLapMakesProgress(cap: Size)
    requires LegalCapacity(cap)
    ensures AlwaysProgresses(cap) <==> cap >= 16
  {
    LegalCapacityIsAligned(cap);
    if cap >= 16 {
      forall actions: seq<Action> ensures Progressing(Run(Start(cap), actions)) {
        RunProgresses(cap, actions);
      }
    } else {
      EmptyLapAtEight();
    }
  }

  // ------------------------------------------------------------------ closed means drained

  /** What holds as long as no successor reopens the ring. */
  predicate OneSession(r: Ring, a: Reader) {
    && a.pos <= Max(r.tail, r.latest)
    && (a.pc.DrainDue? ==> r.closed)
    && (Shut in a.log ==> r.closed && r.tail <= a.pos)
    && (r.closed ==> r.latest <= r.tail)
    && (r.prod.Ready? || (r.prod.Writing? && !r.prod.stage.TailDue?) ==> r.latest <= r.tail)
    && !r.prod.Opened? && !r.prod.Healed?
  }

  predicate OneSessionAll(s: System) {
    forall i: nat | i < |s.readers| :: OneSession(s.ring, s.readers[i])
  }

  lemma OneSessionProducer(r: Ring, r': Ring, a: Reader, act: Action)
    requires RingInv(r) && OneSession(r, a)
    requires act.DoDeclare? || act.DoProduce? || act.DoClose? || act.DoCrash?
    requires r' == Apply(System(r, []), act).ring
    ensures OneSession(r', a)
  {
    if act.DoProduce? && r.prod.Writing? {
      var f := NewFrame(r.prod.next, r.prod.msg, r.cap);
      NewFrameLegal(r, r.prod.msg);
      FrameShape(f, r.cap);
    }
  }

  lemma {:induction false} OneSessionRun(cap: Size, actions: seq<Action>)
    requires LegalCapacity(cap) && DoAttach !in actions
    ensures OneSessionAll(Run(Start(cap), actions)) && Run(Start(cap), actions).readers != []
  {
    if actions != [] {
      var prior := actions[..|actions| - 1];
      OneSessionRun(cap, prior);
      RunKeeps(cap, prior);
      var s, a := Run(Start(cap), prior), actions[|actions| - 1];
      OneSessionApply(s, a);
    }
  }

  lemma OneSessionApply(s: System, a: Action)
    requires SystemInv(s) && OneSessionAll(s) && s.readers != [] && !a.DoAttach?
    ensures OneSessionAll(Apply(s, a)) && Apply(s, a).readers != []
  {
    var s' := Apply(s, a);
    assert OneSession(s.ring, s.readers[0]);
    if a.DoDeclare? || a.DoProduce? || a.DoClose? || a.DoCrash? {
      assert s'.readers == s.readers && s'.ring == Apply(System(s.ring, []), a).ring;
      forall i: nat | i < |s.readers| ensures OneSession(s'.ring, s.readers[i]) {
        OneSessionProducer(s.ring, s'.ring, s.readers[i], a);
      }
    } else if a.DoSubscribe? {
      assert OneSession(s.ring, Subscribe(s.ring));
    } else {
      OneSessionReaders(s, a);
    }
  }

  lemma OneSessionReaders(s: System, a: Action)
    requires SystemInv(s) && OneSessionAll(s) && (a.DoPop? || a.DoSkip? || a.DoRead?)
    ensures OneSessionAll(Apply(s, a)) && |Apply(s, a).readers| == |s.readers|
  {
    if a.i < |s.readers| {
      var b := s.readers[a.i];
      assert OneSession(s.ring, b) && ReaderInv(s.ring, b);
      OneSessionReader(s.ring, b);
      var b' := if a.DoPop? then BeginPop(b) else if a.DoSkip? then SkipToLatest(s.ring, b) else ReadStep(s.ring, b);
      OneSessionUpdate(s, a.i, b');
    }
  }

  lemma OneSessionUpdate(s: System, i: nat, b: Reader)
    requires OneSessionAll(s) && i < |s.readers| && OneSession(s.ring, b)
    ensures OneSessionAll(s.(readers := s.readers[i := b]))
  {
  }

  lemma OneSessionReader(r: Ring, a: Reader)
    requires RingInv(r) && ReaderInv(r, a) && OneSession(r, a)
    ensures OneSession(r, ReadStep(r, a)) && OneSession(r, BeginPop(a)) && OneSession(r, SkipToLatest(r, a))
  {
    if a.pc.CopyDue? && |a.pc.out| == a.pc.len && !Lapped(r, a.pos) {
      AcceptStays(r, a);
    } else {
      ElseStays(r, a);
    }
  }

  lemma AcceptStays(r: Ring, a: Reader)
    requires RingInv(r) && ReaderInv(r, a) && OneSession(r, a)
    requires a.pc.CopyDue? && |a.pc.out| == a.pc.len && !Lapped(r, a.pos)
    ensures OneSession(r, ReadStep(r, a))
  {
    StandsOnFrame(r, a.pos);
    AcceptExact(r, a.pos, a.pc.cursor, a.pc.len, a.pc.out);
    StaysOne(r, a, a.pc.cursor + RecordLen(a.pc.len));
  }

  lemma StaysOne(r: Ring, a: Reader, end: nat)
    requires OneSession(r, a) && a.pc.CopyDue? && |a.pc.out| == a.pc.len && !Lapped(r, a.pos)
    requires end == a.pc.cursor + RecordLen(a.pc.len) && a.pos <= end <= r.tail && a.pos < r.tail
    ensures OneSession(r, ReadStep(r, a))
  {
    assert ReadStep(r, a) == a.(pos := end, pc := Idle, log := a.log + [Got(a.pos, end, a.pc.out)]);
  }

  lemma ElseStays(r: Ring, a: Reader)
    requires OneSession(r, a) && !(a.pc.CopyDue? && |a.pc.out| == a.pc.len && !Lapped(r, a.pos))
    requires a.pc.CopyDue? ==> |a.pc.out| <= a.pc.len
    ensures OneSession(r, ReadStep(r, a)) && OneSession(r, BeginPop(a)) && OneSession(r, SkipToLatest(r, a))
  {
  }

  /** Within one producer session, a reader that has been told `Closed` stays at the final tail, having
      accounted for every byte since its join point. */
  lemma ClosedStaysDrained(cap: Size, actions: seq<Action>, i: nat)
    requires LegalCapacity(cap) && DoAttach !in actions
    requires i < |Run(Start(cap), actions).readers| && Shut in Run(Start(cap), actions).readers[i].log
    ensures var s := Run(Start(cap), actions); var a := s.readers[i];
      s.ring.closed && a.pos == s.ring.tail && Total(a.log) == s.ring.tail - a.join
  {
    OneSessionRun(cap, actions);
    var s := Run(Start(cap), actions);
    assert OneSession(s.ring, s.readers[i]);
    AccountingIsExact(cap, actions, i);
  }
}
