/** What `Closed` means on the lossy byte ring, over every run with its crashes and recoveries: told only
    after a graceful close with everything committed behind the reader, and at the tail itself exactly
    when no jump of that reader landed on a record whose writer died before publishing it. */
module BytesClose {
  import opened Framing
  import opened BytesRing
  import opened BytesProof
  import opened BytesReaders
  import opened BytesTheorems
  import opened BytesHandles

  /** The step that tells a reader `Closed`. */
  predicate TellsShut(r: Ring, a: Reader) { a.pc.DrainDue? && r.tail <= a.pos }

  lemma ShutIsTold(r: Ring, a: Reader)
    ensures ReadStep(r, a).log == a.log + [Shut] <==> TellsShut(r, a)
  {
    var b := ReadStep(r, a);
    if b.log == a.log + [Shut] {
      assert b.log[|a.log|] == Shut;
    }
  }

  // ------------------------------------------------------------------ after a graceful close

  /** At step k reader i's pop found the ring closed, and the reader has stood still since. */
  predicate SawClosed(s: System, actions: seq<Action>, i: nat, k: nat) {
    && k < |actions| && actions[k] == DoRead(i)
    && var t, u := Run(s, actions[..k]), Run(s, actions);
      && i < |t.readers| && i < |u.readers|
      && t.ring.closed && t.readers[i].pc.ClosedDue?
      && u.readers[i].pos == t.readers[i].pos && u.readers[i].log == t.readers[i].log
  }

  lemma SawBefore(s: System, actions: seq<Action>, i: nat, k: nat)
    requires actions != [] && SawClosed(s, actions[..|actions| - 1], i, k)
    requires var t, u := Run(s, actions[..|actions| - 1]), Run(s, actions);
      i < |u.readers| && u.readers[i].pos == t.readers[i].pos && u.readers[i].log == t.readers[i].log
    ensures SawClosed(s, actions, i, k)
  {
    assert actions[..|actions| - 1][..k] == actions[..k];
  }

  /** What one step does to a reader about to decide. */
  lemma DrainStepBack(s: System, a: Action, i: nat)
    requires i < |Apply(s, a).readers| && Apply(s, a).readers[i].pc.DrainDue?
    ensures i < |s.readers|
    ensures Apply(s, a).readers[i].pos == s.readers[i].pos && Apply(s, a).readers[i].log == s.readers[i].log
    ensures s.readers[i].pc.DrainDue? || (a == DoRead(i) && s.readers[i].pc.ClosedDue? && s.ring.closed)
  {
  }

  lemma {:induction false} DrainSawClosed(s: System, actions: seq<Action>, i: nat)
    requires forall j: nat | j < |s.readers| :: s.readers[j].pc.Idle?
    requires i < |Run(s, actions).readers| && Run(s, actions).readers[i].pc.DrainDue?
    ensures exists k: nat :: SawClosed(s, actions, i, k)
  {
    if actions != [] {
      var n := |actions| - 1;
      var t := Run(s, actions[..n]);
      DrainStepBack(t, actions[n], i);
      if t.readers[i].pc.DrainDue? {
        DrainSawClosed(s, actions[..n], i);
        var k: nat :| SawClosed(s, actions[..n], i, k);
        SawBefore(s, actions, i, k);
      } else {
        assert SawClosed(s, actions, i, n);
      }
    }
  }

  /** Over every run: a reader is told `Closed` only in a pop that found the ring closed, with everything
      committed behind it and every byte it moved over accounted for. */
  lemma ClosedMeansDrained(cap: Size, actions: seq<Action>, i: nat)
    requires LegalCapacity(cap)
    requires var s := Run(Start(cap), actions); i < |s.readers| && TellsShut(s.ring, s.readers[i])
    ensures exists k: nat :: SawClosed(Start(cap), actions, i, k)
    ensures var s := Run(Start(cap), actions); var a := s.readers[i];
      s.ring.tail <= a.pos <= s.ring.intent && Total(a.log) == a.pos - a.join
  {
    DrainSawClosed(Start(cap), actions, i);
    AccountingIsExact(cap, actions, i);
    RunKeeps(cap, actions);
    var s := Run(Start(cap), actions);
    assert ReaderInv(s.ring, s.readers[i]);
  }

  /** Reader i was told its j-th event, `Closed`, at step m. */
  predicate ToldAt(s: System, actions: seq<Action>, i: nat, j: nat, m: nat) {
    && m < |actions| && actions[m] == DoRead(i)
    && var t, u := Run(s, actions[..m]), Run(s, actions);
      && i < |t.readers| && i < |u.readers| && j < |u.readers[i].log|
      && TellsShut(t.ring, t.readers[i]) && t.readers[i].log == u.readers[i].log[..j]
  }

  lemma LogStep(s: System, a: Action, i: nat)
    requires i < |Apply(s, a).readers|
    ensures i < |s.readers| ==> s.readers[i].log <= Apply(s, a).readers[i].log
    ensures i >= |s.readers| ==> Apply(s, a).readers[i].log == []
    ensures i < |s.readers| && Apply(s, a).readers[i].log != s.readers[i].log ==>
      && |Apply(s, a).readers[i].log| == |s.readers[i].log| + 1
      && (Apply(s, a).readers[i].log[|s.readers[i].log|] == Shut ==>
            a == DoRead(i) && TellsShut(s.ring, s.readers[i]))
  {
  }

  /** Every `Closed` in a log was told at such a step. */
  lemma {:induction false} EveryShutWasTold(s: System, actions: seq<Action>, i: nat, j: nat)
    requires forall l: nat | l < |s.readers| :: s.readers[l].log == []
    requires i < |Run(s, actions).readers| && j < |Run(s, actions).readers[i].log|
    requires Run(s, actions).readers[i].log[j] == Shut
    ensures exists m: nat :: ToldAt(s, actions, i, j, m)
  {
    if actions != [] {
      var n := |actions| - 1;
      var t, u := Run(s, actions[..n]), Run(s, actions);
      LogStep(t, actions[n], i);
      if j < |t.readers[i].log| {
        EveryShutWasTold(s, actions[..n], i, j);
        var m: nat :| ToldAt(s, actions[..n], i, j, m);
        assert actions[..n][..m] == actions[..m];
        assert t.readers[i].log[..j] == u.readers[i].log[..j];
        assert ToldAt(s, actions, i, j, m);
      } else {
        assert u.readers[i].log[..j] == t.readers[i].log;
        assert ToldAt(s, actions, i, j, n);
      }
    }
  }

  // ------------------------------------------------------------------ exactly when at the tail

  /** At step k reader i jumped to a `latest` beyond anything committed by the end of the run: a record
      whose writer died between its two counter stores, before a successor repaired the counter. */
  predicate JumpedPast(s: System, actions: seq<Action>, i: nat, k: nat) {
    && k < |actions| && actions[k] == DoRead(i)
    && var t := Run(s, actions[..k]);
      && i < |t.readers| && t.readers[i].pc.JumpDue?
      && t.ring.latest > Run(s, actions).ring.tail
  }

  /** One step moves a reader past a bound on the tail only by such a jump. */
  lemma StepWithin(s: System, a: Action, i: nat, bound: nat)
    requires SystemInv(s) && i < |Apply(s, a).readers| && s.ring.tail <= bound
    requires i < |s.readers| ==> s.readers[i].pos <= bound
    ensures Apply(s, a).readers[i].pos <= bound
            || (a == DoRead(i) && i < |s.readers| && s.readers[i].pc.JumpDue? && s.ring.latest > bound)
  {
    if a == DoRead(i) && i < |s.readers| {
      assert ReaderInv(s.ring, s.readers[i]);
      ReadWithin(s.ring, s.readers[i]);
    }
  }

  lemma ReadWithin(r: Ring, a: Reader)
    requires RingInv(r) && ReaderInv(r, a)
    ensures !a.pc.JumpDue? ==> ReadStep(r, a).pos <= Max(a.pos, r.tail)
  {
    if a.pc.CopyDue? && |a.pc.out| == a.pc.len && !Lapped(r, a.pos) {
      StandsOnFrame(r, a.pos);
      AcceptExact(r, a.pos, a.pc.cursor, a.pc.len, a.pc.out);
    }
  }

  /** At step k reader i's jump read a `latest` above the bound. */
  predicate JumpedAbove(s: System, actions: seq<Action>, i: nat, k: nat, bound: nat) {
    && k < |actions| && actions[k] == DoRead(i)
    && var t := Run(s, actions[..k]); i < |t.readers| && t.readers[i].pc.JumpDue? && t.ring.latest > bound
  }

  lemma {:induction false} CameByJump(cap: Size, actions: seq<Action>, i: nat, bound: nat)
    requires LegalCapacity(cap) && Run(Start(cap), actions).ring.tail <= bound
    requires i < |Run(Start(cap), actions).readers| && Run(Start(cap), actions).readers[i].pos > bound
    ensures exists k: nat :: JumpedAbove(Start(cap), actions, i, k, bound)
  {
    var s := Start(cap);
    if actions != [] {
      var n := |actions| - 1;
      var t := Run(s, actions[..n]);
      RunKeeps(cap, actions[..n]);
      TailStep(t, actions[n]);
      if i < |t.readers| && t.readers[i].pos > bound {
        CameByJump(cap, actions[..n], i, bound);
        var k: nat :| JumpedAbove(s, actions[..n], i, k, bound);
        assert actions[..n][..k] == actions[..k];
        assert JumpedAbove(s, actions, i, k, bound);
      } else {
        StepWithin(t, actions[n], i, bound);
        assert JumpedAbove(s, actions, i, n, bound);
      }
    }
  }

  lemma TailStep(s: System, a: Action)
    requires SystemInv(s)
    ensures s.ring.tail <= Apply(s, a).ring.tail
  {
    if a.DoProduce? {
      ProduceKeeps(s.ring);
      CommitGrows(s.ring);
    }
  }

  lemma CommitGrows(r: Ring)
    requires RingInv(r)
    ensures r.tail <= Produce(r).tail
  {
  }

  lemma {:induction false} PosRises(cap: Size, actions: seq<Action>, i: nat, m: nat)
    requires LegalCapacity(cap) && m <= |actions| && i < |Run(Start(cap), actions[..m]).readers|
    ensures i < |Run(Start(cap), actions).readers|
    ensures Run(Start(cap), actions[..m]).readers[i].pos <= Run(Start(cap), actions).readers[i].pos
  {
    if m == |actions| {
      assert actions[..m] == actions;
    } else {
      var n := |actions| - 1;
      assert actions[..n][..m] == actions[..m];
      PosRises(cap, actions[..n], i, m);
      RunKeeps(cap, actions[..n]);
      PosStep(Run(Start(cap), actions[..n]), actions[n], i);
    }
  }

  lemma JumpLandsThere(s: System, i: nat)
    requires i < |s.readers| && s.readers[i].pc.JumpDue?
    ensures var s' := Apply(s, DoRead(i)); i < |s'.readers| && s'.readers[i].pos >= s.ring.latest
  {
  }

  lemma StaysPast(cap: Size, actions: seq<Action>, i: nat, k: nat, bound: nat)
    requires LegalCapacity(cap) && JumpedAbove(Start(cap), actions, i, k, bound)
    ensures i < |Run(Start(cap), actions).readers| && Run(Start(cap), actions).readers[i].pos > bound
  {
    var upTo := actions[..k + 1];
    assert upTo[..|upTo| - 1] == actions[..k] && upTo[|upTo| - 1] == actions[k];
    JumpLandsThere(Run(Start(cap), actions[..k]), i);
    PosRises(cap, actions, i, k + 1);
  }

  /** A reader told `Closed` stands at the final tail, and its total is the producer's, if and only if none
      of its jumps landed on a record that was never committed. */
  lemma AtTheTailIff(cap: Size, actions: seq<Action>, i: nat)
    requires LegalCapacity(cap)
    requires var s := Run(Start(cap), actions); i < |s.readers| && TellsShut(s.ring, s.readers[i])
    ensures var s := Run(Start(cap), actions); var a := s.readers[i];
      && (a.pos == s.ring.tail <==> !exists k: nat :: JumpedPast(Start(cap), actions, i, k))
      && (a.pos == s.ring.tail <==> Total(a.log) == s.ring.tail - a.join)
  {
    var s := Run(Start(cap), actions);
    var a, tail := s.readers[i], s.ring.tail;
    AccountingIsExact(cap, actions, i);
    if a.pos > tail {
      CameByJump(cap, actions, i, tail);
      var k: nat :| JumpedAbove(Start(cap), actions, i, k, tail);
      assert JumpedPast(Start(cap), actions, i, k);
    } else {
      forall k: nat ensures !JumpedPast(Start(cap), actions, i, k) {
        if JumpedPast(Start(cap), actions, i, k) {
          assert JumpedAbove(Start(cap), actions, i, k, tail);
          StaysPast(cap, actions, i, k, tail);
        }
      }
    }
  }

  // ------------------------------------------------------------------ a run that is not at the tail

  const EIGHT: seq<Byte> := [1, 2, 3, 4, 5, 6, 7, 8]

  /** On the 64-byte ring with its first reader still at zero. */
  predicate AtRest(s: System, next: nat) {
    && s.ring.cap == 64 && s.ring.prod == Ready(next, 0) && s.ring.tail == next && !s.ring.closed
    && s.readers == [Reader(0, 0, Idle, 0, [])]
  }

  predicate Storing(s: System, next: nat, msg: seq<Byte>) {
    && s.ring.cap == 64 && s.ring.prod.Writing? && s.ring.prod == Writing(next, 0, msg, s.ring.prod.stage)
    && s.ring.tail == next && !s.ring.closed && s.ring.intent == NewFrame(next, msg, 64).End()
    && s.readers == [Reader(0, 0, Idle, 0, [])]
    && (s.ring.prod.stage.LaneDue? ==> s.ring.prod.stage.k < LaneCount(|msg|))
    && (s.ring.prod.stage.TailDue? ==> s.ring.latest == NewFrame(next, msg, 64).Rec())
  }

  function StoresLeft(stage: Stage, lanes: nat): nat {
    match stage
    case PadDue => lanes + 3
    case HeaderDue => lanes + 2
    case LaneDue(k) => if k <= lanes then lanes - k + 1 else 1
    case LatestDue => 1
    case TailDue => 0
  }

  lemma StoringStep(s: System, next: nat, msg: seq<Byte>)
    requires Storing(s, next, msg) && !s.ring.prod.stage.TailDue? && |msg| <= 8
    ensures var s' := Apply(s, DoProduce);
      && Storing(s', next, msg)
      && StoresLeft(s'.ring.prod.stage, LaneCount(|msg|)) < StoresLeft(s.ring.prod.stage, LaneCount(|msg|))
  {
  }

  lemma RunOne(s: System, actions: seq<Action>, a: Action)
    ensures Run(s, actions + [a]) == Apply(Run(s, actions), a)
  {
    assert (actions + [a])[..|actions|] == actions;
  }

  /** A push up to, and not including, its tail store. */
  lemma Writes(actions: seq<Action>, next: nat, msg: seq<Byte>) returns (more: seq<Action>)
    requires AtRest(Run(Start(64), actions), next) && |msg| <= 8
    ensures Storing(Run(Start(64), more), next, msg) && Run(Start(64), more).ring.prod.stage.TailDue?
  {
    var s := Start(64);
    more := actions + [DoDeclare(msg)];
    RunOne(s, actions, DoDeclare(msg));
    while !Run(s, more).ring.prod.stage.TailDue?
      invariant Storing(Run(s, more), next, msg)
      decreases StoresLeft(Run(s, more).ring.prod.stage, LaneCount(|msg|))
    {
      StoringStep(Run(s, more), next, msg);
      RunOne(s, more, DoProduce);
      more := more + [DoProduce];
    }
  }

  lemma Pushes(actions: seq<Action>, next: nat, msg: seq<Byte>) returns (more: seq<Action>)
    requires AtRest(Run(Start(64), actions), next) && |msg| <= 8
    ensures AtRest(Run(Start(64), more), NewFrame(next, msg, 64).End())
  {
    more := Writes(actions, next, msg);
    RunOne(Start(64), more, DoProduce);
    more := more + [DoProduce];
  }

  lemma Frames64()
    ensures NewFrame(0, EIGHT, 64).End() == 16 && NewFrame(16, EIGHT, 64).End() == 32
    ensures NewFrame(32, EIGHT, 64).End() == 48 && NewFrame(48, [], 64).End() == 56
    ensures NewFrame(56, EIGHT, 64).Rec() == 64 && NewFrame(56, EIGHT, 64).End() == 80
  {
  }

  /** Three records and an empty one are committed, and the next, wrapping, has stored all but its tail. */
  lemma UpToTheTail() returns (actions: seq<Action>)
    ensures Storing(Run(Start(64), actions), 56, EIGHT) && Run(Start(64), actions).ring.prod.stage.TailDue?
  {
    Frames64();
    actions := [];
    actions := Pushes(actions, 0, EIGHT);
    actions := Pushes(actions, 16, EIGHT);
    actions := Pushes(actions, 32, EIGHT);
    actions := Pushes(actions, 48, []);
    actions := Writes(actions, 56, EIGHT);
  }

  predicate Jumped64(s: System, prod: Producer, latest: nat, closed: bool) {
    && s.ring.cap == 64 && s.ring.prod == prod && s.ring.tail == 56 && s.ring.intent == 80
    && s.ring.latest == latest && s.ring.closed == closed
    && s.readers == [Reader(64, 56, Idle, 0, [Lag(64)])]
  }

  lemma LappedTo64(r: Ring, a: Reader)
    requires a == Reader(0, 0, RefreshDue, 0, []) && r.tail == 56 && r.latest == 64 && r.intent == 80 && r.cap == 64
    ensures ReadStep(r, ReadStep(r, ReadStep(r, ReadStep(r, a)))) == Reader(64, 56, Idle, 0, [Lag(64)])
  {
    var a1 := ReadStep(r, a);
    assert a1 == Reader(0, 56, WindowDue(0), 0, []);
    var a2 := ReadStep(r, a1);
    assert a2 == Reader(0, 56, ReloadDue, 0, []);
    var a3 := ReadStep(r, a2);
    assert a3 == Reader(0, 56, JumpDue, 0, []);
  }

  lemma LapsAtZero(actions: seq<Action>) returns (more: seq<Action>)
    requires Storing(Run(Start(64), actions), 56, EIGHT) && Run(Start(64), actions).ring.prod.stage.TailDue?
    ensures Jumped64(Run(Start(64), more), Writing(56, 0, EIGHT, TailDue), 64, false)
  {
    Frames64();
    var s := Start(64);
    var r := Run(s, actions).ring;
    RunOne(s, actions, DoPop(0));
    more := actions + [DoPop(0)];
    assert Run(s, more) == System(r, [Reader(0, 0, RefreshDue, 0, [])]);
    ReadFour(r, Reader(0, 0, RefreshDue, 0, []));
    LappedTo64(r, Reader(0, 0, RefreshDue, 0, []));
    RunAppend(s, more, FourReads());
    more := more + FourReads();
  }

  lemma DiesAndHeals(actions: seq<Action>) returns (more: seq<Action>)
    requires Jumped64(Run(Start(64), actions), Writing(56, 0, EIGHT, TailDue), 64, false)
    ensures Jumped64(Run(Start(64), more), Dead, 56, true)
  {
    var s := Start(64);
    RunFour(Run(s, actions), DoCrash, DoAttach, DoAttach, DoAttach);
    RunAppend(s, actions, [DoCrash, DoAttach, DoAttach, DoAttach]);
    more := actions + [DoCrash, DoAttach, DoAttach, DoAttach];
    RunOne(s, more, DoClose);
    more := more + [DoClose];
  }

  /** Accounted bytes need not add up to the producer's: lapped, then jumping to a record whose writer dies
      before committing it, a reader of the successor's closed ring has counted 64 bytes of 56. */
  lemma CountsMoreThanWasSent() returns (actions: seq<Action>)
    ensures var s := Run(Start(64), actions);
      && |s.readers| == 1 && TellsShut(s.ring, s.readers[0])
      && s.ring.tail == 56 && s.readers[0].join == 0 && Total(s.readers[0].log) == 64
  {
    var s := Start(64);
    actions := UpToTheTail();
    actions := LapsAtZero(actions);
    actions := DiesAndHeals(actions);
    RunOne(s, actions, DoPop(0));
    actions := actions + [DoPop(0)];
    RunOne(s, actions, DoRead(0));
    actions := actions + [DoRead(0)];
    RunOne(s, actions, DoRead(0));
    actions := actions + [DoRead(0)];
    assert Run(s, actions).readers == [Reader(64, 56, DrainDue, 0, [Lag(64)])];
    assert [Lag(64)][..0] == [];
  }

  // ------------------------------------------------------------------ a drain always ends

  /** Between pushes, recovered and closed, the newest record lies in the window or all was read. */
  predicate Settled(r: Ring) { r.prod.Ready? || r.prod.Healed? || r.closed ==> JumpReaches(r) }

  lemma SettledStep(r: Ring, a: Action, r': Ring)
    requires RingInv(r) && Settled(r) && r' == Apply(System(r, []), a).ring && RingInv(r')
    ensures Settled(r')
  {
    if r.cap >= 16 {
      SixteenReaches(r');
    } else if a.DoProduce? && r.prod.Writing? && r.prod.stage.TailDue? {
      CommitEight(r);
      QuietReaches(r');
    } else {
      SettledEight(r, a, r');
    }
  }

  /** The smallest ring: every record is the whole ring. */
  lemma SettledEight(r: Ring, a: Action, r': Ring)
    requires Geometry(r.cap) && r.cap < 16 && Settled(r) && (r.closed ==> r.prod.Dead?) && CountersOk(r')
    requires r' == Apply(System(r, []), a).ring && !(a.DoProduce? && r.prod.Writing? && r.prod.stage.TailDue?)
    ensures Settled(r')
  {
    if a.DoAttach? && r.prod.Opened? && r.intent == r.tail {
      QuietReaches(r');
    }
  }

  lemma CommitEight(r: Ring)
    requires RingInv(r) && r.cap < 16 && r.prod.Writing? && r.prod.stage.TailDue?
    ensures Produce(r).intent == Produce(r).tail
  {
    var f := NewFrame(r.prod.next, r.prod.msg, r.cap);
    NewFrameLegal(r, r.prod.msg);
    FrameShape(f, r.cap);
    RecordIsTheRing(r.cap, |r.prod.msg|);
  }

  lemma RecordIsTheRing(cap: Size, len: nat)
    requires Geometry(cap) && cap < 16 && len <= MaxMessageLen(cap)
    ensures cap == 8 && RecordLen(len) == 8 == MaxRecordSpan(cap)
  {
  }

  lemma {:induction false} RunSettled(cap: Size, actions: seq<Action>)
    requires LegalCapacity(cap)
    ensures Settled(Run(Start(cap), actions).ring)
  {
    if actions != [] {
      var n := |actions| - 1;
      var t := Run(Start(cap), actions[..n]);
      RunSettled(cap, actions[..n]);
      RunKeeps(cap, actions[..n]);
      RunKeeps(cap, actions);
      RingStepOf(t, actions[n]);
      SettledStep(t.ring, actions[n], Run(Start(cap), actions).ring);
    }
  }

  lemma RingStepOf(s: System, a: Action)
    ensures Apply(s, a).ring == Apply(System(s.ring, []), a).ring
  {
  }

  /** Whatever happened before it was closed, at every capacity, `BytesConsumer.DrainToClosed` may be called
      on the ring and ends. */
  lemma ClosedRingDrains(cap: Size, actions: seq<Action>)
    requires LegalCapacity(cap) && Run(Start(cap), actions).ring.closed
    ensures JumpReaches(Run(Start(cap), actions).ring)
  {
    RunSettled(cap, actions);
  }
}
