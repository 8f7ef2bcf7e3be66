/** A producer waiting at the gate laps nobody: exactly which observers of the anchored byte ring can be
    told `Lagged` while no new push is declared. */
module AnchoredWaiting {
  import opened Framing
  import G = Gate
  import B = BytesRing
  import opened BytesProof
  import opened BytesReaders
  import T = BytesTheorems
  import opened AnchoredBytes
  import opened AnchoredProof
  import AnchoredTheorems

  // ------------------------------------------------------------------ nobody in the window is lapped

  predicate NoLagFrom(log: seq<B.Event>, told: nat) {
    told <= |log| && forall j: nat | told <= j < |log| :: !log[j].Lag?
  }

  /** Within a capacity of the intent, and told of no lap since it had been told `told` things. */
  predicate Unlapped(r: B.Ring, a: B.Reader, told: nat, intent: nat) {
    r.intent == intent <= a.pos + r.cap && NoLagFrom(a.log, told)
  }

  lemma ReaderUnlapped(r: B.Ring, a: B.Reader, told: nat, intent: nat)
    requires RingInv(r) && ReaderInv(r, a) && Unlapped(r, a, told, intent)
    ensures Unlapped(r, B.ReadStep(r, a), told, intent) && Unlapped(r, B.BeginPop(a), told, intent)
    ensures Unlapped(r, B.SkipToLatest(r, a), told, intent)
  {
    T.ReadForward(r, a);
  }

  lemma IntentStays(s: B.System, b: B.Action)
    requires !b.DoDeclare?
    ensures B.Apply(s, b).ring.intent == s.ring.intent && B.Apply(s, b).ring.cap == s.ring.cap
  {
  }

  lemma SystemUnlapped(s: B.System, b: B.Action, i: nat, told: nat, intent: nat)
    requires T.SystemInv(s) && i < |s.readers| && Unlapped(s.ring, s.readers[i], told, intent) && !b.DoDeclare?
    ensures var t := B.Apply(s, b); i < |t.readers| && Unlapped(t.ring, t.readers[i], told, intent)
  {
    IntentStays(s, b);
    if (b.DoPop? || b.DoSkip? || b.DoRead?) && b.i == i {
      assert ReaderInv(s.ring, s.readers[i]);
      ReaderUnlapped(s.ring, s.readers[i], told, intent);
    } else {
      OthersStand(s, b, i);
    }
  }

  lemma OthersStand(s: B.System, b: B.Action, i: nat)
    requires i < |s.readers| && !((b.DoPop? || b.DoSkip? || b.DoRead?) && b.i == i)
    ensures i < |B.Apply(s, b).readers| && B.Apply(s, b).readers[i] == s.readers[i]
  {
  }

  /** What one step of the anchored ring is for its lossy half. */
  function Lossy(s: Anchored, a: Action): B.Action {
    match a
    case DoProduce => B.DoProduce
    case DoClose => if s.gate.prod.Up? && s.gate.prod.pc.Idle? then B.DoClose else B.DoPop(|s.sys.readers|)
    case DoCrash => B.DoCrash
    case DoAttach => B.DoAttach
    case DoObserve(b) => if ObserverAction(b) then b else B.DoPop(|s.sys.readers|)
    case _ => B.DoPop(|s.sys.readers|)
  }

  lemma LossyStep(s: Anchored, a: Action)
    requires !a.DoDeclare?
    ensures Apply(s, a).sys == B.Apply(s.sys, Lossy(s, a)) && !Lossy(s, a).DoDeclare?
  {
  }

  lemma {:induction false} RunUnlapped(s: Anchored, more: seq<Action>, i: nat, told: nat, intent: nat)
    requires AnchoredInv(s) && (forall a | a in more :: !a.DoDeclare?)
    requires i < |s.sys.readers| && Unlapped(s.sys.ring, s.sys.readers[i], told, intent)
    ensures AnchoredInv(Run(s, more))
    ensures var t := Run(s, more).sys; i < |t.readers| && Unlapped(t.ring, t.readers[i], told, intent)
  {
    if more != [] {
      var n := |more| - 1;
      RunUnlapped(s, more[..n], i, told, intent);
      var t := Run(s, more[..n]);
      ApplyKeeps(t, more[n]);
      LossyStep(t, more[n]);
      SystemUnlapped(t.sys, Lossy(t, more[n]), i, told, intent);
    }
  }

  // ------------------------------------------------------------------ whoever is out of it can be told

  function Rank(pc: B.ReadPc): nat {
    match pc
    case ClosedDue => 8
    case Idle => 7
    case RefreshDue => 6
    case DrainDue => 6
    case LengthDue(_) => 5
    case CopyDue(_, _, _) => 4
    case WindowDue(_) => 3
    case SkipCheckDue(_) => 3
    case ReloadDue => 2
    case JumpDue => 1
  }

  function LeftToCopy(pc: B.ReadPc): nat { if pc.CopyDue? && |pc.out| <= pc.len then pc.len - |pc.out| else 0 }

  /** The next step of an observer popping over and over. */
  function NextObserve(a: B.Reader, i: nat): Action { DoObserve(if a.pc.Idle? then B.DoPop(i) else B.DoRead(i)) }

  function Popping(r: B.Ring, a: B.Reader): B.Reader { if a.pc.Idle? then B.BeginPop(a) else B.ReadStep(r, a) }

  predicate Behind(r: B.Ring, a: B.Reader) {
    !r.closed && a.pos < r.tail && a.pos + r.cap < r.intent && ReaderInv(r, a)
  }

  /** A lapped observer that keeps popping is told so. */
  lemma Approaches(r: B.Ring, a: B.Reader)
    requires RingInv(r) && Behind(r, a)
    ensures var b := Popping(r, a);
      if a.pc.JumpDue? then |b.log| == |a.log| + 1 && b.log[|a.log|].Lag? && b.log[..|a.log|] == a.log
      else
        && Behind(r, b) && b.log == a.log
        && (Rank(b.pc) < Rank(a.pc) || (Rank(b.pc) == Rank(a.pc) && LeftToCopy(b.pc) < LeftToCopy(a.pc)))
  {
    ReadKeeps(r, a);
    PopKeeps(r, a);
  }

  lemma Observes(s: Anchored, i: nat)
    requires i < |s.sys.readers|
    ensures var t := Apply(s, NextObserve(s.sys.readers[i], i));
      t.sys == s.sys.(readers := s.sys.readers[i := Popping(s.sys.ring, s.sys.readers[i])])
  {
  }

  predicate TellsLag(s: Anchored, more: seq<Action>, i: nat, told: nat) {
    && (forall a | a in more :: !a.DoDeclare?)
    && i < |Run(s, more).sys.readers| && !NoLagFrom(Run(s, more).sys.readers[i].log, told)
  }

  lemma LagComes(s: Anchored, i: nat) returns (more: seq<Action>)
    requires RingInv(s.sys.ring) && i < |s.sys.readers| && Behind(s.sys.ring, s.sys.readers[i])
    ensures TellsLag(s, more, i, |s.sys.readers[i].log|)
  {
    var r, log := s.sys.ring, s.sys.readers[i].log;
    var u := s;
    more := [];
    while !u.sys.readers[i].pc.JumpDue?
      invariant u == Run(s, more) && (forall a | a in more :: !a.DoDeclare?)
      invariant u.sys.ring == r && i < |u.sys.readers| && Behind(r, u.sys.readers[i]) && u.sys.readers[i].log == log
      decreases Rank(u.sys.readers[i].pc), LeftToCopy(u.sys.readers[i].pc)
    {
      u, more := OneMore(s, more, i);
    }
    u, more := OneMore(s, more, i);
  }

  lemma OneMore(s: Anchored, more: seq<Action>, i: nat) returns (u: Anchored, more': seq<Action>)
    requires var t := Run(s, more); i < |t.sys.readers| && RingInv(t.sys.ring) && Behind(t.sys.ring, t.sys.readers[i])
    requires forall a | a in more :: !a.DoDeclare?
    ensures u == Run(s, more') && forall a | a in more' :: !a.DoDeclare?
    ensures var t := Run(s, more).sys;
      && u.sys.ring == t.ring && i < |u.sys.readers|
      && var a, b := t.readers[i], u.sys.readers[i];
        if a.pc.JumpDue? then |b.log| == |a.log| + 1 && b.log[|a.log|].Lag?
        else
          && Behind(t.ring, b) && b.log == a.log
          && (Rank(b.pc) < Rank(a.pc) || (Rank(b.pc) == Rank(a.pc) && LeftToCopy(b.pc) < LeftToCopy(a.pc)))
  {
    var t := Run(s, more);
    Approaches(t.sys.ring, t.sys.readers[i]);
    Observes(t, i);
    var act := NextObserve(t.sys.readers[i], i);
    more' := more + [act];
    assert more'[..|more|] == more;
    u := Apply(t, act);
  }

  /** Whoever the intent has passed has something to read. */
  lemma LappedHasData(r: B.Ring, pos: nat)
    requires RingInv(r) && pos + r.cap < r.intent
    ensures pos < r.tail
  {
    SpanBelowCapacity(r.cap);
    SpanOfEight(r.cap);
  }

  lemma SpanOfEight(cap: Size)
    requires Geometry(cap)
    ensures MaxRecordSpan(cap) <= cap
  {
    SpanBelowCapacity(cap);
    if cap < 16 {
      assert cap == 8;
    }
  }

  // ------------------------------------------------------------------ the condition

  /** Whatever happens short of a new push being declared, observer i is not told it lagged. */
  ghost predicate NeverLapped(s: Anchored, i: nat)
    requires i < |s.sys.readers|
  {
    forall more: seq<Action> :: !TellsLag(s, more, i, |s.sys.readers[i].log|)
  }

  /** While the producer waits at the gate between pushes, whatever else happens (its death and recovery
      included), an observer is never told it lagged if and only if it is within a capacity of the tail and
      of the floor a dead predecessor's intent left. */
  lemma WaitingNeverLaps(cap: Size, n: nat, actions: seq<Action>, i: nat)
    requires LegalCapacity(cap)
    requires var s := Run(Start(cap, n), actions).sys; s.ring.prod.Ready? && i < |s.readers|
    ensures var s := Run(Start(cap, n), actions); var r := s.sys.ring;
      NeverLapped(s, i) <==> B.Max(r.tail, r.prod.floor) <= s.sys.readers[i].pos + cap
  {
    RunKeeps(cap, n, actions);
    AnchoredTheorems.RunCap(cap, n, actions);
    WaitingAt(Run(Start(cap, n), actions), i);
  }

  lemma WaitingAt(s: Anchored, i: nat)
    requires AnchoredInv(s) && s.sys.ring.prod.Ready? && i < |s.sys.readers|
    ensures var r := s.sys.ring;
      NeverLapped(s, i) <==> B.Max(r.tail, r.prod.floor) <= s.sys.readers[i].pos + r.cap
  {
    var r, a := s.sys.ring, s.sys.readers[i];
    assert ReaderInv(r, a);
    if r.intent <= a.pos + r.cap {
      forall more: seq<Action> ensures !TellsLag(s, more, i, |a.log|) {
        if forall b | b in more :: !b.DoDeclare? {
          RunUnlapped(s, more, i, |a.log|, r.intent);
        }
      }
    } else {
      LappedHasData(r, a.pos);
      var more := LagComes(s, i);
    }
  }

  // ------------------------------------------------------------------ a recovered floor in the way

  function Vacant(): G.Slot { G.Slot(0, G.Free, G.Detached, G.Nobody) }

  predicate Gate16(g: G.Gate, next: nat, hi: nat, min: int, pc: G.Pc) {
    g.prod.Up? && g == G.Gate(16, next, hi, [Vacant()], G.Up(next, min, g.prod.cached, pc), [])
  }

  predicate Ring16(s: B.System, next: nat, intent: nat, prod: B.Producer) {
    && s.ring.cap == 16 && s.ring.prod == prod && s.ring.tail == next && s.ring.intent == intent && !s.ring.closed
    && s.readers == [B.Reader(0, 0, B.ReadPc.Idle, 0, [])]
  }

  /** Between pushes on the sixteen-byte ring, its one slot vacant and its first observer still at zero. */
  predicate Idling(s: Anchored, next: nat, min: int) {
    Gate16(s.gate, next, next, min, G.Idle) && Ring16(s.sys, next, next, B.Ready(next, 0))
  }

  predicate Granted16(s: Anchored, next: nat, min: int) {
    Gate16(s.gate, next, next, min, G.Granted(8)) && Ring16(s.sys, next, next, B.Ready(next, 0))
  }

  predicate Storing16(s: Anchored, next: nat, stage: B.Stage) {
    && Gate16(s.gate, next, next + 8, next - 1, G.Writing(8))
    && Ring16(s.sys, next, next + 8, B.Writing(next, 0, [], stage))
  }

  predicate Reached(actions: seq<Action>, s: Anchored) { Run(Start(16, 1), actions) == s }

  lemma Then(actions: seq<Action>, s: Anchored, a: Action) returns (more: seq<Action>, t: Anchored)
    requires Reached(actions, s)
    ensures t == Apply(s, a) && Reached(more, t)
  {
    more, t := actions + [a], Apply(s, a);
    assert more[..|actions|] == actions;
  }

  /** An empty record is eight bytes, wherever it starts. */
  lemma EmptyFrame(next: nat)
    requires next == 0 || next == 8 || next == 16
    ensures NewFrame(next, [], 16) == Frame(next, 0, []) && Frame(next, 0, []).End() == next + 8
    ensures Needed(next, [], 16) == 8 && MaxMessageLen(16) == 2
  {
  }

  lemma ScansVacant(g: G.Gate, next: nat, min: int, needed: nat)
    requires Gate16(g, next, next, min, G.ScanDue(needed, 0, false, 0)) && needed <= 8
    ensures Gate16(G.Scan(G.Scan(g)), next, next, next - 1, G.Granted(needed))
  {
  }

  /** The gate opens for an empty record, rescanning its empty table if it has to. */
  lemma Grants(actions: seq<Action>, s: Anchored, next: nat, min: int) returns (more: seq<Action>, t: Anchored)
    requires Reached(actions, s) && Idling(s, next, min) && (next == 0 || next == 8 || next == 16)
    requires min == next - 1 || min == next - 9
    ensures Reached(more, t) && Granted16(t, next, next - 1)
  {
    EmptyFrame(next);
    more, t := Then(actions, s, DoTry([]));
    if min == next - 9 {
      ScansVacant(t.gate, next, min, 8);
      more, t := Then(more, t, DoScan);
      more, t := Then(more, t, DoScan);
    }
  }

  lemma DeclaresEmpty(s: Anchored, next: nat)
    requires Granted16(s, next, next - 1) && (next == 0 || next == 8 || next == 16)
    ensures Storing16(Apply(s, DoDeclare([])), next, B.HeaderDue)
  {
    EmptyFrame(next);
  }

  lemma StoresHeader(r: B.Ring, next: nat)
    requires r.cap == 16 && r.prod == B.Writing(next, 0, [], B.HeaderDue)
    ensures B.Produce(r) == r.(buf := B.Produce(r).buf, prod := B.Writing(next, 0, [], B.LatestDue))
  {
    assert B.FirstLane(0) == B.LatestDue;
  }

  lemma StoresLatest(r: B.Ring, next: nat)
    requires r.cap == 16 && (next == 0 || next == 8) && r.prod == B.Writing(next, 0, [], B.LatestDue)
    ensures B.Produce(r) == r.(latest := next, prod := B.Writing(next, 0, [], B.TailDue))
  {
    EmptyFrame(next);
  }

  lemma StoresTail(r: B.Ring, next: nat)
    requires r.cap == 16 && (next == 0 || next == 8) && r.prod == B.Writing(next, 0, [], B.TailDue)
    ensures B.Produce(r) == r.(tail := next + 8, frames := B.Produce(r).frames, prod := B.Ready(next + 8, 0))
  {
    EmptyFrame(next);
  }

  /** A store of the lossy half that is not the tail's. */
  lemma OnlyTheRing(s: Anchored, r': B.Ring)
    requires r' == B.Produce(s.sys.ring) && s.sys.ring.prod.Writing? && !s.sys.ring.prod.stage.TailDue?
    ensures Apply(s, DoProduce) == s.(sys := s.sys.(ring := r'))
  {
  }

  lemma HeaderMoves(s: Anchored, next: nat)
    requires Storing16(s, next, B.HeaderDue)
    ensures Storing16(Apply(s, DoProduce), next, B.LatestDue)
  {
    StoresHeader(s.sys.ring, next);
    OnlyTheRing(s, B.Produce(s.sys.ring));
  }

  lemma LatestMoves(s: Anchored, next: nat)
    requires Storing16(s, next, B.LatestDue) && (next == 0 || next == 8)
    ensures Storing16(Apply(s, DoProduce), next, B.TailDue)
  {
    var r' := s.sys.ring.(latest := next, prod := B.Writing(next, 0, [], B.TailDue));
    assert r' == B.Produce(s.sys.ring) by {
      StoresLatest(s.sys.ring, next);
    }
    OnlyTheRing(s, r');
  }

  lemma TailMoves(s: Anchored, next: nat)
    requires Storing16(s, next, B.TailDue) && (next == 0 || next == 8)
    ensures Idling(Apply(s, DoProduce), next + 8, next - 1)
  {
    StoresTail(s.sys.ring, next);
  }

  /** Its declaration and, store by store, its commit. */
  lemma Commits(actions: seq<Action>, s: Anchored, next: nat) returns (more: seq<Action>, t: Anchored)
    requires Reached(actions, s) && Granted16(s, next, next - 1) && (next == 0 || next == 8)
    ensures Reached(more, t) && Idling(t, next + 8, next - 1)
  {
    DeclaresEmpty(s, next);
    more, t := Then(actions, s, DoDeclare([]));
    HeaderMoves(t, next);
    more, t := Then(more, t, DoProduce);
    LatestMoves(t, next);
    more, t := Then(more, t, DoProduce);
    TailMoves(t, next);
    more, t := Then(more, t, DoProduce);
  }

  /** The attaching scan of the start, and its grant abandoned. */
  lemma Settles() returns (actions: seq<Action>, t: Anchored)
    ensures Reached(actions, t) && Idling(t, 0, -1)
  {
    var s := Start(16, 1);
    assert Reached([], s);
    assert s.gate.slots == [Vacant()];
    ScansVacant(s.gate, 0, -16, 1);
    actions, t := Then([], s, DoScan);
    actions, t := Then(actions, t, DoScan);
    actions, t := Then(actions, t, DoAbandon);
  }

  /** A third record is declared, its producer dies, and a successor takes over between pushes. */
  lemma DeclaresAndDies(actions: seq<Action>, s: Anchored) returns (more: seq<Action>, t: Anchored)
    requires Reached(actions, s) && Granted16(s, 16, 15)
    ensures Reached(more, t) && t.sys.ring.prod == B.Ready(16, 24) && t.sys.ring.tail == 16
    ensures t.sys.readers == [B.Reader(0, 0, B.ReadPc.Idle, 0, [])]
  {
    DeclaresEmpty(s, 16);
    more, t := Then(actions, s, DoDeclare([]));
    more, t := Then(more, t, DoCrash);
    more, t := Then(more, t, DoAttach);
    more, t := Then(more, t, DoAttach);
    more, t := Then(more, t, DoAttach);
  }

  /** Being within a capacity of the tail is not enough: an observer at zero of a ring whose tail is 16 can be
      told it lagged while nobody pushes, because a dead producer had declared up to 24. */
  lemma FloorCanLap()
    ensures exists actions: seq<Action> :: (
      var s := Run(Start(16, 1), actions);
      && s.sys.ring.prod.Ready? && |s.sys.readers| == 1 && s.sys.ring.tail <= s.sys.readers[0].pos + 16
      && !NeverLapped(s, 0))
  {
    var actions, s := Settles();
    actions, s := Grants(actions, s, 0, -1);
    actions, s := Commits(actions, s, 0);
    actions, s := Grants(actions, s, 8, -1);
    actions, s := Commits(actions, s, 8);
    actions, s := Grants(actions, s, 16, 7);
    actions, s := DeclaresAndDies(actions, s);
    assert PowerOfTwo(16) by {
      assert PowerOfTwo(2) && PowerOfTwo(4) && PowerOfTwo(8);
    }
    WaitingNeverLaps(16, 1, actions, 0);
  }

  // ------------------------------------------------------------------ the span of a blocked push

  /** Nothing is being written, and nothing has been published since the tail was here. */
  predicate Blocked(s: Anchored, tail: nat) { s.sys.ring.tail == tail && !s.sys.ring.prod.Writing? }

  lemma StaysBlocked(s: Anchored, a: Action, tail: nat)
    requires Blocked(s, tail) && !a.DoDeclare?
    ensures Blocked(Apply(s, a), tail) && Apply(s, a).sys.ring.cap == s.sys.ring.cap
  {
    LossyStep(s, a);
  }

  lemma {:induction false} RunBlocked(s: Anchored, more: seq<Action>, tail: nat)
    requires AnchoredInv(s) && Blocked(s, tail) && (forall a | a in more :: !a.DoDeclare?)
    ensures AnchoredInv(Run(s, more)) && Blocked(Run(s, more), tail)
    ensures Run(s, more).sys.ring.cap == s.sys.ring.cap
  {
    if more != [] {
      var n := |more| - 1;
      RunBlocked(s, more[..n], tail);
      ApplyKeeps(Run(s, more[..n]), more[n]);
      StaysBlocked(Run(s, more[..n]), more[n], tail);
    }
  }

  /** A blocked push asks for the same span on every check of its episode, whatever consumers, observers,
      scans and even a successor of its producer do meanwhile: so the one word published for the anchors
      stays exact. */
  lemma SpanIsConstant(cap: Size, n: nat, actions: seq<Action>, more: seq<Action>, msg: seq<Byte>)
    requires LegalCapacity(cap) && Run(Start(cap, n), actions).sys.ring.prod.Ready?
    requires forall a | a in more :: !a.DoDeclare?
    requires Run(Run(Start(cap, n), actions), more).sys.ring.prod.Ready?
    ensures var s := Run(Start(cap, n), actions); var t := Run(s, more);
      Needed(t.sys.ring.prod.next, msg, cap) == Needed(s.sys.ring.prod.next, msg, cap)
  {
    RunKeeps(cap, n, actions);
    var s := Run(Start(cap, n), actions);
    RunBlocked(s, more, s.sys.ring.tail);
  }
}
