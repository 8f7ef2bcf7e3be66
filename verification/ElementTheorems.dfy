/** What every run of the lossy element ring guarantees. */
module ElementTheorems {
  import opened Framing
  import opened ElementRing
  import opened ElementProof

  // ------------------------------------------------------------------ seqlock soundness

  /** An accepted value is exactly the message published at its sequence, words and all, whatever was
      being written meanwhile. */
  lemma AcceptedIsExact(cap: Size, slack: nat, words: nat, actions: seq<Action>, i: nat, j: nat)
    requires slack < cap
    requires var s := Run(Start(cap, slack, words), actions);
      i < |s.readers| && j < |s.readers[i].log| && s.readers[i].log[j].Got?
    ensures var s := Run(Start(cap, slack, words), actions); var e := s.readers[i].log[j];
      e.at < s.ring.tail <= |s.ring.made| && e.msg == s.ring.made[e.at] && s.readers[i].join <= e.at < s.readers[i].pos
  {
    RunKeeps(cap, slack, words, actions);
    var s := Run(Start(cap, slack, words), actions);
    var a := s.readers[i];
    assert ReaderInv(s.ring, a);
    LogEntry(s.ring.made[..s.ring.tail], a.join, a.log, a.pos, j);
  }

  /** The position before the last event. */
  function Before(log: seq<Event>, pos: nat): nat
    requires log != []
  {
    match log[|log| - 1]
    case Got(at, _) => at
    case Lag(n) => if n <= pos then pos - n else 0
    case Skip(n) => if n <= pos then pos - n else 0
    case Shut => pos
  }

  lemma {:induction false} LogBounds(made: seq<Words>, join: nat, log: seq<Event>, pos: nat)
    requires LogOk(made, join, log, pos)
    ensures join <= pos
  {
    if log != [] {
      LogBounds(made, join, log[..|log| - 1], Before(log, pos));
    }
  }

  lemma {:induction false} LogEntry(made: seq<Words>, join: nat, log: seq<Event>, pos: nat, j: nat)
    requires LogOk(made, join, log, pos) && j < |log|
    ensures join <= pos
    ensures log[j].Got? ==> log[j].at < |made| && log[j].msg == made[log[j].at] && join <= log[j].at < pos
  {
    LogBounds(made, join, log, pos);
    var n := |log| - 1;
    LogBounds(made, join, log[..n], Before(log, pos));
    if j < n {
      LogEntry(made, join, log[..n], Before(log, pos), j);
    }
  }

  /** Once a committed position's slot has moved on, its generation never comes back, not even across a
      crash and a recovery that reuses sequences. */
  lemma GenerationNeverReturns(s: System, more: seq<Action>, p: nat)
    requires SystemInv(s) && p < s.ring.tail && SlotAt(s.ring.slots, Off(p, s.ring.cap)).gen != 2 * p + 2
    ensures var r := Run(s, more).ring; SlotAt(r.slots, Off(p, r.cap)).gen != 2 * p + 2
  {
    RunGrew(s, more);
    GenerationIsUnique(s.ring, p);
    GenerationIsUnique(Run(s, more).ring, p);
  }

  lemma {:induction false} RunGrew(s: System, more: seq<Action>)
    requires SystemInv(s)
    ensures SystemInv(Run(s, more)) && Grew(s.ring, Run(s, more).ring)
  {
    if more != [] {
      var n := |more| - 1;
      RunGrew(s, more[..n]);
      ApplyKeeps(Run(s, more[..n]), more[n]);
      GrewTransitive(s.ring, Run(s, more[..n]).ring, Run(s, more).ring);
    }
  }

  lemma GrewTransitive(a: Ring, b: Ring, c: Ring)
    requires Grew(a, b) && Grew(b, c)
    ensures Grew(a, c)
  {
    assert c.made[..a.tail] == c.made[..b.tail][..a.tail];
    assert b.made[..a.tail] == b.made[..b.tail][..a.tail];
  }

  /** A push raises its slot's generation exactly when no dead producer has been there before it: only
      the sequences a crash forfeited are ever written twice. */
  lemma GenerationsIncrease(r: Ring, msg: Words)
    requires RingInv(r) && r.prod.Ready? && |msg| == r.words
    ensures var i := Off(r.prod.next, r.cap);
      SlotAt(Push(r, msg).slots, i).gen > SlotAt(r.slots, i).gen <==> r.front <= r.prod.next
  {
    var next := r.prod.next;
    var c := Off(next, r.cap);
    BatchBelowCapacity(r.cap, r.slack);
    if r.front > next {
      assert Holds(r, next);
    } else if r.front >= r.cap {
      var q := SlotTaken(r.front - r.cap, c, r.cap);
      assert Holds(r, q);
    }
  }

  // ------------------------------------------------------------------ order and accounting

  /** Deliveries come in strictly ascending sequence: in order, never twice. */
  lemma DeliveriesInOrder(cap: Size, slack: nat, words: nat, actions: seq<Action>, i: nat, j: nat, k: nat)
    requires slack < cap
    requires var s := Run(Start(cap, slack, words), actions); i < |s.readers| && j < k < |s.readers[i].log|
    requires var log := Run(Start(cap, slack, words), actions).readers[i].log; log[j].Got? && log[k].Got?
    ensures var log := Run(Start(cap, slack, words), actions).readers[i].log; log[j].at < log[k].at
  {
    RunKeeps(cap, slack, words, actions);
    var s := Run(Start(cap, slack, words), actions);
    var a := s.readers[i];
    assert ReaderInv(s.ring, a);
    LogOrdered(s.ring.made[..s.ring.tail], a.join, a.log, a.pos, j, k);
  }

  lemma {:induction false} LogOrdered(made: seq<Words>, join: nat, log: seq<Event>, pos: nat, j: nat, k: nat)
    requires LogOk(made, join, log, pos) && j < k < |log| && log[j].Got? && log[k].Got?
    ensures log[j].at < log[k].at
  {
    var n := |log| - 1;
    if k < n {
      LogOrdered(made, join, log[..n], Before(log, pos), j, k);
    } else {
      LogEntry(made, join, log[..n], Before(log, pos), j);
    }
  }

  function Units(e: Event): int {
    match e
    case Got(_, _) => 1
    case Lag(n) => n
    case Skip(n) => n
    case Shut => 0
  }

  function Total(log: seq<Event>): int {
    if log == [] then 0 else Total(log[..|log| - 1]) + Units(log[|log| - 1])
  }

  lemma {:induction false} LogTotal(made: seq<Words>, join: nat, log: seq<Event>, pos: nat)
    requires LogOk(made, join, log, pos)
    ensures pos == join + Total(log)
  {
    if log != [] {
      LogTotal(made, join, log[..|log| - 1], Before(log, pos));
    }
  }

  /** The join point plus messages accepted, missed and skipped is the position, never past the tail. */
  lemma AccountingIsExact(cap: Size, slack: nat, words: nat, actions: seq<Action>, i: nat)
    requires slack < cap && i < |Run(Start(cap, slack, words), actions).readers|
    ensures var s := Run(Start(cap, slack, words), actions); var a := s.readers[i];
      a.pos == a.join + Total(a.log) && a.pos <= s.ring.tail
  {
    RunKeeps(cap, slack, words, actions);
    var s := Run(Start(cap, slack, words), actions);
    var a := s.readers[i];
    assert ReaderInv(s.ring, a);
    LogTotal(s.ring.made[..s.ring.tail], a.join, a.log, a.pos);
  }

  // ------------------------------------------------------------------ slack beats publication debt

  /** A reposition that moves on by at least one message, reports exactly how many, and lands `slack` above
      the oldest position the tail allows, on a message still in place as the tail is read. */
  predicate LandsRetained(r: Ring, a: Reader) {
    var b := ReadStep(r, a);
    && a.pos < b.pos <= r.tail <= |r.made| && b.log == a.log + [Lag(b.pos - a.pos)]
    && r.front <= b.pos + r.cap == r.tail + r.slack && b.tailCache == r.tail
    && (b.pos < r.tail ==> SlotAt(r.slots, Off(b.pos, r.cap)) == Slot(2 * b.pos + 2, r.made[b.pos]))
  }

  lemma RepositionLands(r: Ring, a: Reader)
    requires RingInv(r) && ReaderInv(r, a) && r.slack >= 1 && a.pc.RepositionDue?
    ensures LandsRetained(r, a)
  {
    BatchBelowCapacity(r.cap, r.slack);
    var b := ReadStep(r, a);
    if b.pos < r.tail {
      GenerationIsUnique(r, b.pos);
    }
  }

  /** Slack beats publication debt: with any slack at all, under any batching and even with a write in
      flight, every lap moves on and lands on a retained message. */
  lemma SlackBeatsDebt(cap: Size, slack: nat, words: nat, actions: seq<Action>, i: nat)
    requires slack < cap && slack >= 1
    requires var s := Run(Start(cap, slack, words), actions); i < |s.readers| && s.readers[i].pc.RepositionDue?
    ensures var s := Run(Start(cap, slack, words), actions); LandsRetained(s.ring, s.readers[i])
  {
    RunKeeps(cap, slack, words, actions);
    var s := Run(Start(cap, slack, words), actions);
    RepositionLands(s.ring, s.readers[i]);
  }

  predicate NoEmptyLap(log: seq<Event>) { Lag(0) !in log }

  predicate Progressing(s: System) { forall i: nat | i < |s.readers| :: NoEmptyLap(s.readers[i].log) }

  ghost predicate AlwaysProgresses(cap: Size, slack: nat, words: nat) {
    forall actions: seq<Action> :: Progressing(Run(Start(cap, slack, words), actions))
  }

  lemma ReadProgresses(r: Ring, a: Reader)
    requires RingInv(r) && ReaderInv(r, a) && r.slack >= 1 && NoEmptyLap(a.log)
    ensures NoEmptyLap(ReadStep(r, a).log)
  {
    BatchBelowCapacity(r.cap, r.slack);
  }

  lemma StepProgresses(s: System, a: Action)
    requires SystemInv(s) && s.ring.slack >= 1 && Progressing(s)
    ensures Progressing(Apply(s, a))
  {
    if a.DoRead? && a.i < |s.readers| {
      assert ReaderInv(s.ring, s.readers[a.i]) && NoEmptyLap(s.readers[a.i].log);
      ReadProgresses(s.ring, s.readers[a.i]);
    }
  }

  lemma {:induction false} RunProgresses(cap: Size, slack: nat, words: nat, actions: seq<Action>)
    requires slack < cap && slack >= 1
    ensures Progressing(Run(Start(cap, slack, words), actions))
  {
    if actions != [] {
      var n := |actions| - 1;
      RunProgresses(cap, slack, words, actions[..n]);
      RunKeeps(cap, slack, words, actions[..n]);
      StepProgresses(Run(Start(cap, slack, words), actions[..n]), actions[n]);
    }
  }

  // ------------------------------------------------------------------ without slack

  ghost predicate Reachable(s0: System, s: System) { exists actions: seq<Action> :: Run(s0, actions) == s }

  lemma Reach(s0: System, s: System, a: Action)
    requires Reachable(s0, s)
    ensures Reachable(s0, Apply(s, a))
  {
    var actions: seq<Action> :| Run(s0, actions) == s;
    assert (actions + [a])[..|actions|] == actions;
    assert Run(s0, actions + [a]) == Apply(s, a);
  }

  function Zeros(words: nat): Words { seq(words, _ => 0) }

  /** Between pushes, nothing pending, n messages out. */
  predicate Pushed(s: System, n: nat) {
    s.ring.prod == Ready(n, 1, 0) && s.ring.tail == n && |s.ring.slots| == s.ring.cap
    && (forall i: nat | i < |s.ring.slots| :: |s.ring.slots[i].data| == s.ring.words)
  }

  /** From one push to the next, readers untouched. */
  lemma OnePush(s0: System, s: System, n: nat) returns (t: System)
    requires Reachable(s0, s) && Pushed(s, n)
    ensures Reachable(s0, t) && Pushed(t, n + 1) && t.readers == s.readers
    ensures t.ring.cap == s.ring.cap && t.ring.slack == s.ring.slack && t.ring.words == s.ring.words
  {
    var msg := Zeros(s.ring.words);
    Reach(s0, s, DoPush(msg));
    t := Apply(s, DoPush(msg));
    var k := 0;
    while k < s.ring.words
      invariant k <= s.ring.words && Reachable(s0, t) && t.readers == s.readers
      invariant t.ring.prod == Writing(n, 1, 0, msg, k) && t.ring.tail == n
      invariant t.ring.cap == s.ring.cap && t.ring.slack == s.ring.slack && t.ring.words == s.ring.words
      invariant |t.ring.slots| == t.ring.cap
      invariant forall i: nat | i < |t.ring.slots| :: |t.ring.slots[i].data| == t.ring.words
    {
      Reach(s0, t, DoProduce);
      t := Apply(t, DoProduce);
      k := k + 1;
    }
    Reach(s0, t, DoProduce);
    t := Apply(t, DoProduce);
    Reach(s0, t, DoProduce);
    t := Apply(t, DoProduce);
  }

  lemma FullRing(cap: Size, words: nat) returns (t: System)
    ensures Reachable(Start(cap, 0, words), t) && Pushed(t, cap) && t.readers == [Reader(0, 0, Idle, 0, [])]
    ensures t.ring.cap == cap && t.ring.slack == 0 && t.ring.words == words
  {
    var s0 := Start(cap, 0, words);
    assert Run(s0, []) == s0;
    t := s0;
    var n := 0;
    while n < cap
      invariant n <= cap && Reachable(s0, t) && Pushed(t, n) && t.readers == [Reader(0, 0, Idle, 0, [])]
      invariant t.ring.cap == cap && t.ring.slack == 0 && t.ring.words == words
    {
      t := OnePush(s0, t, n);
      n := n + 1;
    }
  }

  /** A reader at zero meets a write exactly one lap ahead of it, and repositions nowhere. */
  lemma LappedAtZero(cap: Size, words: nat) returns (t: System)
    ensures Reachable(Start(cap, 0, words), t) && t.readers == [Reader(0, cap, Idle, 0, [Lag(0)])]
    ensures t.ring.cap == cap == t.ring.tail && t.ring.slack == 0 && SlotAt(t.ring.slots, 0).gen == 2 * cap + 1
    ensures t.ring.words == words && |t.ring.slots| == cap
  {
    var s0 := Start(cap, 0, words);
    var s := FullRing(cap, words);
    var s2 := SeesTail(s0, s);
    Reach(s0, s2, DoPush(Zeros(words)));
    OverZero(s.ring);
    var s3 := s2.(ring := Push(s.ring, Zeros(words)));
    assert Apply(s2, DoPush(Zeros(words))) == s3;
    t := LapsOnce(s0, s3);
  }

  lemma SeesTail(s0: System, s: System) returns (t: System)
    requires Reachable(s0, s) && s.readers == [Reader(0, 0, Idle, 0, [])] && s.ring.tail == s.ring.cap
    ensures Reachable(s0, t) && t == s.(readers := [Reader(0, s.ring.cap, CheckDue, 0, [])])
  {
    Reach(s0, s, DoPop(0));
    var s1 := s.(readers := [Reader(0, 0, RefreshDue, 0, [])]);
    assert Apply(s, DoPop(0)) == s1;
    Reach(s0, s1, DoRead(0));
    t := s.(readers := [Reader(0, s.ring.cap, CheckDue, 0, [])]);
    assert Apply(s1, DoRead(0)) == t;
  }

  lemma OverZero(r: Ring)
    requires r.prod == Ready(r.cap, 1, 0) && |r.slots| == r.cap
    ensures var r' := Push(r, Zeros(r.words));
      SlotAt(r'.slots, 0).gen == 2 * r.cap + 1 && r'.tail == r.tail && r'.cap == r.cap && r'.slack == r.slack
      && r'.words == r.words && |r'.slots| == |r.slots|
  {
    assert Off(r.cap, r.cap) == 0;
  }

  lemma LapsOnce(s0: System, s: System) returns (t: System)
    requires Reachable(s0, s) && s.readers == [Reader(0, s.ring.cap, CheckDue, 0, [])]
    requires s.ring.slack == 0 && s.ring.tail == s.ring.cap && SlotAt(s.ring.slots, 0).gen == 2 * s.ring.cap + 1
    ensures Reachable(s0, t) && t.ring == s.ring && t.readers == [Reader(0, s.ring.cap, Idle, 0, [Lag(0)])]
  {
    Reach(s0, s, DoRead(0));
    var a := Reader(0, s.ring.cap, RepositionDue, 0, []);
    var s1 := s.(readers := [a]);
    assert Apply(s, DoRead(0)) == s1;
    Reach(s0, s1, DoRead(0));
    t := Apply(s1, DoRead(0));
    var b := ReadStep(s.ring, a);
    assert b.log == [Lag(0)];
    assert t.readers == [b];
  }

  /** Overwriting exactly one lap ahead of a reader that repositions with no slack tells it nothing. */
  lemma EmptyLap(cap: Size, words: nat) returns (t: System)
    ensures Reachable(Start(cap, 0, words), t) && !Progressing(t)
  {
    t := LappedAtZero(cap, words);
    assert !NoEmptyLap(t.readers[0].log);
  }

  /** Every lap of every run makes progress exactly when the ring has any slack at all: at capacity 1,
      where none is possible, and under an explicit slack of zero, it need not. */
  lemma ProgressNeedsSlack(cap: Size, slack: nat, words: nat)
    requires slack < cap
    ensures AlwaysProgresses(cap, slack, words) <==> slack >= 1
  {
    if slack >= 1 {
      forall actions: seq<Action> ensures Progressing(Run(Start(cap, slack, words), actions)) {
        RunProgresses(cap, slack, words, actions);
      }
    } else {
      var t := EmptyLap(cap, words);
    }
  }

  /** The default slack is an eighth of the capacity and at least one, but none at capacity 1, where any
      would reach into the future: so every lap progresses from capacity 2 on. */
  lemma DefaultSlackProgresses(cap: Size, words: nat)
    ensures DefaultSlack(cap) < cap
    ensures var slack := DefaultSlack(cap);
      if cap == 1 then slack == 0 else slack >= 1 && (slack == 1 || 8 * slack <= cap) && 8 * (slack + 1) > cap
    ensures AlwaysProgresses(cap, DefaultSlack(cap), words) <==> cap >= 2
  {
    ProgressNeedsSlack(cap, DefaultSlack(cap), words);
  }

  // ------------------------------------------------------------------ closed means drained

  /** What holds until a successor reopens the ring. */
  predicate OneSession(r: Ring, a: Reader) {
    && (a.pc.DrainDue? ==> r.closed)
    && (Shut in a.log ==> r.closed && r.tail <= a.pos)
    && (r.closed ==> r.prod.Dead? && |r.made| == r.tail)
    && !r.prod.Opened?
  }

  predicate OneSessionAll(s: System) { forall i: nat | i < |s.readers| :: OneSession(s.ring, s.readers[i]) }

  lemma OneSessionApply(s: System, a: Action)
    requires SystemInv(s) && OneSessionAll(s) && s.readers != [] && !a.DoAttach?
    ensures OneSessionAll(Apply(s, a)) && Apply(s, a).readers != []
  {
    assert OneSession(s.ring, s.readers[0]);
    if a.DoPop? || a.DoSkip? || a.DoRead? {
      if a.i < |s.readers| {
        assert OneSession(s.ring, s.readers[a.i]) && ReaderInv(s.ring, s.readers[a.i]);
        OneSessionReader(s.ring, s.readers[a.i], a);
      }
    } else if !a.DoSubscribe? {
      forall i: nat | i < |s.readers| ensures OneSession(RingStep(s.ring, a), s.readers[i]) {
        assert OneSession(s.ring, s.readers[i]);
      }
    }
  }

  lemma OneSessionReader(r: Ring, a: Reader, act: Action)
    requires ReaderInv(r, a) && OneSession(r, a)
    ensures OneSession(r, ReaderStep(r, a, act))
  {
  }

  lemma {:induction false} OneSessionRun(cap: Size, slack: nat, words: nat, actions: seq<Action>)
    requires slack < cap && DoAttach !in actions
    ensures OneSessionAll(Run(Start(cap, slack, words), actions))
    ensures Run(Start(cap, slack, words), actions).readers != []
  {
    if actions != [] {
      var n := |actions| - 1;
      OneSessionRun(cap, slack, words, actions[..n]);
      RunKeeps(cap, slack, words, actions[..n]);
      OneSessionApply(Run(Start(cap, slack, words), actions[..n]), actions[n]);
    }
  }

  /** Within one session, a reader that was told `Closed` stays at the final tail, the batch debt included,
      with every message since its join point accounted for. */
  lemma ClosedStaysDrained(cap: Size, slack: nat, words: nat, actions: seq<Action>, i: nat)
    requires slack < cap && DoAttach !in actions
    requires i < |Run(Start(cap, slack, words), actions).readers|
    requires Shut in Run(Start(cap, slack, words), actions).readers[i].log
    ensures var s := Run(Start(cap, slack, words), actions); var a := s.readers[i];
      s.ring.closed && a.pos == s.ring.tail == |s.ring.made| && Total(a.log) == s.ring.tail - a.join
  {
    OneSessionRun(cap, slack, words, actions);
    AccountingIsExact(cap, slack, words, actions, i);
    var s := Run(Start(cap, slack, words), actions);
    assert OneSession(s.ring, s.readers[i]);
  }

  // ------------------------------------------------------------------ draining without slack

  /** A pop run alone on an available position whose slot has moved on. */
  function LappedPop(r: Ring, a: Reader): Reader { ReadStep(r, ReadStep(r, BeginPop(a))) }

  /** A closed ring with a reader stuck exactly one lap behind a write that was never finished. */
  predicate Stuck(s: System) {
    && s.ring.closed && s.ring.slack == 0 && s.ring.tail == s.ring.cap
    && SlotAt(s.ring.slots, 0).gen == 2 * s.ring.cap + 1
    && s.readers != [] && s.readers[0].pos == 0 && s.readers[0].pc.Idle? && s.readers[0].tailCache > 0
  }

  lemma StuckForever(s: System)
    requires Stuck(s)
    ensures var a := s.readers[0]; var b := LappedPop(s.ring, a);
      b.pos == a.pos < s.ring.tail && b.log == a.log + [Lag(0)] && Stuck(s.(readers := s.readers[0 := b]))
  {
  }

  /** Without slack, a producer that dies writing and a successor that closes at once leave such a ring:
      each pop reports an empty lap and the reader never reaches `Closed`. */
  lemma WithoutSlackCloseMayNeverCome(cap: Size, words: nat) returns (t: System)
    ensures Reachable(Start(cap, 0, words), t) && Stuck(t)
  {
    var s := LappedAtZero(cap, words);
    t := DiesAndCloses(Start(cap, 0, words), s);
  }

  lemma DiesAndCloses(s0: System, s: System) returns (t: System)
    requires Reachable(s0, s) && s.readers == [Reader(0, s.ring.cap, Idle, 0, [Lag(0)])]
    requires s.ring.slack == 0 && s.ring.tail == s.ring.cap && SlotAt(s.ring.slots, 0).gen == 2 * s.ring.cap + 1
    ensures Reachable(s0, t) && Stuck(t)
  {
    Reach(s0, s, DoCrash);
    var s1 := Apply(s, DoCrash);
    Reach(s0, s1, DoAttach);
    var s2 := Apply(s1, DoAttach);
    Reach(s0, s2, DoAttach);
    var s3 := Apply(s2, DoAttach);
    Reach(s0, s3, DoClose);
    var s4 := Apply(s3, DoClose);
    Reach(s0, s4, DoProduce);
    t := Apply(s4, DoProduce);
  }

  /** A generation that does not rise: a producer dies in the middle of a push, and its successor's first
      push writes the same generation into the same slot again. */
  lemma GenerationsNeedNotRise(cap: Size, words: nat) returns (t: System)
    ensures Reachable(Start(cap, 0, words), t) && t.ring.prod.Ready? && t.ring.words == words
    ensures var i := Off(t.ring.prod.next, cap);
      SlotAt(Push(t.ring, Zeros(words)).slots, i).gen == SlotAt(t.ring.slots, i).gen == 2 * cap + 1
  {
    var s0 := Start(cap, 0, words);
    var s := LappedAtZero(cap, words);
    Reach(s0, s, DoCrash);
    var s1 := Apply(s, DoCrash);
    Reach(s0, s1, DoAttach);
    var s2 := Apply(s1, DoAttach);
    Reach(s0, s2, DoAttach);
    t := Apply(s2, DoAttach);
    assert Off(cap, cap) == 0;
  }
}
