/** What `Closed` means on the lossy element ring, over every run with its crashes and recoveries, and
    exactly when a drain reaches it. */
module ElementClose {
  import opened Framing
  import opened ElementRing
  import opened ElementProof
  import opened ElementTheorems

  // ------------------------------------------------------------------ runs

  lemma {:induction false} RunAppend(s: System, first: seq<Action>, more: seq<Action>)
    ensures Run(s, first + more) == Run(Run(s, first), more)
  {
    if more == [] {
      assert first + more == first;
    } else {
      var n := |more| - 1;
      RunAppend(s, first, more[..n]);
      var all := first + more;
      assert all[..|all| - 1] == first + more[..n] && all[|all| - 1] == more[n];
      var u := Run(Run(s, first), more[..n]);
      assert Run(s, all) == Apply(u, more[n]);
    }
  }

  /** The tail never falls from a prefix of a run to its end. */
  lemma TailRises(s: System, actions: seq<Action>, k: nat)
    requires SystemInv(s) && k <= |actions|
    ensures Run(s, actions[..k]).ring.tail <= Run(s, actions).ring.tail
  {
    assert actions[..k] + actions[k..] == actions;
    RunAppend(s, actions[..k], actions[k..]);
    RunGrew(s, actions[..k]);
    RunGrew(Run(s, actions[..k]), actions[k..]);
  }

  // ------------------------------------------------------------------ closed means drained

  /** The step that tells a reader `Closed`. */
  predicate TellsShut(r: Ring, a: Reader) { a.pc.DrainDue? && r.tail <= a.pos }

  lemma ShutIsTold(r: Ring, a: Reader)
    ensures ReadStep(r, a).log == a.log + [Shut] <==> TellsShut(r, a)
  {
    var b := ReadStep(r, a);
    if b.log == a.log + [Shut] {
      assert b.log[|a.log|] == Shut;
    }
  }

  /** At step k reader i's pop found the ring closed, and the reader has stood still since. */
  predicate SawClosed(s: System, actions: seq<Action>, i: nat, k: nat) {
    && k < |actions| && actions[k] == DoRead(i)
    && var t, u := Run(s, actions[..k]), Run(s, actions);
      && i < |t.readers| && i < |u.readers|
      && t.ring.closed && t.readers[i].pc.ClosedDue?
      && u.readers[i].pos == t.readers[i].pos && u.readers[i].log == t.readers[i].log
  }

  lemma SawBefore(s: System, actions: seq<Action>, i: nat, k: nat)
    requires actions != [] && SawClosed(s, actions[..|actions| - 1], i, k)
    requires var t, u := Run(s, actions[..|actions| - 1]), Run(s, actions);
      i < |u.readers| && u.readers[i].pos == t.readers[i].pos && u.readers[i].log == t.readers[i].log
    ensures SawClosed(s, actions, i, k)
  {
    assert actions[..|actions| - 1][..k] == actions[..k];
  }

  /** What one step does to a reader about to decide. */
  lemma DrainStep(s: System, a: Action, i: nat)
    requires i < |Apply(s, a).readers| && Apply(s, a).readers[i].pc.DrainDue?
    ensures i < |s.readers|
    ensures Apply(s, a).readers[i].pos == s.readers[i].pos && Apply(s, a).readers[i].log == s.readers[i].log
    ensures s.readers[i].pc.DrainDue? || (a == DoRead(i) && s.readers[i].pc.ClosedDue? && s.ring.closed)
  {
  }

  lemma {:induction false} DrainSawClosed(s: System, actions: seq<Action>, i: nat)
    requires forall j: nat | j < |s.readers| :: s.readers[j].pc.Idle?
    requires i < |Run(s, actions).readers| && Run(s, actions).readers[i].pc.DrainDue?
    ensures exists k: nat :: SawClosed(s, actions, i, k)
  {
    if actions != [] {
      var n := |actions| - 1;
      var t := Run(s, actions[..n]);
      DrainStep(t, actions[n], i);
      if t.readers[i].pc.DrainDue? {
        DrainSawClosed(s, actions[..n], i);
        var k: nat :| SawClosed(s, actions[..n], i, k);
        SawBefore(s, actions, i, k);
      } else {
        assert SawClosed(s, actions, i, n);
      }
    }
  }

  /** Over every run, crashes and recoveries included: a reader is told `Closed` only in a pop that found
      the ring closed, with everything that session and its predecessors published behind it, at the tail
      as it is when the reader is told, every message since its join point accounted for. */
  lemma ClosedMeansDrained(cap: Size, slack: nat, words: nat, actions: seq<Action>, i: nat)
    requires slack < cap
    requires var s := Run(Start(cap, slack, words), actions); i < |s.readers| && TellsShut(s.ring, s.readers[i])
    ensures var s := Run(Start(cap, slack, words), actions); var a := s.readers[i];
      a.pos == s.ring.tail && Total(a.log) == s.ring.tail - a.join
    ensures exists k: nat ::
      (SawClosed(Start(cap, slack, words), actions, i, k)
       && var t := Run(Start(cap, slack, words), actions[..k]).ring;
         t.tail == |t.made| == Run(Start(cap, slack, words), actions).readers[i].pos)
  {
    var s0 := Start(cap, slack, words);
    StartSound(cap, slack, words);
    AccountingIsExact(cap, slack, words, actions, i);
    DrainSawClosed(s0, actions, i);
    var k: nat :| SawClosed(s0, actions, i, k);
    RunKeeps(cap, slack, words, actions[..k]);
    TailRises(s0, actions, k);
    ClosedAt(Run(s0, actions[..k]), i);
  }

  lemma ClosedAt(t: System, i: nat)
    requires SystemInv(t) && t.ring.closed && i < |t.readers|
    ensures t.ring.tail == |t.ring.made| && t.readers[i].pos <= t.ring.tail
  {
    assert ReaderInv(t.ring, t.readers[i]);
  }

  /** Reader i was told its j-th event, `Closed`, at step m. */
  predicate ToldAt(s: System, actions: seq<Action>, i: nat, j: nat, m: nat) {
    && m < |actions| && actions[m] == DoRead(i)
    && var t, u := Run(s, actions[..m]), Run(s, actions);
      && i < |t.readers| && i < |u.readers| && j < |u.readers[i].log|
      && TellsShut(t.ring, t.readers[i]) && t.readers[i].log == u.readers[i].log[..j]
  }

  lemma LogStep(s: System, a: Action, i: nat)
    requires i < |Apply(s, a).readers|
    ensures i < |s.readers| ==> s.readers[i].log <= Apply(s, a).readers[i].log
    ensures i >= |s.readers| ==> Apply(s, a).readers[i].log == []
    ensures i < |s.readers| && Apply(s, a).readers[i].log != s.readers[i].log ==>
      && |Apply(s, a).readers[i].log| == |s.readers[i].log| + 1
      && (Apply(s, a).readers[i].log[|s.readers[i].log|] == Shut ==>
            a == DoRead(i) && TellsShut(s.ring, s.readers[i]))
  {
  }

  /** Every `Closed` in a log was told at such a step. */
  lemma {:induction false} EveryShutWasTold(s: System, actions: seq<Action>, i: nat, j: nat)
    requires forall l: nat | l < |s.readers| :: s.readers[l].log == []
    requires i < |Run(s, actions).readers| && j < |Run(s, actions).readers[i].log|
    requires Run(s, actions).readers[i].log[j] == Shut
    ensures exists m: nat :: ToldAt(s, actions, i, j, m)
  {
    if actions != [] {
      var n := |actions| - 1;
      var t, u := Run(s, actions[..n]), Run(s, actions);
      LogStep(t, actions[n], i);
      if j < |t.readers[i].log| {
        EveryShutWasTold(s, actions[..n], i, j);
        var m: nat :| ToldAt(s, actions[..n], i, j, m);
        assert actions[..n][..m] == actions[..m];
        assert t.readers[i].log[..j] == u.readers[i].log[..j];
        assert ToldAt(s, actions, i, j, m);
      } else {
        assert u.readers[i].log[..j] == t.readers[i].log;
        assert ToldAt(s, actions, i, j, n);
      }
    }
  }

  // ------------------------------------------------------------------ exactly when a drain ends

  /** One step of a reader popping over and over, nobody else moving. */
  function AloneStep(r: Ring, a: Reader): Reader { if a.pc.Idle? then BeginPop(a) else ReadStep(r, a) }

  function Alone(r: Ring, a: Reader, n: nat): Reader {
    if n == 0 then a else AloneStep(r, Alone(r, a, n - 1))
  }

  predicate ToldAfter(r: Ring, a: Reader, n: nat) { TellsShut(r, Alone(r, a, n)) }

  /** There is slack, or no write was left unfinished past the tail, or the reader is inside its window. */
  predicate Drainable(r: Ring, pos: nat) { r.slack >= 1 || r.front <= r.tail || r.front <= pos + r.cap }

  /** Whether a write was begun past the tail shows in the slot it was begun in. */
  lemma UnfinishedIsVisible(r: Ring)
    requires RingInv(r) && r.closed
    ensures r.front > r.tail <==> SlotAt(r.slots, Off(r.tail, r.cap)).gen > 2 * r.tail
  {
    BatchBelowCapacity(r.cap, r.slack);
    var c := Off(r.tail, r.cap);
    if r.front > r.tail {
      assert Holds(r, r.tail);
    } else if r.front >= r.cap {
      var q := SlotTaken(r.front - r.cap, c, r.cap);
      assert Holds(r, q);
    }
  }

  function Rank(pc: ReadPc): nat {
    match pc
    case Idle => 6
    case RefreshDue => 5
    case ClosedDue => 4
    case CheckDue => 4
    case DrainDue => 3
    case CopyDue(_) => 3
    case RepositionDue => 2
  }

  predicate Draining(r: Ring, a: Reader) {
    && RingInv(r) && ReaderInv(r, a) && r.closed && Drainable(r, a.pos)
    && (a.pc.ClosedDue? || a.pc.DrainDue? ==> a.pos >= r.tail)
  }

  function WordsLeft(r: Ring, pc: ReadPc): nat {
    if pc.CopyDue? && |pc.out| <= r.words then r.words - |pc.out| else 0
  }

  /** Until it is told, every step of a drain brings it closer. */
  lemma DrainAdvances(r: Ring, a: Reader)
    requires Draining(r, a) && !TellsShut(r, a)
    ensures var b := AloneStep(r, a);
      && Draining(r, b)
      && (b.pos > a.pos
          || (b.pos == a.pos && (Rank(b.pc) < Rank(a.pc)
                                 || (Rank(b.pc) == Rank(a.pc) && WordsLeft(r, b.pc) < WordsLeft(r, a.pc)))))
  {
    BatchBelowCapacity(r.cap, r.slack);
    if !a.pc.Idle? {
      ReaderKeeps(r, a, DoRead(0));
    }
  }

  lemma DrainEnds(r: Ring, a: Reader) returns (n: nat)
    requires Draining(r, a)
    ensures ToldAfter(r, a, n)
  {
    n := 0;
    var b := a;
    while !TellsShut(r, b)
      invariant b == Alone(r, a, n) && Draining(r, b)
      decreases r.tail - b.pos, Rank(b.pc), WordsLeft(r, b.pc)
    {
      DrainAdvances(r, b);
      b := AloneStep(r, b);
      n := n + 1;
    }
  }

  /** Behind an unfinished write with no slack, nothing a drain does gets it past the tail less a lap. */
  predicate Trapped(r: Ring, a: Reader) {
    && RingInv(r) && ReaderInv(r, a) && r.closed && r.slack == 0 && r.front > r.tail
    && a.pos + r.cap < r.front && !a.pc.ClosedDue? && !a.pc.DrainDue?
  }

  lemma TrappedStays(r: Ring, a: Reader)
    requires Trapped(r, a)
    ensures Trapped(r, AloneStep(r, a)) && AloneStep(r, a).pos < r.tail
  {
    GenerationIsUnique(r, a.pos);
    if !a.pc.Idle? {
      ReaderKeeps(r, a, DoRead(0));
    }
  }

  lemma {:induction false} TrappedForever(r: Ring, a: Reader, n: nat)
    requires Trapped(r, a)
    ensures Trapped(r, Alone(r, a, n))
  {
    if n > 0 {
      TrappedForever(r, a, n - 1);
      TrappedStays(r, Alone(r, a, n - 1));
    }
  }

  /** `Closed` is reached, popping alone on a closed ring, if and only if there is slack, or no write was
      left unfinished past the tail, or the reader is inside that write's window. */
  lemma ClosedIsReachedIff(r: Ring, a: Reader)
    requires RingInv(r) && ReaderInv(r, a) && r.closed && a.pc.Idle?
    ensures (exists n: nat :: ToldAfter(r, a, n)) <==> Drainable(r, a.pos)
  {
    if Drainable(r, a.pos) {
      var n := DrainEnds(r, a);
    } else {
      forall n: nat ensures !ToldAfter(r, a, n) {
        TrappedForever(r, a, n);
      }
    }
  }
}
