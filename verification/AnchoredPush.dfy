/** A whole push of the anchored ring, from the check at the gate to the tail, and the moves its two halves
    keep inside it. */
module AnchoredPush {
  import opened Framing
  import G = Gate
  import B = BytesRing
  import BytesProof
  import opened AnchoredBytes
  import opened AnchoredProof
  import AnchoredTheorems
  import S = GateScan

  // ------------------------------------------------------------------ each half has its moves

  /** The composed ring leaves the table every move of its own, and the observers every move of theirs: a
      table step is the gate's, an observer's step the lossy ring's, and neither touches the other half. */
  lemma HalvesMove(s: Anchored, a: G.Action, b: B.Action)
    ensures var t := Apply(s, DoTable(a));
      && t.sys == s.sys && |t.hands| == |s.hands|
      && t.gate == if a.DoClaim? || (G.OnSlot(a) && !a.DoRead?) then G.Apply(s.gate, a) else s.gate
    ensures Apply(s, DoObserve(b)) ==
      s.(sys := if b.DoSubscribe? || b.DoPop? || b.DoSkip? || b.DoRead? then B.Apply(s.sys, b) else s.sys)
  {
  }

  // ------------------------------------------------------------------ the stores of a push

  /** The stores left of a push in progress. */
  function StoresLeft(p: B.Producer): nat {
    if !p.Writing? then 0
    else
      match p.stage
      case PadDue => 4 + LaneCount(|p.msg|)
      case HeaderDue => 3 + LaneCount(|p.msg|)
      case LaneDue(k) => 2 + (if k < LaneCount(|p.msg|) then LaneCount(|p.msg|) - k else 0)
      case LatestDue => 2
      case TailDue => 1
  }

  /** The same push, further on. */
  predicate Pushing(r: B.Ring, u: B.Ring) {
    && r.prod.Writing? && u.prod.Writing? && u.prod == r.prod.(stage := u.prod.stage)
    && u.frames == r.frames && u.tail == r.tail && u.cap == r.cap
  }

  /** The frame of r's push committed. */
  predicate Pushed(r: B.Ring, u: B.Ring) {
    && r.prod.Writing?
    && var f := NewFrame(r.prod.next, r.prod.msg, r.cap);
    u.frames == r.frames + [f] && u.tail == f.End() && u.prod == B.Ready(f.End(), r.prod.floor)
  }

  lemma OneStore(r: B.Ring)
    requires BytesProof.RingInv(r) && r.prod.Writing?
    ensures var u := B.Produce(r);
      && StoresLeft(u.prod) == StoresLeft(r.prod) - 1
      && if StoresLeft(r.prod) == 1 then Pushed(r, u) else Pushing(r, u)
  {
    BytesProof.NewFrameLegal(r, r.prod.msg);
    BytesProof.OwnCells(NewFrame(r.prod.next, r.prod.msg, r.cap), r.cap);
  }

  function Stores(n: nat): seq<Action> { seq(n, _ => DoProduce) }

  lemma StoresMore(s: Anchored, n: nat)
    ensures Run(s, Stores(n + 1)) == Produce(Run(s, Stores(n)))
  {
    assert Stores(n + 1)[..n] == Stores(n);
  }

  lemma {:induction false} Partway(s: Anchored, n: nat)
    requires AnchoredInv(s) && s.sys.ring.prod.Writing? && n < StoresLeft(s.sys.ring.prod)
    ensures var t := Run(s, Stores(n));
      && AnchoredInv(t) && Pushing(s.sys.ring, t.sys.ring) && t.hands == s.hands && t.sys.readers == s.sys.readers
      && StoresLeft(t.sys.ring.prod) == StoresLeft(s.sys.ring.prod) - n
  {
    if n > 0 {
      Partway(s, n - 1);
      StoresMore(s, n - 1);
      Further(Run(s, Stores(n - 1)));
    }
  }

  lemma Further(s: Anchored)
    requires AnchoredInv(s) && s.sys.ring.prod.Writing?
    ensures AnchoredInv(Produce(s)) && Produce(s).hands == s.hands
    ensures Produce(s).sys == B.System(B.Produce(s.sys.ring), s.sys.readers)
    ensures StoresLeft(B.Produce(s.sys.ring).prod) == StoresLeft(s.sys.ring.prod) - 1
    ensures if StoresLeft(s.sys.ring.prod) == 1 then Pushed(s.sys.ring, B.Produce(s.sys.ring))
            else Pushing(s.sys.ring, B.Produce(s.sys.ring))
  {
    ApplyKeeps(s, DoProduce);
    ProducedAre(s);
    OneStore(s.sys.ring);
  }

  lemma ProducedAre(s: Anchored)
    ensures Apply(s, DoProduce) == Produce(s) && Produce(s).hands == s.hands
    ensures Produce(s).sys == B.System(B.Produce(s.sys.ring), s.sys.readers)
  {
  }

  /** Run to its last store, a push has committed its frame. */
  lemma Completes(s: Anchored)
    requires AnchoredInv(s) && s.sys.ring.prod.Writing?
    ensures var t := Run(s, Stores(StoresLeft(s.sys.ring.prod)));
      AnchoredInv(t) && Pushed(s.sys.ring, t.sys.ring) && t.hands == s.hands && t.sys.readers == s.sys.readers
  {
    var n := StoresLeft(s.sys.ring.prod) - 1;
    Partway(s, n);
    StoresMore(s, n);
    Further(Run(s, Stores(n)));
  }

  // ------------------------------------------------------------------ the check at the gate

  function Scans(k: nat): seq<Action> { seq(k, _ => DoScan) }

  lemma {:induction false} ScansAreTheGates(s: Anchored, k: nat)
    ensures Run(s, Scans(k)) == s.(gate := G.Run(s.gate, S.Scans(k)))
  {
    if k > 0 {
      ScansAreTheGates(s, k - 1);
      assert Scans(k)[..k - 1] == Scans(k - 1) && S.Scans(k)[..k - 1] == S.Scans(k - 1);
    }
  }

  /** The check passes: at once or after one scan. */
  lemma Passes(s: Anchored, msg: seq<Byte>) returns (k: nat)
    requires AnchoredInv(s) && s.sys.ring.prod.Ready? && s.gate.prod.Up? && s.gate.prod.pc.Idle? && S.Drained(s.gate)
    requires |msg| <= MaxMessageLen(s.gate.cap) && 1 <= Needed(s.gate.prod.next, msg, s.gate.cap) < s.gate.cap
    requires s.sys.ring.prod.next == s.gate.prod.next
    ensures var t := Run(Apply(s, DoTry(msg)), Scans(k));
      && t == s.(gate := t.gate) && t.gate.prod.Up?
      && t.gate.prod.pc == G.Granted(Needed(s.gate.prod.next, msg, s.gate.cap))
  {
    var needed := Needed(s.gate.prod.next, msg, s.gate.cap);
    var s1 := Apply(s, DoTry(msg));
    if s1.gate.prod.pc.Granted? {
      k := 0;
    } else {
      S.DrainedGrants(s.gate, needed);
      S.FinishIsARun(S.Begin(s.gate, needed));
      k :| S.Finish(S.Begin(s.gate, needed)) == G.Run(S.Begin(s.gate, needed), S.Scans(k));
    }
    ScansAreTheGates(s1, k);
    assert k == 0 ==> G.Run(s1.gate, S.Scans(k)) == s1.gate;
  }

  /** Whatever happened before, once every anchor has drained or gone, any legal message can be pushed: its
      producer's own steps lead to its frame at the tail, readers and anchors left where they are. */
  lemma AnyMessageIsPushed(cap: Size, n: nat, actions: seq<Action>, msg: seq<Byte>) returns (k: nat, m: nat)
    requires LegalCapacity(cap) && cap >= 16 && 8 * |msg| <= cap && |msg| < PADDING
    requires var s := Run(Start(cap, n), actions);
      s.sys.ring.prod.Ready? && s.gate.prod.Up? && s.gate.prod.pc.Idle? && S.Drained(s.gate)
    ensures var s := Run(Start(cap, n), actions);
      var t := Run(Apply(Run(Apply(s, DoTry(msg)), Scans(k)), DoDeclare(msg)), Stores(m));
      && t.sys.ring.frames == s.sys.ring.frames + [NewFrame(s.sys.ring.tail, msg, cap)]
      && t.sys.ring.tail == t.gate.tail == NewFrame(s.sys.ring.tail, msg, cap).End() > s.sys.ring.tail
      && t.hands == s.hands && t.sys.readers == s.sys.readers && t.sys.ring.prod.Ready?
  {
    RunKeeps(cap, n, actions);
    AnchoredTheorems.RunCap(cap, n, actions);
    k, m := PushesFrom(Run(Start(cap, n), actions), msg);
  }

  lemma PushesFrom(s: Anchored, msg: seq<Byte>) returns (k: nat, m: nat)
    requires AnchoredInv(s) && LegalCapacity(s.sys.ring.cap) && s.sys.ring.cap >= 16
    requires 8 * |msg| <= s.sys.ring.cap && |msg| < PADDING
    requires s.sys.ring.prod.Ready? && s.gate.prod.Up? && s.gate.prod.pc.Idle? && S.Drained(s.gate)
    ensures var t := Run(Apply(Run(Apply(s, DoTry(msg)), Scans(k)), DoDeclare(msg)), Stores(m));
      var f := NewFrame(s.sys.ring.tail, msg, s.sys.ring.cap);
      && t.sys.ring.frames == s.sys.ring.frames + [f] && t.sys.ring.tail == t.gate.tail == f.End() > s.sys.ring.tail
      && t.hands == s.hands && t.sys.readers == s.sys.readers && t.sys.ring.prod.Ready?
  {
    var cap := s.sys.ring.cap;
    LengthsAre(cap, |msg|);
    FramedAligned(s.sys.ring.frames, s.sys.ring.tail, cap);
    AnchoredTheorems.SixteenIsTheFloor(cap);
    k := Passes(s, msg);
    var s1 := Run(Apply(s, DoTry(msg)), Scans(k));
    CheckKeeps(s, msg, k);
    var s2 := Apply(s1, DoDeclare(msg));
    ApplyKeeps(s1, DoDeclare(msg));
    m := StoresLeft(s2.sys.ring.prod);
    Completes(s2);
  }

  lemma {:induction false} CheckKeeps(s: Anchored, msg: seq<Byte>, k: nat)
    requires AnchoredInv(s)
    ensures AnchoredInv(Run(Apply(s, DoTry(msg)), Scans(k)))
  {
    if k == 0 {
      ApplyKeeps(s, DoTry(msg));
    } else {
      CheckKeeps(s, msg, k - 1);
      assert Scans(k)[..k - 1] == Scans(k - 1);
      ApplyKeeps(Run(Apply(s, DoTry(msg)), Scans(k - 1)), DoScan);
    }
  }
}
