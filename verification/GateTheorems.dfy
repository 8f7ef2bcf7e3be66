/** What the gate guarantees over every run. */
module GateTheorems {
  import opened Framing
  import opened Gate
  import opened GateProof

  /** A consumer that has joined, is not leaving and has not been retired. */
  predicate Joined(g: Gate, i: nat) { i < |g.slots| && g.slots[i].state.Active? && g.slots[i].who.Live? }

  // ------------------------------------------------------------------ nothing unread is overwritten

  /** No position a write may be touching, in progress or abandoned by a dead producer, shares a cell
      with anything at or above a joined consumer's published cursor: neither what it has yet to read nor
      what it has read and not yet released, which it may still be borrowing in place. */
  lemma NothingUnreadIsOverwritten(cap: Size, n: nat, actions: seq<Action>, i: nat, p: nat, q: nat)
    requires var g := Run(Start(cap, n), actions);
      Joined(g, i) && g.slots[i].who.pub <= p < g.tail && g.tail <= q
      && (q < g.hi || (g.prod.Up? && g.prod.pc.Writing? && q < g.prod.next + g.prod.pc.needed))
    ensures Off(p, cap) != Off(q, cap)
  {
    StartOk(cap, n);
    RunKeeps(Start(cap, n), actions);
    var g := Run(Start(cap, n), actions);
    assert SlotOk(g, i) && Protected(g.slots[i]);
    if Off(p, cap) == Off(q, cap) {
      OffSame(p, q, cap);
    }
  }

  /** The producer's cached minimum never exceeds a joined consumer's published cursor, so its length
      never under-counts what that consumer still has to read. */
  lemma CachedMinimumIsALowerBound(cap: Size, n: nat, actions: seq<Action>, i: nat)
    requires var g := Run(Start(cap, n), actions); Joined(g, i) && g.prod.Up?
    ensures var g := Run(Start(cap, n), actions); var c := g.slots[i].who;
      g.prod.cachedMin <= c.pub <= c.rd && g.prod.next - g.prod.cachedMin >= g.tail - c.rd
  {
    StartOk(cap, n);
    RunKeeps(Start(cap, n), actions);
    var g := Run(Start(cap, n), actions);
    assert SlotOk(g, i) && Protected(g.slots[i]);
  }

  // ------------------------------------------------------------------ the empty-registry grant

  /** Every joined consumer stands at or above `floor`, and so will every later one. */
  predicate AllAbove(g: Gate, floor: nat) {
    floor <= g.tail && forall i: nat | i < |g.slots| :: Protected(g.slots[i]) ==> floor <= Low(g.slots[i])
  }

  lemma StepAbove(g: Gate, a: Action, floor: nat)
    requires GateInv(g) && AllAbove(g, floor)
    ensures AllAbove(Apply(g, a), floor)
  {
    var g' := Apply(g, a);
    forall i: nat | i < |g'.slots| && Protected(g'.slots[i]) ensures floor <= Low(g'.slots[i]) {
      assert SlotOk(g, i);
      if g'.slots[i] != g.slots[i] {
        SlotAbove(g.tail, g.slots[i], a, floor);
      }
    }
  }

  lemma SlotAbove(tail: nat, s: Slot, a: Action, floor: nat)
    requires HolderOk(tail, s) && (Protected(s) ==> floor <= Low(s)) && floor <= tail
    ensures OnSlot(a) && Protected(SlotStep(tail, s, a)) ==> floor <= Low(SlotStep(tail, s, a))
  {
  }

  lemma {:induction false} RunAbove(g: Gate, more: seq<Action>, floor: nat)
    requires GateInv(g) && AllAbove(g, floor)
    ensures AllAbove(Run(g, more), floor)
  {
    if more != [] {
      var n := |more| - 1;
      RunAbove(g, more[..n], floor);
      RunKeeps(g, more[..n]);
      StepAbove(Run(g, more[..n]), more[n], floor);
    }
  }

  /** A scan that finds nobody leaves a minimum strictly below every join point, present or future:
      whatever happens next, no consumer joins at or under it. */
  lemma EmptyGrantIsBelowEveryJoin(cap: Size, n: nat, before: seq<Action>, more: seq<Action>, i: nat)
    requires var g := Run(Start(cap, n), before);
      g.prod.Up? && g.prod.pc.ScanDue? && g.prod.pc.i == n && !g.prod.pc.any
    requires Joined(Run(Scan(Run(Start(cap, n), before)), more), i)
    ensures var g := Scan(Run(Start(cap, n), before)); var c := Run(g, more).slots[i].who;
      g.prod.Up? && g.prod.cachedMin < c.pub <= c.rd
  {
    StartOk(cap, n);
    RunKeeps(Start(cap, n), before);
    var g := Run(Start(cap, n), before);
    forall k: nat | k < |g.slots| && Protected(g.slots[k]) ensures g.tail <= Low(g.slots[k]) {
      assert SlotOk(g, k);
    }
    ScanKeeps(g);
    RunAbove(Scan(g), more, g.tail);
    RunKeeps(Scan(g), more);
    var h := Run(Scan(g), more);
    assert SlotOk(h, i) && Protected(h.slots[i]);
  }

  // ------------------------------------------------------------------ retired slots

  /** A retired slot stays out of use, control word untouched, whatever anyone does short of a reset. */
  lemma {:induction false} RetiredStaysRetired(g: Gate, more: seq<Action>, i: nat)
    requires i < |g.slots| && g.slots[i].state.Retired?
    ensures var h := Run(g, more);
      i < |h.slots| && h.slots[i].state.Retired? && h.slots[i].epoch == g.slots[i].epoch
    decreases |more|
  {
    if more != [] {
      RetiredStaysRetired(g, more[..|more| - 1], i);
      StepRetired(Run(g, more[..|more| - 1]), more[|more| - 1], i);
    }
  }

  lemma StepRetired(g: Gate, a: Action, i: nat)
    requires i < |g.slots| && g.slots[i].state.Retired?
    ensures var h := Apply(g, a); i < |h.slots| && h.slots[i].state.Retired? && h.slots[i].epoch == g.slots[i].epoch
  {
  }
}
