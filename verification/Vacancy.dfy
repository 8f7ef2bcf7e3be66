/** How a table slot comes to be claimed again: after its holder left, after a reset, after a recovery, with
    everybody else moving in between; and what its next holder goes through. */
module Vacancy {
  import opened Framing
  import opened Gate
  import E = Epochs
  import V = Recovery

  /** A step of the producer or on another slot. */
  predicate Elsewhere(a: Action, i: nat) { OnSlot(a) || a.DoClaim? ==> a.i != i }

  predicate AllElsewhere(actions: seq<Action>, i: nat) { forall a | a in actions :: Elsewhere(a, i) }

  lemma {:induction false} ElsewhereLeaves(g: Gate, actions: seq<Action>, i: nat)
    requires i < |g.slots| && AllElsewhere(actions, i)
    ensures |Run(g, actions).slots| == |g.slots| && Run(g, actions).slots[i] == g.slots[i]
  {
    if actions != [] {
      var n := |actions| - 1;
      ElsewhereLeaves(g, actions[..n], i);
      assert Elsewhere(actions[n], i);
    }
  }

  /** Slot i is taken by the one compare-and-swap of a claim, under the epoch after `epoch`. */
  predicate ClaimTakes(g: Gate, i: nat, epoch: nat) {
    var h := Apply(g, DoClaim(i));
    && i < |g.slots| && h == g.(slots := h.slots, issued := g.issued + [Claim(i, epoch + 1)])
    && h.slots == g.slots[i := Slot(epoch + 1, Active, g.slots[i].cursor, Claimed)]
  }

  /** A claim succeeds exactly on a free slot, and changes nothing otherwise. */
  lemma ClaimsTheFree(g: Gate, i: nat)
    requires i < |g.slots|
    ensures if g.slots[i].state.Free? then ClaimTakes(g, i, g.slots[i].epoch) else Apply(g, DoClaim(i)) == g
  {
  }

  /** A holder that leaves frees its slot for the next: whatever the producer and the other slots do between
      its two stores and after them, a claim then succeeds, under the next epoch and without a cursor. */
  lemma LeftIsClaimable(g: Gate, between: seq<Action>, after: seq<Action>, i: nat)
    requires i < |g.slots| && g.slots[i].who.Live? && g.slots[i].state.Active?
    requires AllElsewhere(between, i) && AllElsewhere(after, i)
    ensures var t := Run(Apply(Run(Apply(g, DoLeave(i)), between), DoFree(i)), after);
      && ClaimTakes(t, i, g.slots[i].epoch) && t.slots[i].cursor.Detached? && t.slots[i].who.Nobody?
  {
    var g1 := Apply(g, DoLeave(i));
    ElsewhereLeaves(g1, between, i);
    var g2 := Apply(Run(g1, between), DoFree(i));
    ElsewhereLeaves(g2, after, i);
    ClaimsTheFree(Run(g2, after), i);
  }

  /** Unless it was retired in between: then its own store leaves the slot retired, and no claim takes it. */
  lemma RetiredMeanwhile(g: Gate, between: seq<Action>, after: seq<Action>, i: nat)
    requires i < |g.slots| && g.slots[i].who.Live? && g.slots[i].state.Active?
    requires AllElsewhere(between, i) && AllElsewhere(after, i)
    ensures var u := Apply(Run(Apply(g, DoLeave(i)), between), DoRetire(i, g.slots[i].epoch));
      var t := Run(Apply(u, DoFree(i)), after);
      i < |t.slots| && t.slots[i] == Slot(g.slots[i].epoch + 1, Retired, Detached, Nobody) && Apply(t, DoClaim(i)) == t
  {
    var e := g.slots[i].epoch;
    var g1 := Apply(g, DoLeave(i));
    ElsewhereLeaves(g1, between, i);
    var g2 := Run(g1, between);
    assert g2.slots[i] == Slot(e, Active, Detached, Leaving);
    var g3 := Apply(Apply(g2, DoRetire(i, e)), DoFree(i));
    assert i < |g3.slots| && g3.slots[i] == Slot(e + 1, Retired, Detached, Nobody);
    ElsewhereLeaves(g3, after, i);
    ClaimsTheFree(Run(g3, after), i);
  }

  /** A reset frees every slot, retired ones included: each then carries the next epoch and no cursor, and
      whatever happens elsewhere, a claim of it succeeds. */
  lemma ResetIsClaimable(g: Gate, after: seq<Action>, i: nat)
    requires i < |g.slots| && AllElsewhere(after, i)
    ensures var r := E.Next(g, E.Reset); var t := Run(r, after);
      && |r.slots| == |g.slots| == |t.slots| && r == g.(slots := r.slots)
      && t.slots[i] == Slot(g.slots[i].epoch + 1, Free, Detached, Nobody) && ClaimTakes(t, i, g.slots[i].epoch + 1)
  {
    var r := E.Next(g, E.Reset);
    ElsewhereLeaves(r, after, i);
    ClaimsTheFree(Run(r, after), i);
  }

  /** A recovery does the same to every slot but the first, which it takes for the recoverer, at a position at
      or below every cursor still plausible; the new producer starts at the tail, with nothing cached. */
  lemma RecoveredTable(g: Gate, i: nat)
    requires i < |g.slots|
    ensures var r := E.Next(g, E.Recover);
      && |r.slots| == |g.slots| && r.tail == g.tail && r.hi == g.hi && r.cap == g.cap
      && r.prod == Up(g.tail, g.tail - g.cap, [], ScanDue(1, 0, false, 0))
      && r.issued == g.issued + [Claim(0, g.slots[0].epoch + 2)]
      && (if i > 0 then r.slots[i] == Slot(g.slots[i].epoch + 1, Free, Detached, Nobody)
          else r.slots[0].cursor.At? && var p := r.slots[0].cursor.v;
            && r.slots[0] == Slot(g.slots[0].epoch + 2, Active, At(p), Live(p, p, p, p))
            && p <= g.tail <= p + g.cap
            && (forall k: nat | k < |g.slots| && !g.slots[k].state.Free? && g.slots[k].cursor.At?
                                && g.slots[k].cursor.v <= g.tail <= g.slots[k].cursor.v + g.cap ::
                  p <= g.slots[k].cursor.v))
  {
    V.ResumePoint(g.slots, g.tail, g.cap);
  }

  /** A new holder's way in, with the producer publishing between any two of its steps: it ends up joined at
      the tail as its last load saw it. */
  lemma JoinsAtTheTail(g: Gate, first: seq<Action>, second: seq<Action>, third: seq<Action>, i: nat)
    requires i < |g.slots| && g.slots[i].state.Active? && g.slots[i].who.Claimed?
    requires AllElsewhere(first, i) && AllElsewhere(second, i) && AllElsewhere(third, i)
    ensures var t := Run(Apply(Run(Apply(g, DoJoin(i)), first), DoJoin(i)), second);
      var u := Apply(Run(Apply(t, DoJoin(i)), third), DoJoin(i)); var j := t.tail;
      i < |u.slots| && u.slots[i] == g.slots[i].(cursor := At(j), who := Live(j, j, j, j))
  {
    var g1 := Apply(g, DoJoin(i));
    ElsewhereLeaves(g1, first, i);
    var g2 := Apply(Run(g1, first), DoJoin(i));
    ElsewhereLeaves(g2, second, i);
    var g3 := Apply(Run(g2, second), DoJoin(i));
    ElsewhereLeaves(g3, third, i);
  }

  /** A holder that looks, reads everything it sees and flushes is published at the tail as it saw it. */
  lemma CatchesUp(g: Gate, i: nat)
    requires i < |g.slots| && g.slots[i].who.Live? && g.slots[i].who.rd <= g.tail
    ensures var w := g.slots[i].who;
      var u := Apply(Apply(Apply(g, DoRefresh(i)), DoRead(i, g.tail - w.rd)), DoFlush(i));
      u == g.(slots := g.slots[i := g.slots[i].(cursor := At(g.tail), who := Live(w.join, g.tail, g.tail, g.tail))])
  {
  }

  /** A claim of space that is abandoned publishes nothing and begins no write; the next request is looked at
      afresh. */
  lemma AbandonedPublishesNothing(g: Gate, needed: nat)
    requires g.prod.Up? && g.prod.pc.Granted? && 1 <= needed <= g.cap
    ensures var t := Apply(g, DoAbandon); var u := Apply(t, DoTry(needed));
      && t == g.(prod := g.prod.(pc := Idle)) && u == g.(prod := u.prod) && u.prod.Up?
      && u.prod == g.prod.(pc := u.prod.pc)
      && u.prod.pc == if g.prod.next + needed - g.prod.cachedMin > g.cap then ScanDue(needed, 0, false, 0)
                      else Granted(needed)
  {
  }
}
