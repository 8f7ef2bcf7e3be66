/** The gate is safe: in every interleaving of claims, cursor re-reads, slot-by-slot scans, deferred
    publishes, departures, retirements, producer deaths and recoveries, no write can reach a position
    a joined consumer may still read. */
module GateProof {
  import opened Framing
  import opened Gate

  /** Slots whose holder has finished its join-point load and has not begun to leave. */
  predicate Protected(s: Slot) { s.state.Active? && (s.who.GotJoin? || s.who.Live?) }

  /** The lowest position the holder may still read. */
  function Low(s: Slot): nat
    requires s.who.GotJoin? || s.who.Live?
  {
    if s.who.GotJoin? then s.who.j else s.who.pub
  }

  /** Nothing granted, begun or cached reaches over `lo`. */
  predicate Clears(g: Gate, lo: nat) {
    && g.hi <= lo + g.cap
    && (g.prod.Up? ==> g.prod.cachedMin <= lo)
    && (g.prod.Up? && (g.prod.pc.Granted? || g.prod.pc.Writing?) ==> g.prod.next + g.prod.pc.needed <= lo + g.cap)
  }

  /** The scan so far accounts for slot `i`, if it has passed it. */
  predicate Covered(pc: Pc, next: nat, i: nat, lo: nat) {
    (pc.ScanDue? || pc.LoadDue?) && i < pc.i ==> next <= lo || (pc.any && next - pc.maxLag <= lo)
  }

  predicate HolderOk(tail: nat, s: Slot) {
    && (s.cursor.At? ==> s.cursor.v <= tail)
    && (s.state.Free? ==> s.who.Nobody? && s.cursor.Detached?)
    && match s.who
       case Claimed => s.state.Active? ==> s.cursor.Detached?
       case GotProvisional(p) => p <= tail && (s.state.Active? ==> s.cursor.Detached?)
       case StoredProvisional => s.state.Active? ==> s.cursor.At?
       case GotJoin(j) => j <= tail && (s.state.Active? ==> s.cursor.At? && s.cursor.v <= j)
       case Live(join, rd, pub, cache) =>
         join <= pub <= rd <= cache <= tail && (s.state.Active? ==> s.cursor == At(pub))
       case Leaving => s.state.Active? ==> s.cursor.Detached?
       case Nobody => !s.state.Active?
  }

  /** What the producer's cache holds for an active slot is a lower bound of its cursor, or so old that
      it is reloaded before use. */
  predicate CacheOk(g: Gate, i: nat)
    requires i < |g.slots|
  {
    var s := g.slots[i];
    g.prod.Up? && i < |g.prod.cached| && s.state.Active? ==>
      var c := g.prod.cached[i];
      && (s.cursor.At? ==> c <= s.cursor.v || c + g.cap <= g.prod.next)
      && (s.who.GotProvisional? ==> c <= s.who.p || c + g.cap <= g.prod.next)
  }

  predicate SlotOk(g: Gate, i: nat)
    requires i < |g.slots|
  {
    var s := g.slots[i];
    && HolderOk(g.tail, s)
    && CacheOk(g, i)
    && (Protected(s) ==>
          && Clears(g, Low(s))
          && (g.prod.Up? ==> Covered(g.prod.pc, g.prod.next, i, Low(s)))
          && (g.prod.Up? && i < |g.prod.cached| ==> g.prod.cached[i] <= Low(s)))
  }

  predicate ProducerOk(g: Gate) {
    && g.tail <= g.hi <= g.tail + g.cap
    && (g.prod.Up? ==>
          && g.prod.next == g.tail && g.prod.cachedMin <= g.tail
          && (forall k: nat | k < |g.prod.cached| :: g.prod.cached[k] <= g.tail)
          && PcOk(g, g.prod.pc, |g.prod.cached|))
  }

  predicate PcOk(g: Gate, pc: Pc, cached: nat) {
    match pc
    case Idle => true
    case ScanDue(needed, i, any, maxLag) => 1 <= needed <= g.cap && 0 <= maxLag && i <= |g.slots| && i <= cached
    case LoadDue(needed, i, any, maxLag) => 1 <= needed <= g.cap && 0 <= maxLag && i < |g.slots| && i < cached
    case Granted(needed) => 1 <= needed <= g.cap
    case Writing(needed) => 1 <= needed <= g.cap && g.hi >= g.tail + needed
  }

  predicate GateInv(g: Gate) {
    && ProducerOk(g)
    && EpochsOk(g.slots, g.issued)
    && forall i: nat | i < |g.slots| :: SlotOk(g, i)
  }

  // ------------------------------------------------------------------ epochs

  /** Occupancies are numbered apart, never beyond their slot's control word, and an active slot's
      control word is the latest one's. */
  predicate EpochsOk(slots: seq<Slot>, issued: seq<Claim>) {
    && (forall k: nat | k < |issued| ::
          issued[k].slot < |slots| && issued[k].epoch <= slots[issued[k].slot].epoch)
    && (forall i: nat | i < |slots| && slots[i].state.Active? :: Claim(i, slots[i].epoch) in issued)
    && (forall k: nat, l: nat | k < l < |issued| :: issued[k] != issued[l])
  }

  lemma SlotMovesEpochs(slots: seq<Slot>, issued: seq<Claim>, i: nat, s: Slot)
    requires EpochsOk(slots, issued) && i < |slots| && slots[i].epoch <= s.epoch
    requires s.state.Active? ==> slots[i].state.Active? && s.epoch == slots[i].epoch
    ensures EpochsOk(slots[i := s], issued)
  {
    var slots' := slots[i := s];
    forall k: nat | k < |slots'| && slots'[k].state.Active? ensures Claim(k, slots'[k].epoch) in issued {
      assert slots[k].state.Active? && slots[k].epoch == slots'[k].epoch;
    }
  }

  // ------------------------------------------------------------------ steps of consumers

  lemma JoinPointClears(g: Gate, i: nat)
    requires ProducerOk(g)
    ensures Clears(g, g.tail)
    ensures g.prod.Up? ==> Covered(g.prod.pc, g.prod.next, i, g.tail)
    ensures g.prod.Up? && i < |g.prod.cached| ==> g.prod.cached[i] <= g.tail
  {
  }

  lemma JoinStepOk(g: Gate, i: nat, s': Slot)
    requires ProducerOk(g) && i < |g.slots| && SlotOk(g, i) && s' == JoinStep(g.tail, g.slots[i])
    ensures SlotOk(g.(slots := g.slots[i := s']), i)
  {
    JoinPointClears(g, i);
  }

  lemma SlotStepOk(g: Gate, i: nat, a: Action, s': Slot)
    requires ProducerOk(g) && i < |g.slots| && SlotOk(g, i) && OnSlot(a)
    requires s' == SlotStep(g.tail, g.slots[i], a)
    ensures SlotOk(g.(slots := g.slots[i := s']), i)
    ensures g.slots[i].epoch <= s'.epoch
    ensures s'.state.Active? ==> g.slots[i].state.Active? && s'.epoch == g.slots[i].epoch
  {
    if a.DoJoin? {
      JoinStepOk(g, i, s');
    }
  }

  lemma SlotKeeps(g: Gate, a: Action)
    requires GateInv(g) && OnSlot(a)
    ensures GateInv(Apply(g, a))
  {
    if a.i < |g.slots| {
      var s' := SlotStep(g.tail, g.slots[a.i], a);
      var g' := g.(slots := g.slots[a.i := s']);
      SlotStepOk(g, a.i, a, s');
      SlotMovesEpochs(g.slots, g.issued, a.i, s');
      forall k: nat | k < |g'.slots| ensures SlotOk(g', k) {
        if k != a.i {
          assert SlotOk(g, k);
        }
      }
      assert g' == Apply(g, a);
    }
  }

  lemma ClaimEpochs(slots: seq<Slot>, issued: seq<Claim>, i: nat, s: Slot)
    requires EpochsOk(slots, issued) && i < |slots| && s.epoch == slots[i].epoch + 1
    ensures EpochsOk(slots[i := s], issued + [Claim(i, s.epoch)])
  {
    var c := Claim(i, s.epoch);
    var issued' := issued + [c];
    forall k: nat, l: nat | k < l < |issued'| ensures issued'[k] != issued'[l] {
      if l == |issued| {
        assert issued[k].epoch <= slots[issued[k].slot].epoch;
      }
    }
    assert issued'[|issued|] == c;
    var slots' := slots[i := s];
    forall k: nat | k < |slots'| && slots'[k].state.Active? ensures Claim(k, slots'[k].epoch) in issued' {
      if k != i {
        assert Claim(k, slots[k].epoch) in issued;
      }
    }
  }

  lemma ClaimKeeps(g: Gate, i: nat)
    requires GateInv(g)
    ensures GateInv(ClaimSlot(g, i))
  {
    if i < |g.slots| && g.slots[i].state.Free? {
      var s' := g.slots[i].(epoch := g.slots[i].epoch + 1, state := Active, who := Claimed);
      var g' := g.(slots := g.slots[i := s'], issued := g.issued + [Claim(i, s'.epoch)]);
      ClaimEpochs(g.slots, g.issued, i, s');
      forall k: nat | k < |g'.slots| ensures SlotOk(g', k) {
        assert SlotOk(g, k);
      }
      assert g' == ClaimSlot(g, i);
    }
  }

  // ------------------------------------------------------------------ steps of the producer

  /** A producer step that leaves the table alone keeps every slot's promise. */
  predicate Respects(g: Gate, g': Gate, i: nat)
    requires i < |g.slots|
  {
    var s := g.slots[i];
    && (i < |g'.slots| && g'.slots[i] == s ==> CacheOk(g', i))
    && (Protected(s) ==>
          && Clears(g', Low(s))
          && (g'.prod.Up? ==> Covered(g'.prod.pc, g'.prod.next, i, Low(s)))
          && (g'.prod.Up? && i < |g'.prod.cached| ==> g'.prod.cached[i] <= Low(s)))
  }

  lemma ProducerMoves(g: Gate, g': Gate)
    requires GateInv(g) && ProducerOk(g') && g'.slots == g.slots && g'.issued == g.issued && g.tail <= g'.tail
    requires forall i: nat | i < |g.slots| :: Respects(g, g', i)
    ensures GateInv(g')
  {
    forall i: nat | i < |g'.slots| ensures SlotOk(g', i) {
      assert SlotOk(g, i) && Respects(g, g', i);
    }
  }

  lemma PublishRespects(g: Gate, i: nat)
    requires ProducerOk(g) && i < |g.slots| && SlotOk(g, i)
    ensures Respects(g, Publish(g), i)
  {
  }

  lemma BeginRespects(g: Gate, i: nat)
    requires ProducerOk(g) && i < |g.slots| && SlotOk(g, i)
    ensures Respects(g, BeginWrite(g), i)
  {
  }

  lemma TryRespects(g: Gate, needed: nat, i: nat)
    requires ProducerOk(g) && i < |g.slots| && SlotOk(g, i)
    ensures Respects(g, Try(g, needed), i)
  {
  }

  lemma StopRespects(g: Gate, i: nat)
    requires ProducerOk(g) && i < |g.slots| && SlotOk(g, i)
    ensures Respects(g, Abandon(g), i) && Respects(g, CrashProducer(g), i)
  {
  }

  lemma AttachRespects(g: Gate, i: nat)
    requires ProducerOk(g) && i < |g.slots| && SlotOk(g, i)
    ensures Respects(g, AttachProducer(g), i)
  {
  }

  lemma ScanRespects(g: Gate, i: nat)
    requires ProducerOk(g) && i < |g.slots| && SlotOk(g, i) && g.prod.Up?
    requires g.prod.pc.ScanDue? || g.prod.pc.LoadDue?
    requires g.prod.pc.i < |g.slots| ==> SlotOk(g, g.prod.pc.i)
    ensures Respects(g, Scan(g), i)
  {
  }

  lemma ScanProducer(g: Gate)
    requires ProducerOk(g) && (forall i: nat | i < |g.slots| :: SlotOk(g, i))
    ensures ProducerOk(Scan(g))
  {
    if g.prod.Up? && (g.prod.pc.ScanDue? || g.prod.pc.LoadDue?) && g.prod.pc.i < |g.slots| {
      assert SlotOk(g, g.prod.pc.i);
    }
  }

  lemma ScanKeeps(g: Gate)
    requires GateInv(g)
    ensures GateInv(Scan(g))
  {
    if g.prod.Up? && (g.prod.pc.ScanDue? || g.prod.pc.LoadDue?) {
      ScanProducer(g);
      forall i: nat | i < |g.slots| ensures Respects(g, Scan(g), i) {
        assert SlotOk(g, i) && (g.prod.pc.i < |g.slots| ==> SlotOk(g, g.prod.pc.i));
        ScanRespects(g, i);
      }
      ProducerMoves(g, Scan(g));
    }
  }

  lemma ProducerKeeps(g: Gate, a: Action, g': Gate)
    requires GateInv(g) && g' == Apply(g, a)
    requires a.DoTry? || a.DoAbandon? || a.DoBeginWrite? || a.DoPublish? || a.DoCrash? || a.DoAttach?
    ensures GateInv(g')
  {
    forall i: nat | i < |g.slots| ensures Respects(g, g', i) {
      assert SlotOk(g, i);
      match a {
        case DoTry(needed) => TryRespects(g, needed, i);
        case DoBeginWrite => BeginRespects(g, i);
        case DoPublish => PublishRespects(g, i);
        case DoAttach => AttachRespects(g, i);
        case _ => StopRespects(g, i);
      }
    }
    ProducerMoves(g, g');
  }

  lemma ApplyKeeps(g: Gate, a: Action)
    requires GateInv(g)
    ensures GateInv(Apply(g, a))
  {
    if OnSlot(a) {
      SlotKeeps(g, a);
    } else if a.DoClaim? {
      ClaimKeeps(g, a.i);
    } else if a.DoScan? {
      ScanKeeps(g);
    } else {
      ProducerKeeps(g, a, Apply(g, a));
    }
  }

  lemma ApplyShape(g: Gate, a: Action)
    ensures Apply(g, a).cap == g.cap && |Apply(g, a).slots| == |g.slots|
  {
  }

  lemma {:induction false} RunKeeps(g: Gate, actions: seq<Action>)
    requires GateInv(g)
    ensures GateInv(Run(g, actions)) && Run(g, actions).cap == g.cap && |Run(g, actions).slots| == |g.slots|
  {
    if actions != [] {
      var n := |actions| - 1;
      RunKeeps(g, actions[..n]);
      ApplyKeeps(Run(g, actions[..n]), actions[n]);
      ApplyShape(Run(g, actions[..n]), actions[n]);
    }
  }

  lemma StartOk(cap: Size, n: nat)
    ensures GateInv(Start(cap, n))
  {
  }
}
