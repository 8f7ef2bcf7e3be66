/** The epoch half of the control word, over runs that also reset the table: no two occupancies of a slot
    ever share an epoch, so a diagnosis naming one is never carried out on another. */
module Epochs {
  import opened Framing
  import opened Gate
  import P = GateProof
  import V = Recovery

  /** A step of the gate, a reset of the whole table, or a recovery (a reset, then the recoverer's claim). */
  datatype Step = Gated(a: Action) | Reset | Recover

  function Next(g: Gate, a: Step): Gate {
    match a
    case Gated(b) => Apply(g, b)
    case Reset => g.(slots := V.ResetSlots(g.slots))
    case Recover => if g.slots == [] then g else V.Recovered(g)
  }

  function Run(g: Gate, actions: seq<Step>): Gate {
    if actions == [] then g else Next(Run(g, actions[..|actions| - 1]), actions[|actions| - 1])
  }

  lemma SlotEpochs(g: Gate, a: Action)
    requires P.EpochsOk(g.slots, g.issued) && OnSlot(a) && a.i < |g.slots|
    ensures P.EpochsOk(Apply(g, a).slots, Apply(g, a).issued)
  {
    P.SlotMovesEpochs(g.slots, g.issued, a.i, SlotStep(g.tail, g.slots[a.i], a));
  }

  /** Nothing but the control words is needed: this holds after an unsafe recovery as well. */
  lemma NextEpochs(g: Gate, a: Step)
    requires P.EpochsOk(g.slots, g.issued)
    ensures P.EpochsOk(Next(g, a).slots, Next(g, a).issued)
  {
    if a.Gated? {
      if OnSlot(a.a) && a.a.i < |g.slots| {
        SlotEpochs(g, a.a);
      } else if a.a.DoClaim? && a.a.i < |g.slots| && g.slots[a.a.i].state.Free? {
        P.ClaimEpochs(g.slots, g.issued, a.a.i, Apply(g, a.a).slots[a.a.i]);
      }
    } else {
      V.ResetEpochs(g.slots, g.issued);
      if a.Recover? && g.slots != [] {
        P.ClaimEpochs(V.ResetSlots(g.slots), g.issued, 0, V.Recovered(g).slots[0]);
      }
    }
  }

  lemma {:induction false} RunEpochs(g: Gate, actions: seq<Step>)
    requires P.EpochsOk(g.slots, g.issued)
    ensures P.EpochsOk(Run(g, actions).slots, Run(g, actions).issued)
  {
    if actions != [] {
      var n := |actions| - 1;
      RunEpochs(g, actions[..n]);
      NextEpochs(Run(g, actions[..n]), actions[n]);
    }
  }

  /** No two occupancies of a slot ever share an epoch, resets and recoveries at any point included. */
  lemma EpochsIdentifyOccupancies(cap: Size, n: nat, actions: seq<Step>, k: nat, l: nat)
    requires k < |Run(Start(cap, n), actions).issued| && l < |Run(Start(cap, n), actions).issued|
    requires Run(Start(cap, n), actions).issued[k] == Run(Start(cap, n), actions).issued[l]
    ensures k == l
  {
    P.StartOk(cap, n);
    RunEpochs(Start(cap, n), actions);
  }

  predicate IssuedAt(g: Gate, k: nat, c: Claim) { k < |g.issued| && g.issued[k] == c }

  lemma RetireChanges(g: Gate, i: nat, epoch: nat)
    requires Apply(g, DoRetire(i, epoch)) != g
    ensures i < |g.slots| && g.slots[i].state.Active? && g.slots[i].epoch == epoch
  {
    assert i < |g.slots|;
    assert g.slots == g.slots[i := g.slots[i]];
  }

  /** Compare-and-retire acts only on the one occupancy that was given that epoch. */
  lemma RetireHitsTheDiagnosed(cap: Size, n: nat, actions: seq<Step>, i: nat, epoch: nat)
    requires var g := Run(Start(cap, n), actions); Apply(g, DoRetire(i, epoch)) != g
    ensures var g := Run(Start(cap, n), actions);
      && i < |g.slots| && g.slots[i].state.Active? && g.slots[i].epoch == epoch
      && (exists k: nat :: (IssuedAt(g, k, Claim(i, epoch))
                            && (forall l: nat :: IssuedAt(g, l, Claim(i, epoch)) ==> l == k)))
  {
    P.StartOk(cap, n);
    RunEpochs(Start(cap, n), actions);
    var g := Run(Start(cap, n), actions);
    RetireChanges(g, i, epoch);
    assert Claim(i, epoch) in g.issued;
    var k: nat :| k < |g.issued| && g.issued[k] == Claim(i, epoch);
    assert IssuedAt(g, k, Claim(i, epoch));
  }

  /** A diagnosis made before a reset is void after it: no slot carries its epoch, then or ever after, so
      compare-and-retire leaves every later occupancy alone. */
  lemma StaleDiagnosisIsVoid(g: Gate, actions: seq<Step>, i: nat, epoch: nat)
    requires i < |g.slots| && epoch <= g.slots[i].epoch
    ensures Apply(Run(Next(g, Reset), actions), DoRetire(i, epoch)) == Run(Next(g, Reset), actions)
  {
    EpochsRise(Next(g, Reset), actions, i);
  }

  lemma {:induction false} EpochsRise(g: Gate, actions: seq<Step>, i: nat)
    requires i < |g.slots|
    ensures i < |Run(g, actions).slots| && g.slots[i].epoch <= Run(g, actions).slots[i].epoch
  {
    if actions != [] {
      var n := |actions| - 1;
      EpochsRise(g, actions[..n], i);
      NextRises(Run(g, actions[..n]), actions[n], i);
    }
  }

  lemma NextRises(g: Gate, a: Step, i: nat)
    requires i < |g.slots|
    ensures i < |Next(g, a).slots| && g.slots[i].epoch <= Next(g, a).slots[i].epoch
  {
  }
}
