/** The heap registry's claim of one slot: the bitmap bit is read and the slot word swapped in two
    separate steps. What that can do to a registration, and exactly when it cannot. */
module HeapClaim {

  /** One consumer's way through a slot. */
  datatype Pc =
    | Outside
    | SawClear   // bitmap read, bit clear
    | Claimed    // slot word swapped from the sentinel
    | Live       // bit set
    | Leaving    // sentinel stored, bit not yet cleared

  /** `word` is whether the slot word holds a cursor rather than the sentinel. */
  datatype Slot = Slot(bit: bool, word: bool, who: seq<Pc>)

  datatype Action = Look(i: nat) | Swap(i: nat) | SetBit(i: nat) | Leave(i: nat) | ClearBit(i: nat)

  function Put(s: Slot, i: nat, pc: Pc): Slot { if i < |s.who| then s.(who := s.who[i := pc]) else s }

  predicate At(s: Slot, i: nat, pc: Pc) { i < |s.who| && s.who[i] == pc }

  function Step(s: Slot, a: Action): Slot {
    match a
    case Look(i) => if At(s, i, Outside) && !s.bit then Put(s, i, SawClear) else s
    case Swap(i) =>
      if !At(s, i, SawClear) then s
      else if s.word then Put(s, i, Outside)
      else Put(s.(word := true), i, Claimed)
    case SetBit(i) => if At(s, i, Claimed) then Put(s.(bit := true), i, Live) else s
    case Leave(i) => if At(s, i, Live) then Put(s.(word := false), i, Leaving) else s
    case ClearBit(i) => if At(s, i, Leaving) then Put(s.(bit := false), i, Outside) else s
  }

  function Run(s: Slot, actions: seq<Action>): Slot {
    if actions == [] then s else Step(Run(s, actions[..|actions| - 1]), actions[|actions| - 1])
  }

  function Start(n: nat): Slot { Slot(false, false, seq(n, _ => Outside)) }

  /** In the slot, or still owing its bit a clear. */
  predicate Inside(pc: Pc) { pc.Claimed? || pc.Live? || pc.Leaving? }

  /** One occupant at most, its bit set exactly from registration to departure. */
  predicate Sound(s: Slot) {
    && (forall i: nat, j: nat | i < j < |s.who| :: !(Inside(s.who[i]) && Inside(s.who[j])))
    && (forall i: nat | i < |s.who| ::
          && (s.who[i].Claimed? ==> s.word && !s.bit)
          && (s.who[i].Live? ==> s.word && s.bit)
          && (s.who[i].Leaving? ==> !s.word && s.bit))
    && (s.word || s.bit ==> exists i: nat :: i < |s.who| && Inside(s.who[i]))
  }

  /** Everything but the swap keeps a sound slot sound... */
  lemma OthersKeep(s: Slot, a: Action)
    requires Sound(s) && !a.Swap?
    ensures Sound(Step(s, a))
  {
    var t := Step(s, a);
    if t != s {
      Occupied(s, t, a.i);
    }
  }

  lemma Occupied(s: Slot, t: Slot, i: nat)
    requires Sound(s) && i < |s.who| && |t.who| == |s.who|
    requires forall k: nat | k < |s.who| && k != i :: t.who[k] == s.who[k]
    requires Inside(t.who[i]) ==> Inside(s.who[i])
    ensures forall k: nat, l: nat | k < l < |t.who| :: !(Inside(t.who[k]) && Inside(t.who[l]))
  {
  }

  /** ...and a successful swap does exactly when the bit is clear at that very moment: the clear bit seen
      earlier proves nothing. */
  lemma SwapKeepsIffBitClear(s: Slot, i: nat)
    requires Sound(s) && At(s, i, SawClear) && !s.word
    ensures Sound(Step(s, Swap(i))) <==> !s.bit
  {
    var t := Step(s, Swap(i));
    assert t.who[i].Claimed?;
    if s.bit {
      assert t.bit && t.who[i].Claimed?;
    } else {
      assert forall k: nat | k < |s.who| :: !Inside(s.who[k]);
    }
  }

  // ------------------------------------------------------------------ a claim and a departure, left alone

  lemma RunTwo(s: Slot, a: Action, b: Action)
    ensures Run(s, [a, b]) == Step(Step(s, a), b)
  {
    assert [a, b][..1] == [a] && [a][..0] == [];
    assert Run(s, [a]) == Step(s, a);
  }

  /** Whoever finds the bit clear may try; it takes the slot exactly if the word holds the sentinel, and is then
      registered, bit and word set; its departure clears both. */
  lemma ClaimsAndLeaves(s: Slot, i: nat)
    ensures At(s, i, Outside) ==> Step(s, Look(i)) == if s.bit then s else Put(s, i, SawClear)
    ensures At(s, i, SawClear) && s.word ==> Step(s, Swap(i)) == Put(s, i, Outside)
    ensures At(s, i, SawClear) && !s.word ==>
      Run(s, [Swap(i), SetBit(i)]) == Put(s.(bit := true, word := true), i, Live)
    ensures At(s, i, Live) ==> Run(s, [Leave(i), ClearBit(i)]) == Put(s.(bit := false, word := false), i, Outside)
  {
    RunTwo(s, Swap(i), SetBit(i));
    RunTwo(s, Leave(i), ClearBit(i));
  }

  // ------------------------------------------------------------------ when a registration is lost

  /** Some continuation in which consumer i stays leaves it registered with its bit clear. */
  ghost predicate CanBeLost(s: Slot, i: nat) {
    exists actions: seq<Action> :: LosesBit(s, actions, i)
  }

  predicate LosesBit(s: Slot, actions: seq<Action>, i: nat) {
    Leave(i) !in actions && At(Run(s, actions), i, Live) && !Run(s, actions).bit
  }

  /** In a sound slot whose occupant stays, no other swap succeeds. */
  predicate Holds(s: Slot, i: nat) { Sound(s) && (At(s, i, Claimed) || At(s, i, Live)) }

  lemma StaysHeld(s: Slot, a: Action, i: nat)
    requires Holds(s, i) && a != Leave(i)
    ensures Holds(Step(s, a), i)
  {
    assert Inside(s.who[i]);
    assert forall k: nat | k < |s.who| && k != i :: !Inside(s.who[k]);
    if a.Swap? {
      if At(s, a.i, SawClear) {
        Occupied(s, Step(s, a), a.i);
      }
    } else {
      OthersKeep(s, a);
    }
  }

  lemma {:induction false} RunStaysHeld(s: Slot, actions: seq<Action>, i: nat)
    requires Holds(s, i) && Leave(i) !in actions
    ensures Holds(Run(s, actions), i)
  {
    if actions != [] {
      var n := |actions| - 1;
      RunStaysHeld(s, actions[..n], i);
      StaysHeld(Run(s, actions[..n]), actions[n], i);
    }
  }

  /** The departing consumer's clear comes after the newcomer's set. */
  lemma ErasedBy(s: Slot, i: nat, k: nat)
    requires At(s, i, Claimed) && At(s, k, Leaving)
    ensures LosesBit(s, [SetBit(i), ClearBit(k)], i)
  {
    RunTwoMore(s, [], SetBit(i), ClearBit(k));
    assert [] + [SetBit(i), ClearBit(k)] == [SetBit(i), ClearBit(k)];
  }

  /** A consumer whose swap succeeded can end up registered with its bit clear if and only if the bit was
      still set at the swap. */
  lemma ClaimIsDurableIffBitClear(s: Slot, i: nat)
    requires Sound(s) && At(s, i, SawClear) && !s.word
    ensures CanBeLost(Step(s, Swap(i)), i) <==> s.bit
  {
    var t := Step(s, Swap(i));
    if s.bit {
      var k: nat :| k < |s.who| && Inside(s.who[k]);
      ErasedBy(t, i, k);
    } else {
      SwapKeepsIffBitClear(s, i);
      forall actions: seq<Action> ensures !LosesBit(t, actions, i) {
        if Leave(i) !in actions {
          RunStaysHeld(t, actions, i);
        }
      }
    }
  }

  // ------------------------------------------------------------------ one step or two

  /** Each step's swap, if any, finds the bit clear: the bit check and the swap as one step. */
  predicate AtomicAt(s: Slot, a: Action) { a.Swap? && At(s, a.i, SawClear) && !s.word ==> !s.bit }

  predicate Atomic(s: Slot, actions: seq<Action>) {
    actions == [] || (Atomic(s, actions[..|actions| - 1])
                      && AtomicAt(Run(s, actions[..|actions| - 1]), actions[|actions| - 1]))
  }

  /** With check and swap as one step, a registered consumer's bit is never lost. */
  lemma {:induction false} AtomicClaimsAreSafe(n: nat, actions: seq<Action>)
    requires Atomic(Start(n), actions)
    ensures Sound(Run(Start(n), actions))
  {
    if actions != [] {
      var m := |actions| - 1;
      AtomicClaimsAreSafe(n, actions[..m]);
      var s, a := Run(Start(n), actions[..m]), actions[m];
      if a.Swap? && At(s, a.i, SawClear) {
        if s.word {
          Occupied(s, Step(s, a), a.i);
        } else {
          SwapKeepsIffBitClear(s, a.i);
        }
      } else if !a.Swap? {
        OthersKeep(s, a);
      }
    }
  }

  /** As two steps, a departing consumer's belated clear can erase a newcomer's bit: the newcomer looks
      early, the slot is claimed, used and half left, the swap succeeds, and the clear comes last. */
  lemma TwoStepClaimCanBeErased()
    ensures exists actions: seq<Action> ::
      var s := Run(Start(2), actions); At(s, 1, Live) && !s.bit
  {
    LooksEarly();
    var a1 := [Look(1), Look(0), Swap(0), SetBit(0)];
    var a2 := a1 + [Leave(0), Swap(1)];
    var a3 := a2 + [SetBit(1), ClearBit(0)];
    RunTwoMore(Start(2), a1, Leave(0), Swap(1));
    RunTwoMore(Start(2), a2, SetBit(1), ClearBit(0));
    assert Run(Start(2), a2) == Slot(true, true, [Leaving, Claimed]);
    assert Run(Start(2), a3) == Slot(false, true, [Outside, Live]);
  }

  lemma LooksEarly()
    ensures Run(Start(2), [Look(1), Look(0), Swap(0), SetBit(0)]) == Slot(true, true, [Live, SawClear])
  {
    RunFour(Start(2), Look(1), Look(0), Swap(0), SetBit(0));
    assert Step(Step(Start(2), Look(1)), Look(0)) == Slot(false, false, [SawClear, SawClear]);
  }

  lemma RunFour(s: Slot, a: Action, b: Action, c: Action, d: Action)
    ensures Run(s, [a, b, c, d]) == Step(Step(Step(Step(s, a), b), c), d)
  {
    assert Run(s, []) == s;
    RunTwoMore(s, [], a, b);
    assert [] + [a, b] == [a, b];
    RunTwoMore(s, [a, b], c, d);
    assert [a, b] + [c, d] == [a, b, c, d];
  }

  lemma RunTwoMore(s: Slot, actions: seq<Action>, a: Action, b: Action)
    ensures Run(s, actions + [a, b]) == Step(Step(Run(s, actions), a), b)
  {
    var all := actions + [a, b];
    assert all[..|all| - 1] == actions + [a] && (actions + [a])[..|actions|] == actions;
    assert Run(s, actions + [a]) == Step(Run(s, actions), a);
  }
}
