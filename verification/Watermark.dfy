/** Drop-on-overwrite of the gated element ring: a watermark that moves before each drop begins, so that
    a panicking drop or an abandoned claim never leads to a second one. */
module Watermark {
  import opened Framing

  /** Storage is dead (never written, dropped, or being dropped) or holds the value of one sequence. */
  datatype Cell = Vacant | Holding(id: nat)

  /** The sequences 0, 1, ..., n - 1. */
  function Upto(n: nat): seq<nat> { seq(n, i => i) }

  class DroppingRing {
    const cap: Size
    const slots: array<Cell>
    var next: nat
    var droppedThrough: nat
    var claimed: bool
    /** Every drop begun, in order, as the values themselves would record it. */
    var drops: seq<nat>

    ghost predicate Valid()
      reads this, slots
    {
      && slots.Length == cap
      && droppedThrough <= next <= droppedThrough + cap
      && (claimed ==> next < droppedThrough + cap)
      && (forall q: nat | droppedThrough <= q < next :: slots[Off(q, cap)] == Holding(q))
      && (forall q: nat | next <= q < droppedThrough + cap :: slots[Off(q, cap)] == Vacant)
      && drops == Upto(droppedThrough)
    }

    constructor (cap: Size)
      ensures Valid() && this.cap == cap && next == 0 && drops == [] && !claimed && fresh(slots)
    {
      this.cap := cap;
      slots := new Cell[cap](_ => Vacant);
      next, droppedThrough, claimed, drops := 0, 0, false, [];
    }

    /** The drop itself needs an initialized value, and is entered in the history as it begins. */
    method DropInPlace(id: nat)
      requires slots.Length == cap && slots[Off(id, cap)] == Holding(id)
      modifies slots, this`drops
      ensures drops == old(drops) + [id]
      ensures slots[Off(id, cap)] == Vacant
      ensures forall i: nat | i < cap && i != Off(id, cap) :: slots[i] == old(slots[i])
    {
      slots[Off(id, cap)] := Vacant;
      drops := drops + [id];
    }

    /** The drop of a value that the watermark has already passed. It may unwind, and then nothing after it
        runs: so what it leaves behind is sound either way. */
    method DropPassed(id: nat, panics: bool) returns (unwinds: bool)
      requires slots.Length == cap && droppedThrough == id + 1 && next == id + cap && !claimed
      requires drops == Upto(id) && forall q: nat | id <= q < next :: slots[Off(q, cap)] == Holding(q)
      modifies this`drops, slots
      ensures Valid() && unwinds == panics
    {
      ghost var before := slots[..];
      DropInPlace(id);
      StillHolding(before, slots[..], cap, id, next);
      assert drops == Upto(droppedThrough);
      unwinds := panics;
    }

    /** If the slot still holds a value from a lap ago, drop it, the watermark first; `panics` says how that
        drop ends, the result whether the caller unwinds. */
    method PrepareSlot(panics: bool) returns (unwinds: bool)
      requires Valid() && !claimed
      modifies this`droppedThrough, this`drops, slots
      ensures Valid() && next < droppedThrough + cap
      ensures unwinds == (panics && old(droppedThrough) + cap == next)
      ensures droppedThrough
           == if old(droppedThrough) + cap == next then old(droppedThrough) + 1 else old(droppedThrough)
    {
      unwinds := false;
      if next - droppedThrough > cap - 1 {
        var occupant := next - cap;
        droppedThrough := occupant + 1;
        unwinds := DropPassed(occupant, panics);
      }
    }

    method Write()
      requires Valid() && next < droppedThrough + cap
      modifies this`next, this`claimed, slots
      ensures Valid() && next == old(next) + 1 && !claimed
      ensures droppedThrough == old(droppedThrough)
    {
      ghost var before := slots[..];
      slots[Off(next, cap)] := Holding(next);
      NowHolding(before, slots[..], cap, droppedThrough, next);
      next := next + 1;
      claimed := false;
    }

    /** Publishes exactly when the gate grants and the overwritten value's drop does not unwind. */
    method Push(granted: bool, panics: bool) returns (ok: bool)
      requires Valid() && !claimed
      modifies this, slots
      ensures Valid() && !claimed && next == if ok then old(next) + 1 else old(next)
      ensures ok <==> granted && !(panics && old(droppedThrough) + cap == old(next))
      ensures droppedThrough ==
        if granted && old(droppedThrough) + cap == old(next) then old(droppedThrough) + 1 else old(droppedThrough)
    {
      if !granted {
        return false;
      }
      var unwinds := PrepareSlot(panics);
      if unwinds {
        return false;
      }
      Write();
      ok := true;
    }

    method Claim(granted: bool, panics: bool)
      requires Valid() && !claimed
      modifies this, slots
      ensures Valid() && next == old(next)
      ensures claimed <==> granted && !(panics && old(droppedThrough) + cap == old(next))
      ensures droppedThrough ==
        if granted && old(droppedThrough) + cap == old(next) then old(droppedThrough) + 1 else old(droppedThrough)
    {
      if granted {
        var unwinds := PrepareSlot(panics);
        claimed := !unwinds;
      }
    }

    /** An abandoned claim publishes nothing; its slot stays dead storage. */
    method Abandon()
      requires Valid()
      modifies this`claimed
      ensures Valid() && !claimed
    {
      claimed := false;
    }

    method Commit()
      requires Valid() && claimed
      modifies this, slots
      ensures Valid() && !claimed && next == old(next) + 1 && droppedThrough == old(droppedThrough)
    {
      Write();
    }

    /** Teardown drops the live window, oldest first; should the drop of `bomb` panic, the rest leaks. */
    method Teardown(bomb: nat)
      requires Valid()
      modifies this, slots
      ensures next == old(next)
      ensures drops == Upto(if old(droppedThrough) <= bomb < next then bomb + 1 else next)
    {
      var head := droppedThrough;
      while head != next
        invariant old(droppedThrough) <= head <= next <= droppedThrough + cap && slots.Length == cap
        invariant next == old(next) && droppedThrough == old(droppedThrough)
        invariant forall q: nat | head <= q < next :: slots[Off(q, cap)] == Holding(q)
        invariant drops == Upto(head)
        invariant !(old(droppedThrough) <= bomb < head)
      {
        ghost var before := slots[..];
        DropInPlace(head);
        StillHolding(before, slots[..], cap, head, next);
        head := head + 1;
        assert drops == Upto(head);
        if head - 1 == bomb {
          return;
        }
      }
    }
  }

  /** Sequences less than a lap apart have slots of their own. */
  lemma OwnSlot(p: nat, q: nat, cap: Size)
    requires p < q < p + cap
    ensures Off(p, cap) != Off(q, cap)
  {
    if Off(p, cap) == Off(q, cap) {
      OffSame(p, q, cap);
    }
  }

  lemma StillHolding(before: seq<Cell>, after: seq<Cell>, cap: Size, id: nat, next: nat)
    requires |before| == |after| == cap && id < next <= id + cap
    requires after == before[Off(id, cap) := Vacant]
    ensures forall q: nat | id < q < id + cap :: after[Off(q, cap)] == before[Off(q, cap)]
    ensures after[Off(id + cap, cap)] == Vacant
  {
    forall q: nat | id < q < id + cap ensures after[Off(q, cap)] == before[Off(q, cap)] {
      OwnSlot(id, q, cap);
    }
    assert Off(id + cap, cap) == Off(id, cap);
  }

  lemma NowHolding(before: seq<Cell>, after: seq<Cell>, cap: Size, low: nat, next: nat)
    requires |before| == |after| == cap && low <= next < low + cap
    requires after == before[Off(next, cap) := Holding(next)]
    ensures forall q: nat | low <= q < low + cap && q != next :: after[Off(q, cap)] == before[Off(q, cap)]
  {
    forall q: nat | low <= q < low + cap && q != next ensures after[Off(q, cap)] == before[Off(q, cap)] {
      if q < next {
        OwnSlot(q, next, cap);
      } else {
        OwnSlot(next, q, cap);
      }
    }
  }

  // ------------------------------------------------------------------ whole lifetimes

  datatype Op =
    | Pushing(granted: bool, panics: bool)
    | Claiming(granted: bool, panics: bool, committed: bool)

  /** How many values a history of operations publishes. */
  function Published(cap: Size, ops: seq<Op>): (n: nat)
  {
    Live(cap, ops).0
  }

  /** The write cursor and the watermark after a history of operations. */
  function Live(cap: Size, ops: seq<Op>): (s: (nat, nat))
    ensures s.1 <= s.0 <= s.1 + cap
  {
    if ops == [] then (0, 0)
    else
      var s := Live(cap, ops[..|ops| - 1]);
      var op := ops[|ops| - 1];
      if !op.granted then s
      else
        var full := s.1 + cap == s.0;
        var mark := if full then s.1 + 1 else s.1;
        if (op.panics && full) || (op.Claiming? && !op.committed) then (s.0, mark) else (s.0 + 1, mark)
  }

  /** Over any history of pushes, refusals, claims, commits, abandoned claims and panicking drops, ended
      by a teardown: each published value has its drop begun exactly once, in order, and nothing else is
      ever dropped. */
  method Lifetime(cap: Size, ops: seq<Op>) returns (published: nat, dropped: seq<nat>)
    ensures published == Published(cap, ops)
    ensures dropped == Upto(published)
  {
    var ring := new DroppingRing(cap);
    for i := 0 to |ops|
      invariant ring.Valid() && !ring.claimed && fresh(ring) && fresh(ring.slots)
      invariant (ring.next, ring.droppedThrough) == Live(cap, ops[..i]) && ring.cap == cap
    {
      assert ops[..i + 1][..i] == ops[..i];
      match ops[i] {
        case Pushing(granted, panics) =>
          var ok := ring.Push(granted, panics);
        case Claiming(granted, panics, committed) =>
          ring.Claim(granted, panics);
          if ring.claimed && committed {
            ring.Commit();
          } else {
            ring.Abandon();
          }
      }
    }
    assert ops[..|ops|] == ops;
    published := ring.next;
    ring.Teardown(published);
    dropped := ring.drops;
  }
}
