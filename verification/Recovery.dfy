/** Recovering a gated ring after its participants died: the consumer table is reset, and delivery
    resumes, at least once, from the slowest cursor still plausible. */
module Recovery {
  import opened Framing
  import G = Gate
  import P = GateProof
  import R = GatedRing
  import T = GateTheorems

  // ------------------------------------------------------------------ the resume point

  /** A slot's claim on the resume point: not free, with a cursor at most one capacity behind. */
  predicate Plausible(s: G.Slot, tail: nat, cap: Size) {
    !s.state.Free? && s.cursor.At? && s.cursor.v <= tail <= s.cursor.v + cap
  }

  /** The largest plausible lag among the first `n` slots. */
  function MaxLag(slots: seq<G.Slot>, n: nat, tail: nat, cap: Size): (lag: nat)
    requires n <= |slots|
    ensures lag <= tail && lag <= cap
  {
    if n == 0 then 0
    else
      var lag := MaxLag(slots, n - 1, tail, cap);
      var s := slots[n - 1];
      if Plausible(s, tail, cap) && tail - s.cursor.v > lag then tail - s.cursor.v else lag
  }

  function Resume(slots: seq<G.Slot>, tail: nat, cap: Size): nat { tail - MaxLag(slots, |slots|, tail, cap) }

  lemma {:induction false} LagCovers(slots: seq<G.Slot>, n: nat, tail: nat, cap: Size, i: nat)
    requires i < n <= |slots| && Plausible(slots[i], tail, cap)
    ensures tail - slots[i].cursor.v <= MaxLag(slots, n, tail, cap)
  {
    if i < n - 1 {
      LagCovers(slots, n - 1, tail, cap, i);
    }
  }

  lemma {:induction false} LagIsSomeones(slots: seq<G.Slot>, n: nat, tail: nat, cap: Size)
    requires n <= |slots| && MaxLag(slots, n, tail, cap) > 0
    ensures exists i: nat :: i < n && Plausible(slots[i], tail, cap)
                             && tail - slots[i].cursor.v == MaxLag(slots, n, tail, cap)
  {
    var s := slots[n - 1];
    if !(Plausible(s, tail, cap) && tail - s.cursor.v > MaxLag(slots, n - 1, tail, cap)) {
      LagIsSomeones(slots, n - 1, tail, cap);
    }
  }

  /** The resume point is at or below every plausible cursor, within a capacity of the tail, and is the
      tail itself or somebody's cursor. */
  lemma ResumePoint(slots: seq<G.Slot>, tail: nat, cap: Size)
    ensures var p := Resume(slots, tail, cap);
      && p <= tail <= p + cap
      && (forall i: nat | i < |slots| && Plausible(slots[i], tail, cap) :: p <= slots[i].cursor.v)
      && (p == tail || exists i: nat :: i < |slots| && Plausible(slots[i], tail, cap) && slots[i].cursor.v == p)
  {
    forall i: nat | i < |slots| && Plausible(slots[i], tail, cap)
      ensures Resume(slots, tail, cap) <= slots[i].cursor.v
    {
      LagCovers(slots, |slots|, tail, cap, i);
    }
    if Resume(slots, tail, cap) != tail {
      LagIsSomeones(slots, |slots|, tail, cap);
    }
  }

  // ------------------------------------------------------------------ the reset

  function ResetSlot(s: G.Slot): G.Slot { G.Slot(s.epoch + 1, G.Free, G.Detached, G.Nobody) }

  function ResetSlots(slots: seq<G.Slot>): seq<G.Slot> {
    seq(|slots|, i requires 0 <= i < |slots| => ResetSlot(slots[i]))
  }

  /** The consumer table, its lease words and the region's generation. */
  class GateTable {
    const slots: array<G.Slot>
    const leases: array<nat>
    var generation: nat

    constructor (n: nat)
      ensures slots.Length == leases.Length == n && fresh(slots) && fresh(leases) && generation == 0
      ensures slots[..] == seq(n, _ => G.Slot(0, G.Free, G.Detached, G.Nobody))
    {
      slots := new G.Slot[n](_ => G.Slot(0, G.Free, G.Detached, G.Nobody));
      leases := new nat[n](_ => 0);
      generation := 0;
    }

    /** In place, between an odd and the next even generation: one pass for the resume point, which is at or
        below every plausible cursor and the tail or one of them, and one to free every slot, under its next
        epoch, with no cursor and no lease. `AttachRace` has each of its stores as a step of its own. */
    method Reset(tail: nat, cap: Size) returns (resume: nat)
      requires slots.Length == leases.Length
      modifies this, slots, leases
      ensures resume == Resume(old(slots[..]), tail, cap)
      ensures resume <= tail <= resume + cap
      ensures forall i: nat | i < slots.Length :: var s := old(slots[i]);
        !s.state.Free? && s.cursor.At? && s.cursor.v <= tail <= s.cursor.v + cap ==> resume <= s.cursor.v
      ensures resume == tail || exists i: nat :: i < slots.Length && var s := old(slots[i]);
        !s.state.Free? && s.cursor.At? && s.cursor.v == resume
      ensures slots[..] == ResetSlots(old(slots[..]))
      ensures forall i: nat | i < slots.Length ::
        slots[i].state.Free? && slots[i].cursor.Detached? && slots[i].who.Nobody?
        && slots[i].epoch == old(slots[i]).epoch + 1 && leases[i] == 0
      ensures generation % 2 == 0 && generation == old(generation) + 2 - old(generation) % 2
    {
      ResumePoint(slots[..], tail, cap);
      if generation % 2 == 0 {
        generation := generation + 1;
      }
      resume := SlowestPlausible(tail, cap);
      FreeAll();
      generation := generation + 1;
    }

    method SlowestPlausible(tail: nat, cap: Size) returns (resume: nat)
      ensures resume == Resume(slots[..], tail, cap)
    {
      var maxLag := 0;
      for i := 0 to slots.Length
        invariant maxLag == MaxLag(slots[..], i, tail, cap)
      {
        var s := slots[i];
        if s.state.Free? || s.cursor.Detached? {
          continue;
        }
        var lag := tail - s.cursor.v;
        if 0 <= lag <= cap && lag > maxLag {
          maxLag := lag;
        }
      }
      resume := tail - maxLag;
    }

    method FreeAll()
      requires slots.Length == leases.Length
      modifies slots, leases
      ensures slots[..] == ResetSlots(old(slots[..]))
      ensures forall i: nat | i < slots.Length ::
        slots[i] == G.Slot(old(slots[i]).epoch + 1, G.Free, G.Detached, G.Nobody) && leases[i] == 0
    {
      for i := 0 to slots.Length
        invariant forall k: nat | k < i :: slots[k] == ResetSlot(old(slots[k])) && leases[k] == 0
        invariant forall k: nat | i <= k < slots.Length :: slots[k] == old(slots[k])
      {
        slots[i] := slots[i].(cursor := G.Detached);
        leases[i] := 0;
        slots[i] := ResetSlot(slots[i]);
      }
    }
  }

  // ------------------------------------------------------------------ recovery

  /** Nobody is left in the middle of anything: the reset is exclusive. */
  predicate Quiet(g: G.Gate) {
    g.prod.Dead? && forall i: nat | i < |g.slots| :: !MidClaim(g.slots[i].who)
  }

  predicate MidClaim(who: G.Holder) {
    who.Claimed? || who.GotProvisional? || who.StoredProvisional? || who.GotJoin?
  }

  /** Reset, then the recoverer's own claim moved back to the resume point, then a new producer. */
  function Recovered(g: G.Gate): G.Gate
    requires g.slots != []
  {
    var p := Resume(g.slots, g.tail, g.cap);
    var slots := ResetSlots(g.slots);
    var e := slots[0].epoch + 1;
    var mine := G.Slot(e, G.Active, G.At(p), G.Live(p, p, p, p));
    G.AttachProducer(g.(slots := slots[0 := mine], prod := G.Dead, issued := g.issued + [G.Claim(0, e)]))
  }

  lemma ResetEpochs(slots: seq<G.Slot>, issued: seq<G.Claim>)
    requires P.EpochsOk(slots, issued)
    ensures P.EpochsOk(ResetSlots(slots), issued)
  {
  }

  /** A begun write at q is aimed at the cell that holds p, published and to be read again after recovery. */
  predicate Endangered(g: G.Gate, p: nat, q: nat) {
    Resume(g.slots, g.tail, g.cap) <= p < g.tail <= q < g.hi && Off(p, g.cap) == Off(q, g.cap)
  }

  /** The comparison a recoverer could make says exactly whether any cell it would read is endangered. */
  lemma ReachIsDanger(g: G.Gate)
    requires g.tail <= g.hi <= g.tail + g.cap
    ensures g.hi <= Resume(g.slots, g.tail, g.cap) + g.cap <==> !exists p: nat, q: nat :: Endangered(g, p, q)
  {
    var resume := Resume(g.slots, g.tail, g.cap);
    ResumePoint(g.slots, g.tail, g.cap);
    if g.hi > resume + g.cap {
      assert Endangered(g, resume, resume + g.cap);
    } else {
      forall p: nat, q: nat ensures !Endangered(g, p, q) {
        if Endangered(g, p, q) {
          OffSame(p, q, g.cap);
        }
      }
    }
  }

  /** Recovery re-establishes every guarantee of the gate exactly when no cell still to be read is the
      target of a begun write. */
  lemma RecoveryIsSafe(g: G.Gate)
    requires P.GateInv(g) && Quiet(g) && g.slots != []
    ensures P.GateInv(Recovered(g)) <==> g.hi <= Resume(g.slots, g.tail, g.cap) + g.cap
    ensures P.GateInv(Recovered(g)) <==> !exists p: nat, q: nat :: Endangered(g, p, q)
    ensures P.EpochsOk(Recovered(g).slots, Recovered(g).issued)
  {
    var h := Recovered(g);
    ReachIsDanger(g);
    ResumePoint(g.slots, g.tail, g.cap);
    ResetEpochs(g.slots, g.issued);
    P.ClaimEpochs(ResetSlots(g.slots), g.issued, 0, h.slots[0]);
    if P.GateInv(h) {
      assert P.SlotOk(h, 0) && P.Protected(h.slots[0]);
    }
    if g.hi <= Resume(g.slots, g.tail, g.cap) + g.cap {
      forall i: nat | i < |h.slots| ensures P.SlotOk(h, i) {
      }
    }
  }

  /** Which is to say, exactly when no retired slot's leftover cursor lies too far behind: cursors of
      active slots never do. */
  lemma OnlyRetiredCursorsEndanger(g: G.Gate)
    requires P.GateInv(g) && Quiet(g)
    ensures g.hi <= Resume(g.slots, g.tail, g.cap) + g.cap <==>
      forall i: nat | i < |g.slots| && g.slots[i].state.Retired? && Plausible(g.slots[i], g.tail, g.cap) ::
        g.hi <= g.slots[i].cursor.v + g.cap
  {
    ResumePoint(g.slots, g.tail, g.cap);
    forall i: nat | i < |g.slots| && g.slots[i].state.Active? && Plausible(g.slots[i], g.tail, g.cap)
      ensures g.hi <= g.slots[i].cursor.v + g.cap
    {
      assert P.SlotOk(g, i) && P.Protected(g.slots[i]);
    }
  }

  /** After a safe recovery the recoverer reads, from the resume point on, exactly what was published:
      nothing a surviving cursor had not passed is lost. */
  lemma RecoveredReadsEverything(r: R.Ring, more: seq<R.Action>)
    requires R.RingInv(r) && Quiet(r.gate) && r.gate.slots != []
    requires r.gate.hi <= Resume(r.gate.slots, r.gate.tail, r.gate.cap) + r.gate.cap
    ensures var r' := R.Run(RecoveredRing(r), more);
      forall i: nat | T.Joined(r'.gate, i) ::
        var c := r'.gate.slots[i].who;
        i < |r'.got| && c.join <= c.rd <= |r'.sent| && r'.got[i] == r'.sent[c.join..c.rd]
    ensures var c := Recovered(r.gate).slots[0].who;
      c.Live? && c.join == c.rd == Resume(r.gate.slots, r.gate.tail, r.gate.cap)
  {
    var r' := RecoveredRing(r);
    RecoveryIsSafe(r.gate);
    ResumePoint(r.gate.slots, r.gate.tail, r.gate.cap);
    forall i: nat | i < |r'.gate.slots| ensures R.GotOk(r', i) {
    }
    R.RunKeeps(r', more);
    var r2 := R.Run(r', more);
    forall i: nat | T.Joined(r2.gate, i)
      ensures var c := r2.gate.slots[i].who;
        i < |r2.got| && c.join <= c.rd <= |r2.sent| && r2.got[i] == r2.sent[c.join..c.rd]
    {
      assert R.GotOk(r2, i);
    }
  }

  function RecoveredRing(r: R.Ring): R.Ring
    requires r.gate.slots != []
  {
    r.(gate := Recovered(r.gate), pending := [], done := 0,
       got := seq(|r.gate.slots|, _ => []))
  }

  // ------------------------------------------------------------------ a recovery that is not safe

  ghost predicate Reachable(r: R.Ring) { exists actions: seq<R.Action> :: R.Run(R.Start(2, 1), actions) == r }

  lemma Reach(r: R.Ring, a: R.Action)
    requires Reachable(r)
    ensures Reachable(R.Apply(r, a))
  {
    var actions: seq<R.Action> :| R.Run(R.Start(2, 1), actions) == r;
    assert (actions + [a])[..|actions|] == actions;
    assert R.Run(R.Start(2, 1), actions + [a]) == R.Apply(r, a);
  }

  /** Between stores, with nothing read yet. */
  function Still(g: G.Gate, buf: seq<int>, sent: seq<int>): R.Ring { R.Ring(g, buf, sent, [], 0, [[]]) }

  function Cache(c: int): seq<int> { [c] + seq(G.CHUNK_SLOTS - 1, _ => -2) }

  function Two(tail: nat, s: G.Slot, prod: G.Producer): G.Gate {
    G.Gate(2, tail, tail, [s], prod, if s.epoch == 0 then [] else [G.Claim(0, 1)])
  }

  function Vacant(): G.Slot { G.Slot(0, G.Free, G.Detached, G.Nobody) }

  function Reader(state: G.State): G.Slot {
    G.Slot(if state.Active? then 1 else 2, state, G.At(1), G.Live(1, 1, 1, 1))
  }

  /** A step of the gate that stores nothing and reads nothing. */
  lemma Moves(g: G.Gate, buf: seq<int>, sent: seq<int>, b: G.Action, g': G.Gate)
    requires Reachable(Still(g, buf, sent)) && g' == G.Apply(g, b)
    requires !b.DoBeginWrite? && !b.DoPublish? && !b.DoRead?
    ensures Reachable(Still(g', buf, sent))
  {
    Reach(Still(g, buf, sent), R.DoGate(b));
    var none: seq<seq<int>> := [[]];
    assert none[0 := []] == none;
    assert R.Apply(Still(g, buf, sent), R.DoGate(b)) == Still(g', buf, sent);
  }

  /** A step that changes slot 0 alone. */
  lemma SlotZero(tail: nat, s: G.Slot, p: G.Producer, buf: seq<int>, sent: seq<int>, a: G.Action, s': G.Slot)
    requires Reachable(Still(Two(tail, s, p), buf, sent)) && !a.DoRead?
    requires if a.DoClaim? then
        a.i == 0 && s.epoch == 0 && s.state.Free? && s' == s.(epoch := 1, state := G.Active, who := G.Claimed)
      else
        G.OnSlot(a) && a.i == 0 && s.epoch > 0 && s'.epoch > 0 && s' == G.SlotStep(tail, s, a)
    ensures Reachable(Still(Two(tail, s', p), buf, sent))
  {
    assert [s][0 := s'] == [s'];
    Moves(Two(tail, s, p), buf, sent, a, Two(tail, s', p));
  }

  /** One unit is begun and stored where it belongs. */
  lemma Stored(g: G.Gate, buf: seq<int>, sent: seq<int>, x: int)
    requires Reachable(Still(g, buf, sent)) && g.cap == |buf| == 2
    requires g.prod.Up? && g.prod.pc == G.Granted(1) && g.hi == g.tail == g.prod.next
    ensures Reachable(R.Ring(g.(hi := g.tail + 1, prod := g.prod.(pc := G.Writing(1))),
                             buf[Off(g.tail, 2) := x], sent, [x], 1, [[]]))
  {
    var r := Still(g, buf, sent);
    Reach(r, R.DoBegin([x]));
    Reach(R.Apply(r, R.DoBegin([x])), R.DoStore);
  }

  lemma Pushed(tail: nat, s: G.Slot, min: int, cached: seq<int>, buf: seq<int>, sent: seq<int>, x: int)
    requires Reachable(Still(Two(tail, s, G.Up(tail, min, cached, G.Granted(1))), buf, sent)) && |buf| == 2
    ensures Reachable(Still(Two(tail + 1, s, G.Up(tail + 1, min, cached, G.Idle)), buf[Off(tail, 2) := x], sent + [x]))
  {
    var g := Two(tail, s, G.Up(tail, min, cached, G.Granted(1)));
    Stored(g, buf, sent, x);
    var g1 := g.(hi := tail + 1, prod := g.prod.(pc := G.Writing(1)));
    var r := R.Ring(g1, buf[Off(tail, 2) := x], sent, [x], 1, [[]]);
    Reach(r, R.DoPublish);
    assert R.Apply(r, R.DoPublish)
        == Still(Two(tail + 1, s, G.Up(tail + 1, min, cached, G.Idle)), buf[Off(tail, 2) := x], sent + [x]);
  }

  /** The attaching scan finds nobody... */
  lemma FirstScan()
    ensures Reachable(Still(Two(0, Vacant(), G.Up(0, -1, Cache(-2), G.Granted(1))), [0, 0], []))
  {
    var g0 := Two(0, Vacant(), G.Up(0, -2, [], G.ScanDue(1, 0, false, 0)));
    assert R.Start(2, 1) == Still(g0, [0, 0], []);
    assert R.Run(R.Start(2, 1), []) == R.Start(2, 1);
    var g1 := Two(0, Vacant(), G.Up(0, -2, Cache(-2), G.ScanDue(1, 1, false, 0)));
    assert G.Grown([], 0, -2) == Cache(-2);
    Moves(g0, [0, 0], [], G.DoScan, g1);
    Moves(g1, [0, 0], [], G.DoScan, Two(0, Vacant(), G.Up(0, -1, Cache(-2), G.Granted(1))));
  }

  /** A consumer claims the slot and joins at the tail. */
  lemma ClaimsZero(tail: nat, p: G.Producer, buf: seq<int>, sent: seq<int>)
    requires Reachable(Still(Two(tail, Vacant(), p), buf, sent))
    ensures Reachable(Still(Two(tail, G.Slot(1, G.Active, G.Detached, G.GotProvisional(tail)), p), buf, sent))
  {
    var s0 := G.Slot(1, G.Active, G.Detached, G.Claimed);
    SlotZero(tail, Vacant(), p, buf, sent, G.DoClaim(0), s0);
    SlotZero(tail, s0, p, buf, sent, G.DoJoin(0), s0.(who := G.GotProvisional(tail)));
  }

  lemma JoinsZero(tail: nat, p: G.Producer, buf: seq<int>, sent: seq<int>)
    requires Reachable(Still(Two(tail, G.Slot(1, G.Active, G.Detached, G.GotProvisional(tail)), p), buf, sent))
    ensures Reachable(Still(Two(tail, G.Slot(1, G.Active, G.At(tail), G.Live(tail, tail, tail, tail)), p), buf, sent))
  {
    var s1 := G.Slot(1, G.Active, G.Detached, G.GotProvisional(tail));
    var s2 := G.Slot(1, G.Active, G.At(tail), G.StoredProvisional);
    var s3 := s2.(who := G.GotJoin(tail));
    SlotZero(tail, s1, p, buf, sent, G.DoJoin(0), s2);
    SlotZero(tail, s2, p, buf, sent, G.DoJoin(0), s3);
    SlotZero(tail, s3, p, buf, sent, G.DoJoin(0), s2.(who := G.Live(tail, tail, tail, tail)));
  }

  /** ...7 goes by unheard, then a consumer joins at 1. */
  lemma ThenJoins()
    ensures Reachable(Still(Two(1, Reader(G.Active), G.Up(1, -1, Cache(-2), G.Idle)), [7, 0], [7]))
  {
    FirstScan();
    Pushed(0, Vacant(), -1, Cache(-2), [0, 0], [], 7);
    assert [0, 0][0 := 7] == [7, 0] && [] + [7] == [7];
    ClaimsZero(1, G.Up(1, -1, Cache(-2), G.Idle), [7, 0], [7]);
    JoinsZero(1, G.Up(1, -1, Cache(-2), G.Idle), [7, 0], [7]);
  }

  /** A scan that re-loads the reader's cursor. */
  lemma ScansReader()
    requires Reachable(Still(Two(1, Reader(G.Active), G.Up(1, -1, Cache(-2), G.Idle)), [7, 0], [7]))
    ensures Reachable(Still(Two(1, Reader(G.Active), G.Up(1, 1, Cache(1), G.Granted(1))), [7, 0], [7]))
  {
    var s := Reader(G.Active);
    var g1 := Two(1, s, G.Up(1, -1, Cache(-2), G.Idle));
    var g2 := Two(1, s, G.Up(1, -1, Cache(-2), G.ScanDue(1, 0, false, 0)));
    var g3 := Two(1, s, G.Up(1, -1, Cache(-2), G.LoadDue(1, 0, false, 0)));
    var g4 := Two(1, s, G.Up(1, -1, Cache(1), G.ScanDue(1, 1, true, 0)));
    assert Cache(-2)[0 := 1] == Cache(1);
    Moves(g1, [7, 0], [7], G.DoTry(1), g2);
    Moves(g2, [7, 0], [7], G.DoScan, g3);
    Moves(g3, [7, 0], [7], G.DoScan, g4);
    Moves(g4, [7, 0], [7], G.DoScan, Two(1, s, G.Up(1, 1, Cache(1), G.Granted(1))));
  }

  /** 8 and 9 fill the ring behind it. */
  lemma ThenFills()
    ensures Reachable(Still(Two(3, Reader(G.Active), G.Up(3, 1, Cache(1), G.Idle)), [9, 8], [7, 8, 9]))
  {
    ThenJoins();
    ScansReader();
    var s := Reader(G.Active);
    Pushed(1, s, 1, Cache(1), [7, 0], [7], 8);
    assert [7, 0][1 := 8] == [7, 8] && [7] + [8] == [7, 8];
    var g6 := Two(2, s, G.Up(2, 1, Cache(1), G.Idle));
    Moves(g6, [7, 8], [7, 8], G.DoTry(1), Two(2, s, G.Up(2, 1, Cache(1), G.Granted(1))));
    Pushed(2, s, 1, Cache(1), [7, 8], [7, 8], 9);
    assert [7, 8][0 := 9] == [9, 8] && [7, 8] + [9] == [7, 8, 9];
  }

  /** The consumer is retired unread, and no longer gates. */
  lemma ThenGrants()
    ensures Reachable(Still(Two(3, Reader(G.Retired), G.Up(3, 2, Cache(1), G.Granted(1))), [9, 8], [7, 8, 9]))
  {
    ThenFills();
    var s := Reader(G.Retired);
    SlotZero(3, Reader(G.Active), G.Up(3, 1, Cache(1), G.Idle), [9, 8], [7, 8, 9], G.DoRetire(0, 1), s);
    var g2 := Two(3, s, G.Up(3, 1, Cache(1), G.Idle));
    var g3 := Two(3, s, G.Up(3, 1, Cache(1), G.ScanDue(1, 0, false, 0)));
    var g4 := Two(3, s, G.Up(3, 1, Cache(1), G.ScanDue(1, 1, false, 0)));
    Moves(g2, [9, 8], [7, 8, 9], G.DoTry(1), g3);
    Moves(g3, [9, 8], [7, 8, 9], G.DoScan, g4);
    Moves(g4, [9, 8], [7, 8, 9], G.DoScan, Two(3, s, G.Up(3, 2, Cache(1), G.Granted(1))));
  }

  /** 10 has been stored over 8 when the producer died. */
  function Destroyed(): R.Ring {
    R.Ring(Two(3, Reader(G.Retired), G.Dead).(hi := 4), [9, 10], [7, 8, 9], [10], 1, [[]])
  }

  lemma ThenDestroys()
    ensures Reachable(Destroyed())
  {
    ThenGrants();
    var g := Two(3, Reader(G.Retired), G.Up(3, 2, Cache(1), G.Granted(1)));
    Stored(g, [9, 8], [7, 8, 9], 10);
    assert [9, 8][1 := 10] == [9, 10];
    var r := R.Ring(g.(hi := 4, prod := g.prod.(pc := G.Writing(1))), [9, 10], [7, 8, 9], [10], 1, [[]]);
    Reach(r, R.DoGate(G.DoCrash));
    assert R.Apply(r, R.DoGate(G.DoCrash)) == Destroyed();
  }

  /** Recovered from there, the first unit delivered, at position 1, is 10; what was published there is 8. */
  lemma RetiredLeftoverIsUnsafe()
    ensures Reachable(Destroyed()) && P.GateInv(Destroyed().gate) && Quiet(Destroyed().gate)
    ensures Endangered(Destroyed().gate, 1, 3)
    ensures var r := R.Run(RecoveredRing(Destroyed()), [R.DoGate(G.DoRefresh(0)), R.DoRead(0)]);
      && T.Joined(r.gate, 0) && r.gate.slots[0].who.join == 1 && r.gate.slots[0].who.rd == 2
      && |r.got| == 1 && r.got[0] == [10] && r.sent == [7, 8, 9]
  {
    ThenDestroys();
    var g := Destroyed().gate;
    assert P.SlotOk(g, 0);
    assert MaxLag(g.slots, 0, 3, 2) == 0 && MaxLag(g.slots, 1, 3, 2) == 2;
    ReadsTen();
  }

  lemma ReadsTen()
    requires Resume(Destroyed().gate.slots, 3, 2) == 1
    ensures var r := R.Run(RecoveredRing(Destroyed()), [R.DoGate(G.DoRefresh(0)), R.DoRead(0)]);
      && T.Joined(r.gate, 0) && r.gate.slots[0].who.join == 1 && r.gate.slots[0].who.rd == 2
      && |r.got| == 1 && r.got[0] == [10] && r.sent == [7, 8, 9]
  {
    var r0 := RecoveredRing(Destroyed());
    assert r0.gate.slots == [G.Slot(4, G.Active, G.At(1), G.Live(1, 1, 1, 1))] && r0.got == [[]];
    var a, b := R.DoGate(G.DoRefresh(0)), R.DoRead(0);
    assert [a, b][..1] == [a] && [a][..0] == [];
    assert R.Run(r0, [a]) == R.Apply(r0, a);
    var r1 := R.Apply(r0, a);
    assert r1.gate.slots == [G.Slot(4, G.Active, G.At(1), G.Live(1, 1, 1, 3))];
    assert R.Run(r0, [a, b]) == R.Apply(r1, b);
  }
}
