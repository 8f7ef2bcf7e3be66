/** The gated rings' contents over the gate: units (elements, or the bytes of a frame) are stored into a
    shared buffer one at a time and read back in place, with no validation whatever on the reading side. */
module GatedRing {
  import opened Framing
  import G = Gate
  import P = GateProof
  import T = GateTheorems

  /** `sent` is everything published so far, `got[i]` what slot i's holder has read since it joined. */
  datatype Ring = Ring(gate: G.Gate, buf: seq<int>, sent: seq<int>, pending: seq<int>, done: nat, got: seq<seq<int>>)

  datatype Action =
    | DoGate(a: G.Action)
    | DoBegin(data: seq<int>)
    | DoStore
    | DoPublish
    | DoRead(i: nat)

  predicate Busy(r: Ring) { r.gate.prod.Up? && r.gate.prod.pc.Writing? }

  predicate Ready(r: Ring, i: nat) {
    i < |r.gate.slots| && i < |r.got| && r.gate.slots[i].who.Live? && r.gate.slots[i].who.rd < r.gate.slots[i].who.cache
  }

  function Load(buf: seq<int>, i: nat): int { if i < |buf| then buf[i] else 0 }

  function Apply(r: Ring, a: Action): Ring {
    match a
    case DoGate(b) =>
      if b.DoBeginWrite? || b.DoPublish? || b.DoRead? then r
      else
        var gate := G.Apply(r.gate, b);
        r.(gate := gate,
           got := if b.DoClaim? && b.i < |r.got| && gate != r.gate then r.got[b.i := []] else r.got)
    case DoBegin(data) =>
      if r.gate.prod.Up? && r.gate.prod.pc.Granted? && r.gate.prod.pc.needed == |data| then
        r.(gate := G.BeginWrite(r.gate), pending := data, done := 0)
      else r
    case DoStore =>
      if Busy(r) && r.done < |r.pending| && Off(r.gate.prod.next + r.done, r.gate.cap) < |r.buf| then
        r.(buf := r.buf[Off(r.gate.prod.next + r.done, r.gate.cap) := r.pending[r.done]], done := r.done + 1)
      else r
    case DoPublish =>
      if Busy(r) && r.done == |r.pending| then
        r.(gate := G.Publish(r.gate), sent := r.sent + r.pending, pending := [], done := 0)
      else r
    case DoRead(i) =>
      if Ready(r, i) then
        var rd := r.gate.slots[i].who.rd;
        r.(gate := G.Apply(r.gate, G.DoRead(i, 1)),
           got := r.got[i := r.got[i] + [Load(r.buf, Off(rd, r.gate.cap))]])
      else r
  }

  function Run(r: Ring, actions: seq<Action>): Ring {
    if actions == [] then r else Apply(Run(r, actions[..|actions| - 1]), actions[|actions| - 1])
  }

  function Start(cap: Size, n: nat): Ring {
    Ring(G.Start(cap, n), seq(cap, _ => 0), [], [], 0, seq(n, _ => []))
  }

  // ------------------------------------------------------------------ invariant

  /** Everything published that no write has been begun over is still in place. */
  predicate Held(r: Ring) {
    && |r.buf| == r.gate.cap && |r.sent| == r.gate.tail
    && forall p: nat | p < |r.sent| && r.gate.hi <= p + r.gate.cap :: r.buf[Off(p, r.gate.cap)] == r.sent[p]
  }

  predicate WriteOk(r: Ring)
    requires |r.buf| == r.gate.cap
  {
    Busy(r) ==>
      && |r.pending| == r.gate.prod.pc.needed && r.done <= |r.pending|
      && forall k: nat | k < r.done :: r.buf[Off(r.gate.prod.next + k, r.gate.cap)] == r.pending[k]
  }

  predicate GotOk(r: Ring, i: nat)
    requires i < |r.gate.slots| && i < |r.got|
  {
    var s := r.gate.slots[i];
    && (s.state.Active? && s.who.Live? ==>
          s.who.join <= s.who.rd <= |r.sent| && r.got[i] == r.sent[s.who.join..s.who.rd])
    && (s.state.Active? && !s.who.Live? && !s.who.Leaving? ==> r.got[i] == [])
  }

  predicate RingInv(r: Ring) {
    && P.GateInv(r.gate) && Held(r) && WriteOk(r) && |r.got| == |r.gate.slots|
    && forall i: nat | i < |r.gate.slots| :: GotOk(r, i)
  }

  // ------------------------------------------------------------------ steps

  lemma GateStepHeld(r: Ring, b: G.Action)
    requires P.GateInv(r.gate) && Held(r) && WriteOk(r) && !b.DoBeginWrite? && !b.DoPublish?
    ensures var r' := r.(gate := G.Apply(r.gate, b)); Held(r') && WriteOk(r')
    ensures G.Apply(r.gate, b).tail == r.gate.tail && |G.Apply(r.gate, b).slots| == |r.gate.slots|
  {
  }

  lemma GateStepGot(r: Ring, b: G.Action, i: nat)
    requires RingInv(r) && i < |r.gate.slots| && !b.DoBeginWrite? && !b.DoPublish? && !b.DoRead?
    ensures var r' := Apply(r, DoGate(b)); |r'.got| == |r.got| && |r'.gate.slots| == |r.gate.slots| && GotOk(r', i)
  {
    assert GotOk(r, i) && P.SlotOk(r.gate, i);
    if b.DoClaim? && b.i == i && r.gate.slots[i].state.Free? {
      assert G.Apply(r.gate, b).issued != r.gate.issued;
    }
  }

  /** One store, at a position no published unit in place shares a cell with. */
  lemma StoreHeld(r: Ring, r': Ring, q: nat)
    requires Held(r) && WriteOk(r) && Busy(r) && r.done < |r.pending| && r.gate.prod.next == r.gate.tail
    requires q == r.gate.prod.next + r.done && q < r.gate.hi && q < r.gate.tail + r.gate.cap
    requires r' == r.(buf := r.buf[Off(q, r.gate.cap) := r.pending[r.done]], done := r.done + 1)
    ensures Held(r') && WriteOk(r')
  {
    var cap := r.gate.cap;
    forall p: nat | p < |r.sent| && r.gate.hi <= p + cap ensures r'.buf[Off(p, cap)] == r.sent[p] {
      if Off(p, cap) == Off(q, cap) {
        OffSame(p, q, cap);
      }
    }
    forall k: nat | k < r'.done ensures r'.buf[Off(r.gate.prod.next + k, cap)] == r.pending[k] {
      if k < r.done && Off(r.gate.prod.next + k, cap) == Off(q, cap) {
        OffSame(r.gate.prod.next + k, q, cap);
      }
    }
  }

  lemma StoreKeeps(r: Ring)
    requires RingInv(r) && Busy(r) && r.done < |r.pending|
    ensures RingInv(Apply(r, DoStore))
  {
    var r' := Apply(r, DoStore);
    StoreHeld(r, r', r.gate.prod.next + r.done);
    forall i: nat | i < |r'.gate.slots| ensures GotOk(r', i) {
      assert GotOk(r, i);
    }
  }

  lemma BeginKeeps(r: Ring, data: seq<int>)
    requires RingInv(r)
    ensures RingInv(Apply(r, DoBegin(data)))
  {
    var r' := Apply(r, DoBegin(data));
    if r' != r {
      P.ApplyKeeps(r.gate, G.DoBeginWrite);
      forall i: nat | i < |r'.gate.slots| ensures GotOk(r', i) {
        assert GotOk(r, i);
      }
    }
  }

  lemma PublishKeeps(r: Ring)
    requires RingInv(r)
    ensures RingInv(Apply(r, DoPublish))
  {
    if Busy(r) && r.done == |r.pending| {
      P.ApplyKeeps(r.gate, G.DoPublish);
      var r' := Apply(r, DoPublish);
      PublishHeld(r, r');
      forall i: nat | i < |r'.gate.slots| ensures GotOk(r', i) {
        assert GotOk(r, i);
        var who := r.gate.slots[i].who;
        if r.gate.slots[i].state.Active? && who.Live? {
          assert r'.sent[who.join..who.rd] == r.sent[who.join..who.rd];
        }
      }
    }
  }

  lemma PublishHeld(r: Ring, r': Ring)
    requires P.ProducerOk(r.gate) && Held(r) && WriteOk(r) && Busy(r) && r.done == |r.pending|
    requires r' == Apply(r, DoPublish)
    ensures Held(r')
  {
    forall p: nat | p < |r'.sent| && r'.gate.hi <= p + r'.gate.cap
      ensures r'.buf[Off(p, r'.gate.cap)] == r'.sent[p]
    {
      if p >= |r.sent| {
        var k := p - |r.sent|;
        assert r.buf[Off(r.gate.prod.next + k, r.gate.cap)] == r.pending[k];
      }
    }
  }

  lemma ReadGot(r: Ring, i: nat)
    requires P.GateInv(r.gate) && Held(r) && Ready(r, i) && GotOk(r, i)
    ensures GotOk(Apply(r, DoRead(i)), i)
  {
    assert P.SlotOk(r.gate, i);
    if r.gate.slots[i].state.Active? {
      var who := r.gate.slots[i].who;
      assert P.Protected(r.gate.slots[i]);
      assert r.buf[Off(who.rd, r.gate.cap)] == r.sent[who.rd];
      assert r.sent[who.join..who.rd + 1] == r.sent[who.join..who.rd] + [r.sent[who.rd]];
    }
  }

  lemma ReadKeeps(r: Ring, i: nat)
    requires RingInv(r) && Ready(r, i)
    ensures RingInv(Apply(r, DoRead(i)))
  {
    var r' := Apply(r, DoRead(i));
    P.ApplyKeeps(r.gate, G.DoRead(i, 1));
    GateStepHeld(r, G.DoRead(i, 1));
    forall k: nat | k < |r'.gate.slots| ensures GotOk(r', k) {
      assert GotOk(r, k);
      if k == i {
        ReadGot(r, i);
      }
    }
  }

  lemma GateKeeps(r: Ring, b: G.Action)
    requires RingInv(r)
    ensures RingInv(Apply(r, DoGate(b)))
  {
    if !(b.DoBeginWrite? || b.DoPublish? || b.DoRead?) {
      var r' := Apply(r, DoGate(b));
      P.ApplyKeeps(r.gate, b);
      GateStepHeld(r, b);
      forall i: nat | i < |r'.gate.slots| ensures |r'.got| == |r'.gate.slots| && GotOk(r', i) {
        GateStepGot(r, b, i);
      }
      assert |r'.got| == |r.got|;
    }
  }

  lemma ApplyKeeps(r: Ring, a: Action)
    requires RingInv(r)
    ensures RingInv(Apply(r, a))
  {
    match a
    case DoGate(b) => GateKeeps(r, b);
    case DoBegin(data) => BeginKeeps(r, data);
    case DoStore =>
      if Busy(r) && r.done < |r.pending| {
        StoreKeeps(r);
      }
    case DoPublish => PublishKeeps(r);
    case DoRead(i) =>
      if Ready(r, i) {
        ReadKeeps(r, i);
      }
  }

  lemma StartOk(cap: Size, n: nat)
    ensures RingInv(Start(cap, n))
  {
    P.StartOk(cap, n);
  }

  lemma {:induction false} RunKeeps(r: Ring, actions: seq<Action>)
    requires RingInv(r)
    ensures RingInv(Run(r, actions))
  {
    if actions != [] {
      var m := |actions| - 1;
      RunKeeps(r, actions[..m]);
      ApplyKeeps(Run(r, actions[..m]), actions[m]);
    }
  }

  /** Every message, in order, exactly once: what a gating consumer has read is precisely what was
      published from its join point up to its read cursor, in every interleaving. */
  lemma EveryConsumerReadsEverything(cap: Size, n: nat, actions: seq<Action>, i: nat)
    requires T.Joined(Run(Start(cap, n), actions).gate, i)
    ensures var r := Run(Start(cap, n), actions); var c := r.gate.slots[i].who;
      && i < |r.got| && c.join <= c.rd <= |r.sent| == r.gate.tail
      && r.got[i] == r.sent[c.join..c.rd]
  {
    StartOk(cap, n);
    RunKeeps(Start(cap, n), actions);
    var r := Run(Start(cap, n), actions);
    assert GotOk(r, i);
  }
}
