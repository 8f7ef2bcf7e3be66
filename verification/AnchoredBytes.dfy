/** The anchored byte ring: the gate and the three-counter byte ring over one buffer. Anchors read in
    place without validating anything; observers run the lossy protocol unchanged. */
module AnchoredBytes {
  import opened Framing
  import G = Gate
  import B = BytesRing

  /** An anchor's progress: the frame index of its join point, of its cached tail, what it has been given,
      and the decode in progress (`first` and `seen` are history variables). */
  datatype Hand = Hand(first: nat, seen: nat, got: seq<seq<Byte>>, pc: B.ReadPc)

  datatype Anchored = Anchored(gate: G.Gate, sys: B.System, hands: seq<Hand>)

  datatype Action =
    | DoTry(msg: seq<Byte>) | DoScan | DoAbandon | DoDeclare(msg: seq<Byte>) | DoProduce
    | DoClose | DoCrash | DoAttach
    | DoTable(a: G.Action)              // claims, joins, refreshes, flushes, departures, retirements
    | DoObserve(b: B.Action)            // everything observers do
    | DoBegin(i: nat) | DoDecode(i: nat) | DoForget(i: nat)

  const NEWCOMER := Hand(0, 0, [], B.ReadPc.Idle)

  predicate TableAction(a: G.Action) {
    a.DoClaim? || a.DoJoin? || a.DoRefresh? || a.DoFlush? || a.DoLeave? || a.DoFree? || a.DoRetire?
  }

  predicate ObserverAction(b: B.Action) { b.DoSubscribe? || b.DoPop? || b.DoSkip? || b.DoRead? }

  // ------------------------------------------------------------------ the producer

  /** The bytes a push needs free: wrap padding and record. */
  function Needed(next: nat, msg: seq<Byte>, cap: Size): nat { PadFor(next, |msg|, cap) + RecordLen(|msg|) }

  function Try(s: Anchored, msg: seq<Byte>): Anchored {
    var p := s.sys.ring.prod;
    if p.Ready? && |msg| <= MaxMessageLen(s.sys.ring.cap) then
      s.(gate := G.Try(s.gate, Needed(p.next, msg, s.sys.ring.cap)))
    else s
  }

  /** Strictly after the gate: a message of the granted span is declared. */
  function Declare(s: Anchored, msg: seq<Byte>): Anchored {
    var p := s.sys.ring.prod;
    if p.Ready? && |msg| <= MaxMessageLen(s.sys.ring.cap)
       && s.gate.prod.Up? && s.gate.prod.pc == G.Granted(Needed(p.next, msg, s.sys.ring.cap)) then
      s.(gate := G.BeginWrite(s.gate), sys := s.sys.(ring := B.Declare(s.sys.ring, msg)))
    else s
  }

  /** The tail store is the publish of both halves: they share the word. */
  function Produce(s: Anchored): Anchored {
    var p := s.sys.ring.prod;
    s.(gate := if p.Writing? && p.stage.TailDue? then G.Publish(s.gate) else s.gate,
       sys := s.sys.(ring := B.Produce(s.sys.ring)))
  }

  function Close(s: Anchored): Anchored {
    if s.sys.ring.prod.Ready? && s.gate.prod.Up? && s.gate.prod.pc.Idle? then
      s.(gate := G.CrashProducer(s.gate), sys := s.sys.(ring := B.Close(s.sys.ring)))
    else s
  }

  function Crash(s: Anchored): Anchored {
    s.(gate := G.CrashProducer(s.gate), sys := s.sys.(ring := B.Crash(s.sys.ring)))
  }

  function Attach(s: Anchored): Anchored {
    s.(gate := if s.sys.ring.prod.Healed? then G.AttachProducer(s.gate) else s.gate,
       sys := s.sys.(ring := B.Attach(s.sys.ring)))
  }

  // ------------------------------------------------------------------ anchors

  predicate Holds(s: Anchored, i: nat) {
    i < |s.gate.slots| && i < |s.hands| && s.gate.slots[i].who.Live?
  }

  /** History: what a table action means for the slot's hand. */
  function HandAfter(h: Hand, who: G.Holder, a: G.Action, frames: nat): Hand {
    match a
    case DoClaim(_) => if who.Nobody? then NEWCOMER else h
    case DoJoin(_) => if who.StoredProvisional? then h.(first := frames, seen := frames) else h
    case DoRefresh(_) => if who.Live? then h.(seen := frames) else h
    case _ => h
  }

  function Table(s: Anchored, a: G.Action): Anchored {
    if TableAction(a) then
      s.(gate := G.Apply(s.gate, a),
         hands := if a.i < |s.hands| && a.i < |s.gate.slots| && !(a.DoClaim? && !s.gate.slots[a.i].state.Free?) then
                    s.hands[a.i := HandAfter(s.hands[a.i], s.gate.slots[a.i].who, a, |s.sys.ring.frames|)]
                  else s.hands)
    else s
  }

  function Begin(s: Anchored, i: nat): Anchored {
    if Holds(s, i) && s.hands[i].pc.Idle? && s.gate.slots[i].who.rd < s.gate.slots[i].who.cache then
      s.(hands := s.hands[i := s.hands[i].(pc := B.LengthDue(s.gate.slots[i].who.rd))])
    else s
  }

  /** One plain load: the header, past padding the header behind it, then the payload lane by lane. */
  function LoadStep(r: B.Ring, h: Hand): Hand
    requires !Copied(h.pc)
  {
    match h.pc
    case LengthDue(c) => h.(pc := AfterHeader(r.cap, c, B.Load(r.buf, Off(c, r.cap) / LANE)))
    case CopyDue(c, len, out) =>
      h.(pc := B.CopyDue(c, len, Extend(out, len, B.Load(r.buf, (Off(c, r.cap) + HEADER + |out|) / LANE))))
    case _ => h
  }

  /** The header is trusted as it is: no bounds check, no validation. */
  function AfterHeader(cap: Size, c: nat, v: nat): B.ReadPc {
    if v == PADDING then B.LengthDue(c + (cap - Off(c, cap))) else B.CopyDue(c, v, [])
  }

  predicate Copied(pc: B.ReadPc) { pc.CopyDue? && |pc.out| >= pc.len }

  /** The record is handed over and the cursor moves past it. */
  function HandedOver(h: Hand): Hand
    requires h.pc.CopyDue?
  {
    h.(got := h.got + [h.pc.out], pc := B.ReadPc.Idle)
  }

  function RecordEnd(pc: B.ReadPc): nat
    requires pc.CopyDue?
  {
    pc.cursor + RecordLen(pc.len)
  }

  /** The read cursor moves up to `to`. */
  function Advance(s: Anchored, i: nat, to: nat, h: Hand): Anchored
    requires Holds(s, i)
  {
    var rd := s.gate.slots[i].who.rd;
    s.(gate := G.Apply(s.gate, G.DoRead(i, if rd <= to then to - rd else 0)), hands := s.hands[i := h])
  }

  function Decode(s: Anchored, i: nat): Anchored {
    if !Holds(s, i) then s
    else
      var h := s.hands[i];
      if Copied(h.pc) then Advance(s, i, RecordEnd(h.pc), HandedOver(h))
      else
        s.(hands := s.hands[i := LoadStep(s.sys.ring, h)])
  }

  /** A forgotten view is not consumed: only skipped padding stays behind the cursor. */
  function Forget(s: Anchored, i: nat): Anchored {
    if Holds(s, i) && s.hands[i].pc.CopyDue? then
      Advance(s, i, s.hands[i].pc.cursor, s.hands[i].(pc := B.ReadPc.Idle))
    else s
  }

  // ------------------------------------------------------------------ runs

  function Apply(s: Anchored, a: Action): Anchored {
    match a
    case DoTry(msg) => Try(s, msg)
    case DoScan => s.(gate := G.Scan(s.gate))
    case DoAbandon => s.(gate := G.Abandon(s.gate))
    case DoDeclare(msg) => Declare(s, msg)
    case DoProduce => Produce(s)
    case DoClose => Close(s)
    case DoCrash => Crash(s)
    case DoAttach => Attach(s)
    case DoTable(b) => Table(s, b)
    case DoObserve(b) => if ObserverAction(b) then s.(sys := B.Apply(s.sys, b)) else s
    case DoBegin(i) => Begin(s, i)
    case DoDecode(i) => Decode(s, i)
    case DoForget(i) => Forget(s, i)
  }

  function Run(s: Anchored, actions: seq<Action>): Anchored {
    if actions == [] then s else Apply(Run(s, actions[..|actions| - 1]), actions[|actions| - 1])
  }

  function Start(cap: Size, n: nat): Anchored {
    Anchored(G.Start(cap, n), B.Start(cap), seq(n, _ => NEWCOMER))
  }
}
