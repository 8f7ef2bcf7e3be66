/** The lossy element ring: one seqlock per slot, payloads stored and loaded a word at a time, the tail
    published in batches, readers that are lapped instead of waited for. Every shared access is one step;
    the producer may die between any two and a successor may attach. `made` and `front` are history. */
module ElementRing {
  import opened Framing

  type Words = seq<int>

  /** `gen` is 2s + 1 while message s is being written and 2s + 2 once it is complete. */
  datatype Slot = Slot(gen: nat, data: Words)

  datatype Producer =
    | Dead
    | Opened                                                              // closed word reset
    | Ready(next: nat, batch: nat, unpub: nat)
    | Writing(next: nat, batch: nat, unpub: nat, msg: Words, done: nat)   // slot invalidated, `done` words stored
    | PublishDue(next: nat, batch: nat, closing: bool)
    | CloseDue

  /** `slack` is below the capacity: `with_slack` refuses a slack of the whole of it. `made` holds every
      message completed and not forfeited by a crash, `front` one past the highest
      sequence any write was begun for. */
  datatype Ring = Ring(
    cap: Size, slack: nat, words: nat, slots: seq<Slot>, tail: nat, closed: bool,
    prod: Producer, made: seq<Words>, front: nat)

  function NewRing(cap: Size, slack: nat, words: nat): Ring {
    Ring(cap, slack, words, seq(cap, _ => Slot(0, seq(words, _ => 0))), 0, false, Ready(0, 1, 0), [], 0)
  }

  function Min(a: nat, b: nat): nat { if a < b then a else b }

  function Max(a: nat, b: nat): nat { if a < b then b else a }

  function DefaultSlack(cap: Size): nat {
    if cap == 1 then 0 else if cap / 8 == 0 then 1 else cap / 8
  }

  /** The largest publication batch the ring allows. */
  function MaxBatch(cap: Size, slack: nat): nat { Max(Min(cap / 8, slack), 1) }

  function Clamp(x: nat, lo: nat, hi: nat): nat { if x < lo then lo else if x > hi then hi else x }

  function RepositionTarget(tail: nat, cap: Size, slack: nat): nat {
    if tail + slack < cap then 0 else tail + slack - cap
  }

  function SlotAt(slots: seq<Slot>, i: nat): Slot { if i < |slots| then slots[i] else Slot(0, []) }

  function SetSlot(slots: seq<Slot>, i: nat, s: Slot): seq<Slot> { if i < |slots| then slots[i := s] else slots }

  // ------------------------------------------------------------------ producer

  /** A push begins by invalidating the slot. */
  function Push(r: Ring, msg: Words): Ring {
    if r.prod.Ready? && |msg| == r.words then
      var p := r.prod;
      var i := Off(p.next, r.cap);
      r.(slots := SetSlot(r.slots, i, SlotAt(r.slots, i).(gen := 2 * p.next + 1)),
         prod := Writing(p.next, p.batch, p.unpub, msg, 0), front := Max(r.front, p.next + 1))
    else r
  }

  /** The next store of a push, a publication or a close in progress. */
  function Produce(r: Ring): Ring {
    match r.prod
    case Writing(next, batch, unpub, msg, done) =>
      var i := Off(next, r.cap);
      var s := SlotAt(r.slots, i);
      if done < |msg| then
        if done < |s.data| then
          r.(slots := SetSlot(r.slots, i, s.(data := s.data[done := msg[done]])), prod := r.prod.(done := done + 1))
        else r
      else
        r.(slots := SetSlot(r.slots, i, s.(gen := 2 * next + 2)), made := r.made + [msg],
           prod := if unpub + 1 >= batch then PublishDue(next + 1, batch, false) else Ready(next + 1, batch, unpub + 1))
    case PublishDue(next, batch, closing) =>
      r.(tail := next, prod := if closing then CloseDue else Ready(next, batch, 0))
    case CloseDue => r.(closed := true, prod := Dead)
    case _ => r
  }

  function Flush(r: Ring): Ring {
    if r.prod.Ready? && r.prod.unpub > 0 then r.(prod := PublishDue(r.prod.next, r.prod.batch, false)) else r
  }

  function SetTailBatch(r: Ring, batch: nat): Ring {
    if r.prod.Ready? then
      var b := Clamp(batch, 1, MaxBatch(r.cap, r.slack));
      r.(prod := if r.prod.unpub >= b then PublishDue(r.prod.next, b, false) else Ready(r.prod.next, b, r.prod.unpub))
    else r
  }

  /** A graceful drop publishes the debt before it closes. */
  function Close(r: Ring): Ring {
    if r.prod.Ready? then
      r.(prod := if r.prod.unpub > 0 then PublishDue(r.prod.next, r.prod.batch, true) else CloseDue)
    else r
  }

  /** Death forfeits whatever was not published. */
  function Crash(r: Ring): Ring { r.(prod := Dead, made := if r.tail <= |r.made| then r.made[..r.tail] else r.made) }

  function Attach(r: Ring): Ring {
    match r.prod
    case Dead => r.(closed := false, prod := Opened)
    case Opened => r.(prod := Ready(r.tail, 1, 0))
    case _ => r
  }

  // ------------------------------------------------------------------ readers

  datatype Event = Got(at: nat, msg: Words) | Lag(missed: nat) | Skip(skipped: nat) | Shut

  datatype ReadPc = Idle | RefreshDue | ClosedDue | DrainDue | CheckDue | CopyDue(out: Words) | RepositionDue

  datatype Reader = Reader(pos: nat, tailCache: nat, pc: ReadPc, join: nat, log: seq<Event>)

  function Subscribe(r: Ring): Reader { Reader(r.tail, r.tail, Idle, r.tail, []) }

  function BeginPop(a: Reader): Reader {
    if !a.pc.Idle? then a else a.(pc := if a.tailCache > a.pos then CheckDue else RefreshDue)
  }

  function SkipToLatest(r: Ring, a: Reader): Reader {
    if !a.pc.Idle? then a
    else
      a.(tailCache := r.tail, pos := Max(a.pos, r.tail),
         log := a.log + [Skip(if r.tail > a.pos then r.tail - a.pos else 0)])
  }

  function ReadStep(r: Ring, a: Reader): Reader {
    var s := SlotAt(r.slots, Off(a.pos, r.cap));
    match a.pc
    case Idle => a
    case RefreshDue => a.(tailCache := r.tail, pc := if r.tail > a.pos then CheckDue else ClosedDue)
    case ClosedDue => a.(pc := if r.closed then DrainDue else Idle)
    case DrainDue =>
      if r.tail <= a.pos then a.(tailCache := r.tail, pc := Idle, log := a.log + [Shut])
      else a.(tailCache := r.tail, pc := CheckDue)
    case CheckDue => a.(pc := if s.gen == 2 * a.pos + 2 then CopyDue([]) else RepositionDue)
    case CopyDue(out) =>
      if |out| < r.words then
        a.(pc := CopyDue(out + [if |out| < |s.data| then s.data[|out|] else 0]))
      else if s.gen == 2 * a.pos + 2 then
        a.(pos := a.pos + 1, pc := Idle, log := a.log + [Got(a.pos, out)])
      else a.(pc := RepositionDue)
    case RepositionDue =>
      var to := Max(RepositionTarget(r.tail, r.cap, r.slack), a.pos);
      a.(tailCache := r.tail, pos := to, pc := Idle, log := a.log + [Lag(to - a.pos)])
  }

  // ------------------------------------------------------------------ runs

  datatype System = System(ring: Ring, readers: seq<Reader>)

  datatype Action =
    | DoPush(msg: Words) | DoProduce | DoFlush | DoSetTailBatch(batch: nat) | DoClose | DoCrash | DoAttach
    | DoSubscribe | DoPop(i: nat) | DoSkip(i: nat) | DoRead(i: nat)

  function RingStep(r: Ring, a: Action): Ring {
    match a
    case DoPush(msg) => Push(r, msg)
    case DoProduce => Produce(r)
    case DoFlush => Flush(r)
    case DoSetTailBatch(batch) => SetTailBatch(r, batch)
    case DoClose => Close(r)
    case DoCrash => Crash(r)
    case DoAttach => Attach(r)
    case _ => r
  }

  function ReaderStep(r: Ring, a: Reader, act: Action): Reader {
    match act
    case DoPop(_) => BeginPop(a)
    case DoSkip(_) => SkipToLatest(r, a)
    case DoRead(_) => ReadStep(r, a)
    case _ => a
  }

  function Apply(s: System, a: Action): System {
    if a.DoSubscribe? then s.(readers := s.readers + [Subscribe(s.ring)])
    else if a.DoPop? || a.DoSkip? || a.DoRead? then
      if a.i < |s.readers| then s.(readers := s.readers[a.i := ReaderStep(s.ring, s.readers[a.i], a)]) else s
    else s.(ring := RingStep(s.ring, a))
  }

  function Run(s: System, actions: seq<Action>): System {
    if actions == [] then s else Apply(Run(s, actions[..|actions| - 1]), actions[|actions| - 1])
  }

  function Start(cap: Size, slack: nat, words: nat): System {
    System(NewRing(cap, slack, words), [Subscribe(NewRing(cap, slack, words))])
  }
}
