/** The gating engine over the shared consumer table: the producer's cached minimum, its slot-by-slot
    rescan, and consumers that claim, join, read, publish, leave or are retired, every shared access a
    step of its own. `hi`, `issued` and the `join` points are history variables. */
module Gate {
  import opened Framing

  // ------------------------------------------------------------------ the consumer table

  datatype State = Free | Active | Retired

  /** A cursor word: the detached sentinel or a position. */
  datatype Cursor = Detached | At(v: nat)

  /** How far a slot's current holder has come. */
  datatype Holder =
    | Nobody
    | Claimed                     // control word swapped to ACTIVE
    | GotProvisional(p: nat)      // tail loaded
    | StoredProvisional           // and stored as the cursor
    | GotJoin(j: nat)             // tail re-loaded: the join point
    | Live(join: nat, rd: nat, pub: nat, cache: nat)
    | Leaving                     // sentinel stored, control word not yet freed

  /** `epoch` and `state` are the two halves of the control word. */
  datatype Slot = Slot(epoch: nat, state: State, cursor: Cursor, who: Holder)

  /** One occupancy of a slot. */
  datatype Claim = Claim(slot: nat, epoch: nat)

  // ------------------------------------------------------------------ the producer

  datatype Pc =
    | Idle
    | ScanDue(needed: nat, i: nat, any: bool, maxLag: int)  // load slot i's control word, or finish
    | LoadDue(needed: nat, i: nat, any: bool, maxLag: int)  // load slot i's cursor word
    | Granted(needed: nat)
    | Writing(needed: nat)

  datatype Producer =
    | Dead
    | Up(next: nat, cachedMin: int, cached: seq<int>, pc: Pc)

  /** `hi` is one past the highest position any write was begun for. */
  datatype Gate = Gate(cap: Size, tail: nat, hi: nat, slots: seq<Slot>, prod: Producer, issued: seq<Claim>)

  const CHUNK_SLOTS := 64

  predicate LacksSpace(write: nat, needed: nat, read: int, cap: Size) {
    write + needed - read > cap
  }

  /** Cursor caches grow by whole blocks, seeded with a value that always gates. */
  function Grown(cached: seq<int>, i: nat, seed: int): seq<int> {
    if |cached| <= i then cached + seq(CHUNK_SLOTS, _ => seed) else cached
  }

  function MaxOf(a: int, b: int): int { if a < b then b else a }

  /** The cached check; on a miss, the scan starts. */
  function Try(g: Gate, needed: nat): Gate {
    if g.prod.Up? && g.prod.pc.Idle? && 1 <= needed <= g.cap then
      var p := g.prod;
      g.(prod := p.(pc := if LacksSpace(p.next, needed, p.cachedMin, g.cap) then ScanDue(needed, 0, false, 0)
                          else Granted(needed)))
    else g
  }

  /** One step of the scan: a control-word load, a cursor load, or the verdict. */
  function Scan(g: Gate): Gate {
    if !g.prod.Up? then g
    else
      var p := g.prod;
      match p.pc
      case ScanDue(needed, i, any, maxLag) =>
        if i < |g.slots| then
          var cached := Grown(p.cached, i, p.next - g.cap);
          if !g.slots[i].state.Active? then
            g.(prod := p.(cached := cached, pc := ScanDue(needed, i + 1, any, maxLag)))
          else if |cached| <= i || LacksSpace(p.next, needed, cached[i], g.cap) then
            g.(prod := p.(cached := cached, pc := LoadDue(needed, i, any, maxLag)))
          else
            g.(prod := p.(cached := cached,
                          pc := ScanDue(needed, i + 1, true, MaxOf(maxLag, p.next - cached[i]))))
        else
          var min := if any then p.next - maxLag else p.next - 1;
          g.(prod := p.(cachedMin := min,
                        pc := if LacksSpace(p.next, needed, min, g.cap) then Idle else Granted(needed)))
      case LoadDue(needed, i, any, maxLag) =>
        if i >= |g.slots| || i >= |p.cached| then g
        else if g.slots[i].cursor.Detached? then
          g.(prod := p.(pc := ScanDue(needed, i + 1, any, maxLag)))
        else
          var v := g.slots[i].cursor.v;
          g.(prod := p.(cached := p.cached[i := v],
                        pc := ScanDue(needed, i + 1, true, MaxOf(maxLag, p.next - v))))
      case _ => g
  }

  /** An uncommitted claim publishes nothing. */
  function Abandon(g: Gate): Gate {
    if g.prod.Up? && g.prod.pc.Granted? then g.(prod := g.prod.(pc := Idle)) else g
  }

  /** The write of `needed` units at `next` begins: from here on every one of them may be stored. */
  function BeginWrite(g: Gate): Gate {
    if g.prod.Up? && g.prod.pc.Granted? then
      g.(hi := MaxNat(g.hi, g.prod.next + g.prod.pc.needed), prod := g.prod.(pc := Writing(g.prod.pc.needed)))
    else g
  }

  function MaxNat(a: nat, b: nat): nat { if a < b then b else a }

  function Publish(g: Gate): Gate {
    if g.prod.Up? && g.prod.pc.Writing? then
      var next := g.prod.next + g.prod.pc.needed;
      g.(tail := next, prod := g.prod.(next := next, pc := Idle))
    else g
  }

  function CrashProducer(g: Gate): Gate { g.(prod := Dead) }

  /** A new producer resumes at the tail with always-gating caches and runs one real scan. */
  function AttachProducer(g: Gate): Gate {
    if g.prod.Dead? then g.(prod := Up(g.tail, g.tail - g.cap, [], ScanDue(1, 0, false, 0))) else g
  }

  // ------------------------------------------------------------------ consumers

  /** The claim: one compare-and-swap that also bumps the epoch. */
  function ClaimSlot(g: Gate, i: nat): Gate {
    if i < |g.slots| && g.slots[i].state.Free? then
      var e := g.slots[i].epoch + 1;
      g.(slots := g.slots[i := g.slots[i].(epoch := e, state := Active, who := Claimed)],
         issued := g.issued + [Claim(i, e)])
    else g
  }

  /** The rest of the subscription: load, store, re-load, store. */
  function JoinStep(tail: nat, s: Slot): Slot {
    match s.who
    case Claimed => s.(who := GotProvisional(tail))
    case GotProvisional(p) => s.(cursor := At(p), who := StoredProvisional)
    case StoredProvisional => s.(who := GotJoin(tail))
    case GotJoin(j) => s.(cursor := At(j), who := Live(j, j, j, j))
    case _ => s
  }

  function RefreshStep(tail: nat, s: Slot): Slot {
    if s.who.Live? then s.(who := s.who.(cache := tail)) else s
  }

  /** Consuming `n` units below the cached tail. */
  function ReadStep(s: Slot, n: nat): Slot {
    if s.who.Live? && s.who.rd + n <= s.who.cache then s.(who := s.who.(rd := s.who.rd + n)) else s
  }

  function FlushStep(s: Slot): Slot {
    if s.who.Live? then s.(cursor := At(s.who.rd), who := s.who.(pub := s.who.rd)) else s
  }

  /** Detaching stores the sentinel first... */
  function LeaveStep(s: Slot): Slot {
    if s.who.Live? then s.(cursor := Detached, who := Leaving) else s
  }

  /** ...and frees the control word second, unless the slot was retired meanwhile. */
  function FreeStep(s: Slot): Slot {
    if s.who.Leaving? then s.(state := if s.state.Active? then Free else s.state, who := Nobody) else s
  }

  /** Compare-and-retire of a holder diagnosed dead at `epoch`. */
  function RetireStep(s: Slot, epoch: nat): Slot {
    if s.state.Active? && s.epoch == epoch then s.(epoch := epoch + 1, state := Retired) else s
  }

  datatype Action =
    | DoTry(needed: nat) | DoScan | DoAbandon | DoBeginWrite | DoPublish | DoCrash | DoAttach
    | DoClaim(i: nat) | DoJoin(i: nat) | DoRefresh(i: nat) | DoRead(i: nat, n: nat) | DoFlush(i: nat)
    | DoLeave(i: nat) | DoFree(i: nat) | DoRetire(i: nat, epoch: nat)

  predicate OnSlot(a: Action) {
    a.DoJoin? || a.DoRefresh? || a.DoRead? || a.DoFlush? || a.DoLeave? || a.DoFree? || a.DoRetire?
  }

  /** What a table action makes of its slot. */
  function SlotStep(tail: nat, s: Slot, a: Action): Slot
    requires OnSlot(a)
  {
    match a
    case DoJoin(_) => JoinStep(tail, s)
    case DoRefresh(_) => RefreshStep(tail, s)
    case DoRead(_, n) => ReadStep(s, n)
    case DoFlush(_) => FlushStep(s)
    case DoLeave(_) => LeaveStep(s)
    case DoFree(_) => FreeStep(s)
    case DoRetire(_, e) => RetireStep(s, e)
  }

  function Apply(g: Gate, a: Action): Gate {
    if OnSlot(a) then
      if a.i < |g.slots| then g.(slots := g.slots[a.i := SlotStep(g.tail, g.slots[a.i], a)]) else g
    else
      match a
      case DoTry(needed) => Try(g, needed)
      case DoScan => Scan(g)
      case DoAbandon => Abandon(g)
      case DoBeginWrite => BeginWrite(g)
      case DoPublish => Publish(g)
      case DoCrash => CrashProducer(g)
      case DoAttach => AttachProducer(g)
      case DoClaim(i) => ClaimSlot(g, i)
      case _ => g
  }

  function Run(g: Gate, actions: seq<Action>): Gate {
    if actions == [] then g else Apply(Run(g, actions[..|actions| - 1]), actions[|actions| - 1])
  }

  /** A fresh ring: `n` free slots and an attached producer. */
  function Start(cap: Size, n: nat): Gate {
    AttachProducer(Gate(cap, 0, 0, seq(n, _ => Slot(0, Free, Detached, Nobody)), Dead, []))
  }
}
