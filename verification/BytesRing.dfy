/** The lossy byte ring as a step machine: one producer, any number of readers, every step one atomic
    access to shared memory (a 4-byte lane or one counter), interleaved arbitrarily. The producer may
    die between any two steps and a successor may attach; `frames` is a history variable. */
module BytesRing {
  import opened Framing

  // ------------------------------------------------------------------ producer

  /** Which store of a push comes next; the intent has been declared already. */
  datatype Stage = PadDue | HeaderDue | LaneDue(k: nat) | LatestDue | TailDue

  datatype Producer =
    | Dead
    | Opened  // role taken over, closed word reset
    | Healed  // `latest` repaired
    | Ready(next: nat, floor: nat)
    | Writing(next: nat, floor: nat, msg: seq<Byte>, stage: Stage)

  datatype Ring = Ring(
    cap: Size, buf: seq<Lane>, intent: nat, latest: nat, tail: nat, closed: bool,
    frames: seq<Frame>, prod: Producer)

  function NewRing(cap: Size): Ring {
    Ring(cap, seq(cap / LANE, _ => 0), 0, 0, 0, false, [], Ready(0, 0))
  }

  function Max(a: nat, b: nat): nat { if a < b then b else a }

  function Load(buf: seq<Lane>, i: nat): Lane {
    if i < |buf| then buf[i] else 0
  }

  function Store(buf: seq<Lane>, i: nat, l: Lane): seq<Lane> {
    if i < |buf| then buf[i := l] else buf
  }

  function FirstLane(len: nat): Stage {
    if LaneCount(len) == 0 then LatestDue else LaneDue(0)
  }

  /** Step 1 of a push: frame the message and declare the intent. An over-limit message panics
      before anything is stored. */
  function Declare(r: Ring, msg: seq<Byte>): Ring {
    if r.prod.Ready? && |msg| <= MaxMessageLen(r.cap) then
      var f := NewFrame(r.prod.next, msg, r.cap);
      r.(intent := Max(f.End(), r.prod.floor),
         prod := Writing(r.prod.next, r.prod.floor, msg, if f.pad > 0 then PadDue else HeaderDue))
    else r
  }

  /** The next store of a push in progress. */
  function Produce(r: Ring): Ring {
    if !r.prod.Writing? then r
    else
      var p := r.prod;
      var f := NewFrame(p.next, p.msg, r.cap);
      match p.stage
      case PadDue =>
        r.(buf := Store(r.buf, Cell(f.start, r.cap), PADDING), prod := p.(stage := HeaderDue))
      case HeaderDue =>
        if |p.msg| > PADDING then r
        else r.(buf := Store(r.buf, Cell(f.Rec(), r.cap), |p.msg|),
                prod := p.(stage := FirstLane(|p.msg|)))
      case LaneDue(k) =>
        if k >= LaneCount(|p.msg|) then r
        else r.(buf := Store(r.buf, (Off(f.Rec(), r.cap) + HEADER + LANE * k) / LANE, PackLane(p.msg, k)),
                prod := p.(stage := if k + 1 < LaneCount(|p.msg|) then LaneDue(k + 1) else LatestDue))
      case LatestDue =>
        r.(latest := f.Rec(), prod := p.(stage := TailDue))
      case TailDue =>
        r.(tail := f.End(), frames := r.frames + [f], prod := Ready(f.End(), p.floor))
  }

  /** Graceful drop between pushes. */
  function Close(r: Ring): Ring {
    if r.prod.Ready? then r.(closed := true, prod := Dead) else r
  }

  /** Death at any program point. */
  function Crash(r: Ring): Ring { r.(prod := Dead) }

  /** Attaching a successor, one store at a time: reopen, heal `latest`, floor the intent. */
  function Attach(r: Ring): Ring {
    match r.prod
    case Dead => r.(closed := false, prod := Opened)
    case Opened => (if r.intent != r.tail then r.(latest := r.tail) else r).(prod := Healed)
    case Healed => r.(prod := Ready(r.tail, Max(r.intent, r.tail)))
    case _ => r
  }

  // ------------------------------------------------------------------ readers

  /** What a reader has been told, in order. */
  datatype Event =
    | Got(at: nat, end: nat, msg: seq<Byte>)
    | Lag(missed: nat)
    | Skip(skipped: nat)
    | Shut

  /** The next shared access of a pop in progress. */
  datatype ReadPc =
    | Idle
    | RefreshDue
    | ClosedDue
    | DrainDue
    | WindowDue(cursor: nat)
    | LengthDue(cursor: nat)
    | SkipCheckDue(cursor: nat)
    | CopyDue(cursor: nat, len: nat, out: seq<Byte>)
    | ReloadDue
    | JumpDue

  datatype Reader = Reader(pos: nat, tailCache: nat, pc: ReadPc, join: nat, log: seq<Event>)

  function Subscribe(r: Ring): Reader { Reader(r.tail, r.tail, Idle, r.tail, []) }

  /** The source's `intent.wrapping_sub(pos) > capacity`. */
  predicate Lapped(r: Ring, pos: nat) {
    r.intent < pos || r.intent - pos > r.cap
  }

  function BeginPop(a: Reader): Reader {
    if !a.pc.Idle? then a
    else if a.tailCache > a.pos then a.(pc := WindowDue(a.pos))
    else a.(pc := RefreshDue)
  }

  function SkipToLatest(r: Ring, a: Reader): Reader {
    if !a.pc.Idle? then a
    else
      a.(tailCache := r.tail, pos := Max(a.pos, r.tail),
         log := a.log + [Skip(if r.tail > a.pos then r.tail - a.pos else 0)])
  }

  function ReadStep(r: Ring, a: Reader): Reader {
    match a.pc
    case Idle => a
    case RefreshDue =>
      a.(tailCache := r.tail, pc := if r.tail > a.pos then WindowDue(a.pos) else ClosedDue)
    case ClosedDue => a.(pc := if r.closed then DrainDue else Idle)
    case DrainDue =>
      if r.tail <= a.pos then a.(tailCache := r.tail, pc := Idle, log := a.log + [Shut])
      else a.(tailCache := r.tail, pc := WindowDue(a.pos))
    case WindowDue(c) => a.(pc := if Lapped(r, a.pos) then ReloadDue else LengthDue(c))
    case LengthDue(c) => a.(pc := Parse(r.cap, c, Load(r.buf, Off(c, r.cap) / LANE)))
    case SkipCheckDue(c) =>
      a.(pc := if Lapped(r, a.pos) then ReloadDue else WindowDue(c + (r.cap - Off(c, r.cap))))
    case CopyDue(c, len, out) =>
      if |out| < len then
        var l := Load(r.buf, (Off(c, r.cap) + HEADER + |out|) / LANE);
        a.(pc := CopyDue(c, len, Extend(out, len, l)))
      else if Lapped(r, a.pos) then a.(pc := ReloadDue)
      else
        var end := c + RecordLen(len);
        a.(pos := end, pc := Idle, log := a.log + [Got(a.pos, end, out)])
    case ReloadDue => a.(tailCache := r.tail, pc := JumpDue)
    case JumpDue =>
      var to := Max(r.latest, a.pos);
      a.(pos := to, pc := Idle, log := a.log + [Lag(to - a.pos)])
  }

  /** The header is bounds-checked before any use. */
  function Parse(cap: Size, c: nat, v: nat): ReadPc {
    if v == PADDING then SkipCheckDue(c)
    else if v > MaxMessageLen(cap) then ReloadDue
    else if RecordLen(v) > cap - Off(c, cap) then ReloadDue
    else CopyDue(c, v, [])
  }

  // ------------------------------------------------------------------ the whole system

  datatype System = System(ring: Ring, readers: seq<Reader>)

  datatype Action =
    | DoDeclare(msg: seq<Byte>) | DoProduce | DoClose | DoCrash | DoAttach
    | DoSubscribe | DoPop(i: nat) | DoSkip(i: nat) | DoRead(i: nat)

  function Apply(s: System, a: Action): System {
    match a
    case DoDeclare(msg) => s.(ring := Declare(s.ring, msg))
    case DoProduce => s.(ring := Produce(s.ring))
    case DoClose => s.(ring := Close(s.ring))
    case DoCrash => s.(ring := Crash(s.ring))
    case DoAttach => s.(ring := Attach(s.ring))
    case DoSubscribe => s.(readers := s.readers + [Subscribe(s.ring)])
    case DoPop(i) => if i < |s.readers| then s.(readers := s.readers[i := BeginPop(s.readers[i])]) else s
    case DoSkip(i) =>
      if i < |s.readers| then s.(readers := s.readers[i := SkipToLatest(s.ring, s.readers[i])]) else s
    case DoRead(i) =>
      if i < |s.readers| then s.(readers := s.readers[i := ReadStep(s.ring, s.readers[i])]) else s
  }

  function Run(s: System, actions: seq<Action>): System {
    if actions == [] then s
    else Apply(Run(s, actions[..|actions| - 1]), actions[|actions| - 1])
  }

  function Start(cap: Size): System { System(NewRing(cap), [Subscribe(NewRing(cap))]) }
}
