/** The inductive invariant of the lossy element ring. */
module ElementProof {
  import opened Framing
  import opened ElementRing

  // ------------------------------------------------------------------ producer invariant

  predicate CountersOk(r: Ring) {
    && r.slack < r.cap
    && r.tail <= |r.made| <= r.front <= r.tail + MaxBatch(r.cap, r.slack)
    && match r.prod
       case Ready(next, batch, unpub) =>
         next == |r.made| == r.tail + unpub && 1 <= batch <= MaxBatch(r.cap, r.slack) && unpub < batch
       case Writing(next, batch, unpub, msg, done) =>
         next == |r.made| == r.tail + unpub && 1 <= batch <= MaxBatch(r.cap, r.slack) && unpub < batch
         && |msg| == r.words && done <= |msg| && next < r.front
       case PublishDue(next, batch, _) => next == |r.made| && 1 <= batch <= MaxBatch(r.cap, r.slack)
       case _ => |r.made| == r.tail
  }

  /** The slot of sequence q holds q's generation; complete and current, if q is committed or live. */
  predicate Holds(r: Ring, q: nat) {
    var s := SlotAt(r.slots, Off(q, r.cap));
    && (s.gen == 2 * q + 1 || s.gen == 2 * q + 2)
    && (q < |r.made| ==> s.gen == 2 * q + 2 && s.data == r.made[q])
  }

  /** One whole lap of slots behind the frontier. */
  predicate SlotsOk(r: Ring) {
    && |r.slots| == r.cap && (forall i: nat | i < |r.slots| :: |r.slots[i].data| == r.words)
    && (forall i: nat | r.front <= i < |r.slots| :: r.slots[i].gen == 0)
    && forall q: nat | q < r.front <= q + r.cap :: Holds(r, q)
  }

  predicate WriteOk(r: Ring) {
    r.prod.Writing? ==>
      var s := SlotAt(r.slots, Off(r.prod.next, r.cap));
      && s.gen == 2 * r.prod.next + 1 && r.prod.done <= |s.data| && r.prod.done <= |r.prod.msg|
      && s.data[..r.prod.done] == r.prod.msg[..r.prod.done]
  }

  predicate RingInv(r: Ring) {
    CountersOk(r) && SlotsOk(r) && WriteOk(r) && (r.closed ==> r.prod.Dead?)
  }

  /** What a reader may rely on: committed messages stay, counters and the frontier only grow. */
  predicate Grew(r: Ring, r': Ring) {
    && r'.cap == r.cap && r'.slack == r.slack && r'.words == r.words
    && r.tail <= r'.tail && r.front <= r'.front && r.tail <= |r.made| && r'.tail <= |r'.made|
    && r'.made[..r.tail] == r.made[..r.tail]
  }

  lemma BatchBelowCapacity(cap: Size, slack: nat)
    ensures 1 <= MaxBatch(cap, slack) <= cap
    ensures slack >= 1 ==> MaxBatch(cap, slack) <= slack
  {
  }

  lemma PushKeeps(r: Ring, msg: Words)
    requires RingInv(r)
    ensures RingInv(Push(r, msg)) && Grew(r, Push(r, msg))
  {
    if r.prod.Ready? && |msg| == r.words {
      var r' := Push(r, msg);
      var next := r.prod.next;
      BatchBelowCapacity(r.cap, r.slack);
      forall q: nat | q < r'.front <= q + r'.cap ensures Holds(r', q) {
        OtherSlot(q, next, r.cap);
        if q != next {
          assert Holds(r, q);
        }
      }
    }
  }

  /** Two sequences less than a lap apart have different slots. */
  lemma OtherSlot(p: nat, q: nat, cap: Size)
    requires p < q + cap && q < p + cap
    ensures p != q ==> Off(p, cap) != Off(q, cap)
  {
    if Off(p, cap) == Off(q, cap) && p != q {
      OffSame(if p < q then p else q, if p < q then q else p, cap);
    }
  }

  lemma WordKeeps(r: Ring)
    requires RingInv(r) && r.prod.Writing? && r.prod.done < |r.prod.msg|
    ensures RingInv(Produce(r)) && Grew(r, Produce(r))
  {
    var r' := Produce(r);
    BatchBelowCapacity(r.cap, r.slack);
    forall q: nat | q < r'.front <= q + r'.cap ensures Holds(r', q) {
      assert Holds(r, q);
      OtherSlot(q, r.prod.next, r.cap);
    }
  }

  lemma SealKeeps(r: Ring)
    requires RingInv(r) && r.prod.Writing? && r.prod.done == |r.prod.msg|
    ensures RingInv(Produce(r)) && Grew(r, Produce(r))
  {
    var r' := Produce(r);
    BatchBelowCapacity(r.cap, r.slack);
    forall q: nat | q < r'.front <= q + r'.cap ensures Holds(r', q) {
      assert Holds(r, q);
      OtherSlot(q, r.prod.next, r.cap);
    }
  }

  lemma OtherKeeps(r: Ring, a: Action)
    requires RingInv(r) && !a.DoPush? && !(a.DoProduce? && r.prod.Writing?)
    ensures RingInv(RingStep(r, a)) && Grew(r, RingStep(r, a))
  {
    var r' := RingStep(r, a);
    forall q: nat | q < r'.front <= q + r'.cap ensures Holds(r', q) {
      assert Holds(r, q);
    }
  }

  lemma RingKeeps(r: Ring, a: Action)
    requires RingInv(r)
    ensures RingInv(RingStep(r, a)) && Grew(r, RingStep(r, a))
  {
    if a.DoPush? {
      PushKeeps(r, a.msg);
    } else if a.DoProduce? && r.prod.Writing? {
      if r.prod.done < |r.prod.msg| {
        WordKeeps(r);
      } else {
        SealKeeps(r);
      }
    } else {
      OtherKeeps(r, a);
    }
  }

  // ------------------------------------------------------------------ what a generation proves

  /** Some sequence of any lap-long window falls on a given slot. */
  lemma SlotTaken(base: nat, c: nat, cap: Size) returns (q: nat)
    requires c < cap
    ensures base <= q < base + cap && Off(q, cap) == c
  {
    var o := Off(base, cap);
    if o <= c {
      q := base + (c - o);
      OffAdd(base, c - o, cap);
    } else {
      q := base + (cap - o) + c;
      OffToEnd(base, cap);
      OffAdd(base + (cap - o), c, cap);
    }
  }

  /** For a committed position, the expected generation is there exactly as long as no write has been
      begun a whole lap ahead; and then so is the message. */
  lemma GenerationIsUnique(r: Ring, p: nat)
    requires RingInv(r) && p < r.tail
    ensures var s := SlotAt(r.slots, Off(p, r.cap));
      && (s.gen == 2 * p + 2 <==> r.front <= p + r.cap)
      && (r.front <= p + r.cap ==> s.data == r.made[p])
  {
    if r.front <= p + r.cap {
      assert Holds(r, p);
    } else {
      var q := SlotTaken(r.front - r.cap, Off(p, r.cap), r.cap);
      assert Holds(r, q);
    }
  }

  // ------------------------------------------------------------------ reader invariant

  predicate PcOk(r: Ring, pos: nat, pc: ReadPc) {
    match pc
    case CheckDue => pos < r.tail
    case CopyDue(out) =>
      pos < r.tail <= |r.made| && |out| <= r.words
      && (r.front <= pos + r.cap ==> |r.made[pos]| == r.words && out == r.made[pos][..|out|])
    case RepositionDue => pos + r.cap < r.front
    case _ => true
  }

  /** The log leads from the join point to the position without gap or overlap, and what was delivered
      is what was published. */
  predicate LogOk(made: seq<Words>, join: nat, log: seq<Event>, pos: nat) {
    if log == [] then pos == join
    else
      var before := log[..|log| - 1];
      match log[|log| - 1]
      case Got(at, msg) => at + 1 == pos && at < |made| && msg == made[at] && LogOk(made, join, before, at)
      case Lag(n) => n <= pos && LogOk(made, join, before, pos - n)
      case Skip(n) => n <= pos && LogOk(made, join, before, pos - n)
      case Shut => LogOk(made, join, before, pos)
  }

  predicate ReaderInv(r: Ring, a: Reader) {
    && a.pos <= r.tail && a.tailCache <= r.tail <= |r.made| && PcOk(r, a.pos, a.pc)
    && LogOk(r.made[..r.tail], a.join, a.log, a.pos)
  }

  lemma {:induction false} LogGrows(made: seq<Words>, made': seq<Words>, join: nat, log: seq<Event>, pos: nat)
    requires LogOk(made, join, log, pos) && made <= made'
    ensures LogOk(made', join, log, pos)
  {
    if log != [] {
      var before := log[..|log| - 1];
      match log[|log| - 1] {
        case Got(at, _) => LogGrows(made, made', join, before, at);
        case Lag(n) => LogGrows(made, made', join, before, pos - n);
        case Skip(n) => LogGrows(made, made', join, before, pos - n);
        case Shut => LogGrows(made, made', join, before, pos);
      }
    }
  }

  lemma ReaderGrew(r: Ring, r': Ring, a: Reader)
    requires Grew(r, r') && ReaderInv(r, a)
    ensures ReaderInv(r', a)
  {
    var sent, sent' := r.made[..r.tail], r'.made[..r'.tail];
    assert sent == r'.made[..r.tail] <= sent';
    LogGrows(sent, sent', a.join, a.log, a.pos);
    if a.pc.CopyDue? {
      assert r'.made[a.pos] == r'.made[..r.tail][a.pos] == r.made[a.pos];
    }
  }

  lemma PcMoves(r: Ring, a: Reader, pc: ReadPc, cache: nat)
    requires ReaderInv(r, a) && PcOk(r, a.pos, pc) && cache <= r.tail
    ensures ReaderInv(r, a.(pc := pc, tailCache := cache))
  {
  }

  lemma CommittedWords(r: Ring, p: nat)
    requires RingInv(r) && p < r.tail && r.front <= p + r.cap
    ensures |r.made[p]| == r.words
  {
    GenerationIsUnique(r, p);
  }

  /** Accepting: the copy is exactly the message at the reader's position. */
  lemma AcceptKeeps(r: Ring, a: Reader)
    requires RingInv(r) && ReaderInv(r, a) && a.pc.CopyDue? && |a.pc.out| == r.words
    ensures ReaderInv(r, ReadStep(r, a))
  {
    GenerationIsUnique(r, a.pos);
    if r.front <= a.pos + r.cap {
      var log := a.log + [Got(a.pos, a.pc.out)];
      assert log[..|log| - 1] == a.log;
      assert r.made[..r.tail][a.pos] == r.made[a.pos] == a.pc.out;
    }
  }

  lemma WordRead(r: Ring, a: Reader)
    requires RingInv(r) && ReaderInv(r, a) && a.pc.CopyDue? && |a.pc.out| < r.words
    ensures ReaderInv(r, ReadStep(r, a))
  {
    GenerationIsUnique(r, a.pos);
    var s := SlotAt(r.slots, Off(a.pos, r.cap));
    var out := a.pc.out;
    var w := if |out| < |s.data| then s.data[|out|] else 0;
    if r.front <= a.pos + r.cap {
      assert out + [w] == r.made[a.pos][..|out| + 1];
    }
    PcMoves(r, a, CopyDue(out + [w]), a.tailCache);
  }

  /** Repositioning never moves back nor past the tail. */
  lemma RepositionKeeps(r: Ring, a: Reader)
    requires RingInv(r) && ReaderInv(r, a) && a.pc.RepositionDue?
    ensures ReaderInv(r, ReadStep(r, a))
  {
    var to := Max(RepositionTarget(r.tail, r.cap, r.slack), a.pos);
    var log := a.log + [Lag(to - a.pos)];
    assert log[..|log| - 1] == a.log;
  }

  lemma CheckKeeps(r: Ring, a: Reader)
    requires RingInv(r) && ReaderInv(r, a) && a.pc.CheckDue?
    ensures ReaderInv(r, ReadStep(r, a))
  {
    GenerationIsUnique(r, a.pos);
    if r.front <= a.pos + r.cap {
      CommittedWords(r, a.pos);
    }
    PcMoves(r, a, ReadStep(r, a).pc, a.tailCache);
  }

  lemma DrainKeeps(r: Ring, a: Reader)
    requires ReaderInv(r, a) && (a.pc.Idle? || a.pc.RefreshDue? || a.pc.ClosedDue? || a.pc.DrainDue?)
    ensures ReaderInv(r, ReadStep(r, a))
  {
    var log := a.log + [Shut];
    assert log[..|log| - 1] == a.log;
  }

  lemma ReaderKeeps(r: Ring, a: Reader, act: Action)
    requires RingInv(r) && ReaderInv(r, a)
    ensures ReaderInv(r, ReaderStep(r, a, act))
  {
    if act.DoSkip? {
      SkipKeeps(r, a);
    } else if act.DoRead? {
      if a.pc.CheckDue? {
        CheckKeeps(r, a);
      } else if a.pc.CopyDue? {
        if |a.pc.out| < r.words {
          WordRead(r, a);
        } else {
          AcceptKeeps(r, a);
        }
      } else if a.pc.RepositionDue? {
        RepositionKeeps(r, a);
      } else {
        DrainKeeps(r, a);
      }
    }
  }

  lemma SkipKeeps(r: Ring, a: Reader)
    requires ReaderInv(r, a)
    ensures ReaderInv(r, SkipToLatest(r, a))
  {
    var log := a.log + [Skip(if r.tail > a.pos then r.tail - a.pos else 0)];
    assert log[..|log| - 1] == a.log;
  }

  // ------------------------------------------------------------------ the whole system

  predicate SystemInv(s: System) {
    RingInv(s.ring) && forall i: nat | i < |s.readers| :: ReaderInv(s.ring, s.readers[i])
  }

  lemma ApplyKeeps(s: System, a: Action)
    requires SystemInv(s)
    ensures SystemInv(Apply(s, a)) && Grew(s.ring, Apply(s, a).ring)
  {
    if a.DoSubscribe? {
    } else if a.DoPop? || a.DoSkip? || a.DoRead? {
      if a.i < |s.readers| {
        ReaderKeeps(s.ring, s.readers[a.i], a);
      }
    } else {
      RingKeeps(s.ring, a);
      var r' := RingStep(s.ring, a);
      forall i: nat | i < |s.readers| ensures ReaderInv(r', s.readers[i]) {
        ReaderGrew(s.ring, r', s.readers[i]);
      }
    }
  }

  /** A sound system of the given configuration. */
  predicate Sound(s: System, cap: Size, slack: nat, words: nat) {
    SystemInv(s) && s.ring.cap == cap && s.ring.slack == slack && s.ring.words == words
  }

  lemma StartSound(cap: Size, slack: nat, words: nat)
    requires slack < cap
    ensures Sound(Start(cap, slack, words), cap, slack, words)
  {
  }

  lemma {:induction false} RunKeeps(cap: Size, slack: nat, words: nat, actions: seq<Action>)
    requires slack < cap
    ensures Sound(Run(Start(cap, slack, words), actions), cap, slack, words)
  {
    if actions == [] {
      StartSound(cap, slack, words);
    } else {
      var n := |actions| - 1;
      RunKeeps(cap, slack, words, actions[..n]);
      ApplyKeeps(Run(Start(cap, slack, words), actions[..n]), actions[n]);
    }
  }
}
