/** The element ring's handles as they are written: the producer's push with its word loop and deferred
    tail, and a consumer's pops with their seqlock reads, the latter with anybody moving in between. */
module ElementHandles {
  import opened Framing
  import opened ElementRing
  import opened ElementProof

  class Shared {
    const cap: Size
    const slack: nat
    const words: nat
    const slots: array<Slot>
    var tail: nat
    var closed: bool
    ghost var made: seq<Words>
    ghost var front: nat

    constructor (cap: Size, slack: nat, words: nat)
      requires slack < cap
      ensures this.cap == cap && this.slack == slack && this.words == words && fresh(slots)
      ensures View(Ready(0, 1, 0)) == NewRing(cap, slack, words) && RingInv(View(Ready(0, 1, 0)))
    {
      this.cap, this.slack, this.words := cap, slack, words;
      tail, closed, made, front := 0, false, [], 0;
      slots := new Slot[cap](_ => Slot(0, seq(words, _ => 0)));
      new;
      assert slots[..] == NewRing(cap, slack, words).slots;
    }

    /** The machine state, given where the producer stands. */
    ghost function View(prod: Producer): Ring
      reads this, slots
    {
      Ring(cap, slack, words, slots[..], tail, closed, prod, made, front)
    }

    /** Whatever the producer, its death or its successors do between two loads of a reader. A caller knows
        this contract only, so it is proved against every behaviour within it, and `ElementProof.RingKeeps`
        puts every step of the machine within it. When `quiet`, nobody moves. */
    method Others(ghost prod: Producer, ghost quiet: bool) returns (ghost now: Producer)
      requires RingInv(View(prod))
      modifies this, slots
      ensures RingInv(View(now)) && Grew(old(View(prod)), View(now))
      ensures quiet ==> now == prod && View(prod) == old(View(prod))
    {
      now := prod;
    }
  }

  // ------------------------------------------------------------------ producer

  class RingProducer {
    const ring: Shared
    var next: nat
    var batch: nat
    var unpub: nat

    /** Sound, open, and between pushes. */
    ghost predicate Valid()
      reads this, ring, ring.slots
    {
      RingInv(ring.View(Ready(next, batch, unpub))) && !ring.closed
    }

    /** Attaching resumes after the last published message. */
    constructor (ring: Shared)
      requires RingInv(ring.View(Opened)) && !ring.closed
      ensures Valid() && this.ring == ring && next == ring.tail && batch == 1 && unpub == 0
    {
      this.ring := ring;
      next, batch, unpub := ring.tail, 1, 0;
      new;
      OtherKeeps(ring.View(Opened), DoAttach);
      assert Attach(ring.View(Opened)) == ring.View(Ready(next, batch, unpub));
    }

    /** One message, stored between its two generations; the tail follows at the batch boundary. */
    method Push(msg: Words)
      requires Valid() && |msg| == ring.words
      modifies this, ring, ring.slots
      ensures Valid() && ring.made == old(ring.made) + [msg] && next == old(next) + 1 == |ring.made|
      ensures batch == old(batch)
      ensures ring.tail == if old(unpub) + 1 >= batch then next else old(ring.tail)
    {
      ghost var v := ring.View(Ready(next, batch, unpub));
      PushKeeps(v, msg);
      var i := Off(next, ring.cap);
      ring.slots[i] := ring.slots[i].(gen := 2 * next + 1);
      ring.front := Max(ring.front, next + 1);
      assert ring.View(Writing(next, batch, unpub, msg, 0)) == ElementRing.Push(v, msg);
      WriteWords(msg);
      Seal(msg);
    }

    /** The slot's published generation, then the frontier if the batch is full. */
    method Seal(ghost msg: Words)
      requires RingInv(ring.View(Writing(next, batch, unpub, msg, |msg|))) && !ring.closed
      modifies this, ring, ring.slots
      ensures Valid() && ring.made == old(ring.made) + [msg] && next == old(next) + 1 == |ring.made|
      ensures batch == old(batch)
      ensures ring.tail == if old(unpub) + 1 >= batch then next else old(ring.tail)
    {
      ghost var w := ring.View(Writing(next, batch, unpub, msg, |msg|));
      SealKeeps(w);
      var i := Off(next, ring.cap);
      ring.slots[i] := ring.slots[i].(gen := 2 * next + 2);
      ring.made := ring.made + [msg];
      next, unpub := next + 1, unpub + 1;
      if unpub >= batch {
        assert ring.View(PublishDue(next, batch, false)) == Produce(w);
        PublishTail(false);
      } else {
        assert ring.View(Ready(next, batch, unpub)) == Produce(w);
      }
    }

    /** The payload, word by word. */
    method WriteWords(msg: Words)
      requires RingInv(ring.View(Writing(next, batch, unpub, msg, 0)))
      modifies ring.slots
      ensures RingInv(ring.View(Writing(next, batch, unpub, msg, |msg|)))
    {
      var i := Off(next, ring.cap);
      for k := 0 to |msg|
        invariant RingInv(ring.View(Writing(next, batch, unpub, msg, k)))
      {
        ghost var v := ring.View(Writing(next, batch, unpub, msg, k));
        WordKeeps(v);
        ring.slots[i] := ring.slots[i].(data := ring.slots[i].data[k := msg[k]]);
        assert ring.View(Writing(next, batch, unpub, msg, k + 1)) == Produce(v);
      }
    }

    /** The one store of the shared tail. */
    method PublishTail(ghost closing: bool)
      requires RingInv(ring.View(PublishDue(next, batch, closing))) && !ring.closed
      modifies this`unpub, ring`tail
      ensures ring.tail == next && unpub == 0
      ensures RingInv(ring.View(if closing then CloseDue else Ready(next, batch, unpub)))
    {
      ghost var v := ring.View(PublishDue(next, batch, closing));
      OtherKeeps(v, DoProduce);
      unpub := 0;
      ring.tail := next;
      assert ring.View(if closing then CloseDue else Ready(next, batch, unpub)) == Produce(v);
    }

    method Flush()
      requires Valid()
      modifies this`unpub, ring`tail
      ensures Valid() && ring.tail == next == |ring.made| && unpub == 0
    {
      if unpub > 0 {
        OtherKeeps(ring.View(Ready(next, batch, unpub)), DoFlush);
        PublishTail(false);
      }
    }

    /** The largest batch that is not above the request, an eighth of the ring or the slack, and at least one;
        shrinking the window leaves no oversized debt behind. */
    method SetTailBatch(request: nat) returns (applied: nat)
      requires Valid()
      modifies this`batch, this`unpub, ring`tail
      ensures Valid() && 1 <= applied == batch && unpub < batch && next - ring.tail < batch
      ensures applied > 1 ==> applied <= request && 8 * applied <= ring.cap && applied <= ring.slack
      ensures forall n: nat | 1 <= n <= request && 8 * n <= ring.cap && n <= ring.slack :: n <= applied
      ensures ring.tail == if old(unpub) >= applied then next else old(ring.tail)
    {
      ghost var v := ring.View(Ready(next, batch, unpub));
      OtherKeeps(v, DoSetTailBatch(request));
      applied := Clamp(request, 1, MaxBatch(ring.cap, ring.slack));
      batch := applied;
      if unpub >= batch {
        PublishTail(false);
      }
    }

    /** A graceful drop: the debt first, the flag after it. */
    method Close()
      requires Valid()
      modifies this`unpub, ring`tail, ring`closed
      ensures ring.closed && ring.tail == |ring.made| && RingInv(ring.View(Dead))
    {
      ghost var v := ring.View(Ready(next, batch, unpub));
      OtherKeeps(v, DoClose);
      if unpub > 0 {
        PublishTail(true);
      }
      ghost var w := ring.View(CloseDue);
      OtherKeeps(w, DoProduce);
      ring.closed := true;
      assert ring.View(Dead) == Produce(w);
    }
  }

  // ------------------------------------------------------------------ consumer

  lemma GrewTwice(before: Ring, between: Ring, after: Ring)
    requires Grew(before, between) && Grew(between, after)
    ensures Grew(before, after)
  {
    assert after.made[..before.tail] == after.made[..between.tail][..before.tail];
    assert between.made[..before.tail] == between.made[..between.tail][..before.tail];
  }

  datatype Popped = Item(msg: Words) | Empty | Lagged(missed: nat) | Closed

  class RingConsumer {
    const ring: Shared
    var pos: nat
    var tailCache: nat

    ghost predicate Valid(prod: Producer)
      reads this, ring, ring.slots
    {
      RingInv(ring.View(prod)) && pos <= ring.tail && tailCache <= ring.tail
    }

    constructor (ring: Shared, ghost prod: Producer)
      requires RingInv(ring.View(prod))
      ensures Valid(prod) && this.ring == ring && pos == ring.tail
    {
      this.ring := ring;
      pos, tailCache := ring.tail, ring.tail;
    }

    /** Validate, copy word by word, revalidate, with anybody moving between any two loads: accepted exactly
        while no write has been begun a whole lap ahead, and then out is the message itself. */
    method ReadValid(ghost prod: Producer, p: nat, ghost quiet: bool)
      returns (ok: bool, out: Words, ghost now: Producer)
      requires RingInv(ring.View(prod)) && p < ring.tail
      modifies ring, ring.slots
      ensures RingInv(ring.View(now)) && Grew(old(ring.View(prod)), ring.View(now))
      ensures quiet ==> now == prod && ring.View(prod) == old(ring.View(prod))
      ensures ok <==> ring.front <= p + ring.cap
      ensures ok ==> out == ring.made[p]
    {
      var i, expected := Off(p, ring.cap), 2 * p + 2;
      ghost var before := ring.View(prod);
      now := Pause(prod, p, quiet);
      out := [];
      ok := ring.slots[i].gen == expected;
      if ok {
        ghost var first := ring.View(now);
        out, now := CopyWords(now, p, quiet);
        ghost var copied := ring.View(now);
        GrewTwice(before, first, copied);
        now := Pause(now, p, quiet);
        GrewTwice(before, copied, ring.View(now));
        ok := ring.slots[i].gen == expected;
      }
    }

    /** The words, one load at a time: the message itself unless a lap is begun under the copy. */
    method CopyWords(ghost prod: Producer, p: nat, ghost quiet: bool) returns (out: Words, ghost now: Producer)
      requires RingInv(ring.View(prod)) && p < ring.tail
      modifies ring, ring.slots
      ensures RingInv(ring.View(now)) && Grew(old(ring.View(prod)), ring.View(now))
      ensures quiet ==> now == prod && ring.View(prod) == old(ring.View(prod))
      ensures ring.front <= p + ring.cap ==> out == ring.made[p]
    {
      var i := Off(p, ring.cap);
      ghost var before := ring.View(prod);
      now, out := prod, [];
      GenerationIsUnique(before, p);
      for k := 0 to ring.words
        invariant RingInv(ring.View(now)) && Grew(before, ring.View(now))
        invariant quiet ==> now == prod && ring.View(prod) == before
        invariant |out| == k
        invariant ring.front <= p + ring.cap ==> |ring.made[p]| == ring.words && out == ring.made[p][..k]
      {
        ghost var msg, between := ring.made[p], ring.View(now);
        now := Pause(now, p, quiet);
        GrewTwice(before, between, ring.View(now));
        var word := ring.slots[i].data[k];
        assert ring.front <= p + ring.cap ==> word == msg[k] && out + [word] == msg[..k + 1];
        out := out + [word];
      }
    }

    /** Anybody may move; a message already published stays, and lies in its slot until a lap is begun. */
    method Pause(ghost prod: Producer, p: nat, ghost quiet: bool) returns (ghost now: Producer)
      requires RingInv(ring.View(prod)) && p < ring.tail
      modifies ring, ring.slots
      ensures RingInv(ring.View(now)) && Grew(old(ring.View(prod)), ring.View(now))
      ensures quiet ==> now == prod && ring.View(prod) == old(ring.View(prod))
      ensures p < ring.tail && ring.made[p] == old(ring.made[p]) && old(ring.front) <= ring.front
      ensures var s := ring.slots[Off(p, ring.cap)];
        && |s.data| == ring.words
        && (s.gen == 2 * p + 2 <==> ring.front <= p + ring.cap)
        && (ring.front <= p + ring.cap ==> s.data == ring.made[p])
    {
      now := ring.Others(prod, quiet);
      GenerationIsUnique(ring.View(now), p);
      assert ring.made[p] == ring.made[..old(ring.tail)][p] == old(ring.made[..ring.tail][p]);
    }

    /** To the tail, never backwards, leaving everything unread behind. */
    method SkipToLatest(ghost prod: Producer) returns (skipped: nat)
      requires Valid(prod)
      modifies this
      ensures Valid(prod) && tailCache == pos == ring.tail == old(pos) + skipped
    {
      tailCache := ring.tail;
      skipped := if tailCache > pos then tailCache - pos else 0;
      pos := Max(pos, tailCache);
    }

    /** What one pop must answer and where it must leave the position, when nobody else moves. */
    ghost predicate Answers(prod: Producer, p: nat, to: nat, e: Popped)
      requires RingInv(ring.View(prod))
      reads ring, ring.slots
    {
      if p >= ring.tail then to == p && e == (if ring.closed then Closed else Empty)
      else if ring.front <= p + ring.cap then to == p + 1 && e == Item(ring.made[p])
      else
        && p <= to && e == Lagged(to - p) && ring.tail + ring.slack <= to + ring.cap
        && (to == p || to + ring.cap == ring.tail + ring.slack)
    }

    /** What a pop's answer means, whatever happened meanwhile: an item is the published message at the old
        position, a loss is real and exact, and nothing is missed by `Empty` and `Closed`. */
    ghost predicate Justified(e: Popped, p: nat, tail0: nat)
      requires p <= tail0 <= ring.tail <= |ring.made|
      reads this, ring
    {
      match e
      case Item(msg) => pos == p + 1 <= ring.tail && msg == ring.made[p]
      case Lagged(n) =>
        && p + ring.cap < ring.front && pos == p + n && tail0 <= tailCache
        && tailCache + ring.slack <= pos + ring.cap && (n == 0 || pos + ring.cap == tailCache + ring.slack)
      case Empty => pos == p == tail0
      case Closed => pos == p == tail0 == tailCache == ring.tail
    }

    /** Every load of the pop in its order, with anybody moving between any two. A lapped reader is put
        `slack` above the oldest position the tail it then sees allows, or stays if it is there already. */
    method TryPop(ghost prod: Producer, ghost quiet: bool) returns (e: Popped, ghost now: Producer)
      requires Valid(prod)
      modifies this, ring, ring.slots
      ensures Valid(now) && Grew(old(ring.View(prod)), ring.View(now)) && Justified(e, old(pos), old(ring.tail))
      ensures e.Lagged? ==>
        && pos == old(pos) + e.missed && old(ring.tail) <= tailCache && tailCache + ring.slack <= pos + ring.cap
        && (e.missed == 0 || pos + ring.cap == tailCache + ring.slack)
      ensures quiet ==>
        now == prod && ring.View(prod) == old(ring.View(prod)) && Answers(prod, old(pos), pos, e)
      ensures quiet && e.Lagged? ==> tailCache == ring.tail
    {
      now := prod;
      ghost var before, p := ring.View(prod), pos;
      if tailCache <= pos {
        e, now := Refresh(now, quiet);
        if tailCache <= pos {
          return;
        }
      }
      ghost var found := ring.View(now);
      e, now := ReadSlot(now, quiet);
      GrewTwice(before, found, ring.View(now));
      assert Justified(e, p, found.tail);
    }

    /** The cached tail has nothing left: a fresh load, and before `Closed` is told a second one after the
        flag. Answers unless it finds a message. */
    method Refresh(ghost prod: Producer, ghost quiet: bool) returns (e: Popped, ghost now: Producer)
      requires Valid(prod) && tailCache <= pos
      modifies this`tailCache, ring, ring.slots
      ensures Valid(now) && Grew(old(ring.View(prod)), ring.View(now))
      ensures quiet ==> now == prod && ring.View(prod) == old(ring.View(prod))
      ensures tailCache <= pos ==> Justified(e, pos, old(ring.tail)) && (e.Empty? || e.Closed?)
      ensures tailCache <= pos && quiet ==> pos == ring.tail && e == if ring.closed then Closed else Empty
    {
      now, e := prod, Empty;
      tailCache := ring.tail;
      if tailCache <= pos {
        now := ring.Others(now, quiet);
        if ring.closed {
          now := ring.Others(now, quiet);
          tailCache := ring.tail;
          e := Closed;
        }
      }
    }

    method ReadSlot(ghost prod: Producer, ghost quiet: bool) returns (e: Popped, ghost now: Producer)
      requires Valid(prod) && pos < ring.tail
      modifies this, ring, ring.slots
      ensures Valid(now) && Grew(old(ring.View(prod)), ring.View(now)) && Justified(e, old(pos), old(ring.tail))
      ensures !e.Empty? && !e.Closed?
      ensures quiet ==>
        now == prod && ring.View(prod) == old(ring.View(prod)) && Answers(prod, old(pos), pos, e)
      ensures quiet && e.Lagged? ==> tailCache == ring.tail
    {
      ghost var before, p := ring.View(prod), pos;
      var ok, out;
      ok, out, now := ReadValid(prod, pos, quiet);
      if ok {
        pos := pos + 1;
        return Item(out), now;
      }
      ghost var failed := ring.View(now);
      now := ring.Others(now, quiet);
      GrewTwice(before, failed, ring.View(now));
      e := Reposition(now);
      assert Justified(e, p, before.tail);
    }

    /** Forward to the newest target the tail allows. */
    method Reposition(ghost prod: Producer) returns (e: Popped)
      requires Valid(prod) && pos + ring.cap < ring.front
      modifies this
      ensures Valid(prod) && tailCache == ring.tail && old(pos) <= pos && e == Lagged(pos - old(pos))
      ensures ring.tail + ring.slack <= pos + ring.cap
      ensures pos == old(pos) || pos + ring.cap == ring.tail + ring.slack
    {
      tailCache := ring.tail;
      var to := Max(RepositionTarget(tailCache, ring.cap, ring.slack), pos);
      e := Lagged(to - pos);
      pos := to;
    }

    /** Once closed and left alone, popping until `Closed` ends, having delivered exactly the messages still
        retained, in order, and counted exactly the ones that were not: to a reader that was lapped, the newest
        `cap - slack`, or all there are. `ElementClose.ClosedIsReachedIff` proves the condition exact: without
        it no number of pops gets there. */
    method DrainToClosed(ghost prod: Producer) returns (got: seq<Words>, missed: nat)
      requires Valid(prod) && ring.closed
      requires ring.slack >= 1 || ring.front <= ring.tail || ring.front <= pos + ring.cap
      modifies this, ring, ring.slots
      ensures Valid(prod) && ring.View(prod) == old(ring.View(prod)) && pos == ring.tail <= |ring.made|
      ensures old(pos) + missed + |got| == ring.tail
      ensures got == ring.made[ring.tail - |got|..ring.tail]
      ensures if old(pos) == ring.tail || ring.front <= old(pos) + ring.cap then missed == 0
              else |got| == if ring.tail <= ring.cap - ring.slack then ring.tail else ring.cap - ring.slack
    {
      got, missed := [], 0;
      BatchBelowCapacity(ring.cap, ring.slack);
      ghost var start: nat := StartsAt(pos, ring.tail, ring.front, ring.cap, ring.slack);
      var done := false;
      while !done
        invariant Valid(prod) && ring.View(prod) == old(ring.View(prod)) && ring.tail <= |ring.made|
        invariant old(pos) + missed + |got| == pos
        invariant if pos < start then got == [] && missed == 0
                  else got == ring.made[start..pos] && old(pos) + missed == start
        invariant start <= pos ==> pos < ring.tail ==> ring.front <= pos + ring.cap
        invariant pos < start ==>
          pos < ring.tail && ring.front > pos + ring.cap && start + ring.cap == ring.tail + ring.slack
        invariant done ==> pos == ring.tail
        decreases ring.tail - pos, if done then 0 else 1
      {
        var e, _ := TryPop(prod, true);
        match e {
          case Item(msg) => got := got + [msg];
          case Lagged(n) => missed := missed + n;
          case Closed => done := true;
          case Empty =>
        }
      }
    }
  }

  /** Where a drain from p starts: there if it is in place, else `slack` above the oldest the tail allows. */
  function StartsAt(p: nat, tail: nat, front: nat, cap: Size, slack: nat): (start: nat)
    requires slack < cap
  {
    if p >= tail || front <= p + cap || tail + slack < cap then p else tail + slack - cap
  }
}
