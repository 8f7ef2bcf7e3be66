/** A gating consumer's deferred releases: what it may hold back, when it must let go, and why a starving
    producer is always heard by the consumer that gates it. */
module Release {
  import opened Framing
  import G = Gate
  import P = GateProof
  import S = GateScan

  /** The lag filter of the starving release, against the blocked push's span. */
  predicate Passes(tailCache: nat, published: nat, cap: Size, span: nat) {
    span != 0 && tailCache - published >= cap - span
  }

  /** The filter admits exactly the consumers that would gate a push one unit wider: every true gate, and
      beyond them only one standing precisely on the threshold. */
  lemma FilterIsExact(tail: nat, published: nat, cap: Size, span: nat)
    requires 1 <= span <= cap
    ensures Passes(tail, published, cap, span) <==> tail + span >= published + cap
    ensures Passes(tail, published, cap, span) <==> G.LacksSpace(tail, span + 1, published, cap)
    ensures G.LacksSpace(tail, span, published, cap) ==> Passes(tail, published, cap, span)
  {
  }

  /** A refused scan that nobody disturbs has a consumer that gates it, and that consumer, once it knows the
      tail, passes the filter with the span the producer publishes. */
  lemma RefusalAtRest(g: G.Gate, span: nat)
    requires P.GateInv(g) && g.prod.Up? && g.prod.pc.Idle? && 1 <= span < g.cap
    requires S.Scanning(S.Begin(g, span)) && S.Finish(S.Begin(g, span)).prod.Up?
             && S.Finish(S.Begin(g, span)).prod.pc.Idle?
    ensures exists i: nat :: i < |g.slots| && S.Gating(g.slots[i])
              && g.tail + span > g.slots[i].cursor.v + g.cap
              && Passes(g.tail, g.slots[i].cursor.v, g.cap, span)
  {
    S.ScanVerdict(g, span);
    assert !S.FullGrants(g, span) && S.Quorum(g);
    var i: nat :| i < |g.slots| && S.Gating(g.slots[i]) && g.prod.next + span > g.slots[i].cursor.v + g.cap;
    FilterIsExact(g.tail, g.slots[i].cursor.v, g.cap, span);
  }

  // ------------------------------------------------------------------ a scan in the middle of everything

  /** Anything but another move of the scanning producer. */
  predicate Alongside(a: G.Action) { G.OnSlot(a) || a.DoClaim? || a.DoScan? }

  /** Slot k's cursor blocks a push of this span, and its holder, knowing the tail, would pass the filter:
      an active consumer, or one retired meanwhile, which no later scan counts. */
  predicate Blocks(g: G.Gate, k: nat, span: nat) {
    && k < |g.slots| && g.slots[k].cursor.At? && !g.slots[k].state.Free?
    && g.tail + span > g.slots[k].cursor.v + g.cap && Passes(g.tail, g.slots[k].cursor.v, g.cap, span)
  }

  predicate BlockedAt(g: G.Gate, actions: seq<G.Action>, j: nat, k: nat, span: nat) {
    j <= |actions| && Blocks(G.Run(g, actions[..j]), k, span)
  }

  ghost predicate SomebodyBlocks(g: G.Gate, actions: seq<G.Action>, span: nat) {
    exists j: nat, k: nat :: BlockedAt(g, actions, j, k, span)
  }

  lemma BlockedBefore(g: G.Gate, actions: seq<G.Action>, span: nat)
    requires actions != [] && SomebodyBlocks(g, actions[..|actions| - 1], span)
    ensures SomebodyBlocks(g, actions, span)
  {
    var j: nat, k: nat :| BlockedAt(g, actions[..|actions| - 1], j, k, span);
    assert actions[..|actions| - 1][..j] == actions[..j];
    assert BlockedAt(g, actions, j, k, span);
  }

  predicate LagOk(span: nat, cap: Size, any: bool, maxLag: int, blocked: bool) {
    (span + maxLag > cap ==> blocked) && (!any ==> maxLag == 0)
  }

  /** A scan for `span` units, wherever it has got to; its running maximum blocks only if `blocked`. */
  predicate ScanningFor(g: G.Gate, span: nat, blocked: bool) {
    && g.prod.Up?
    && match g.prod.pc
       case ScanDue(needed, _, any, maxLag) => needed == span && LagOk(span, g.cap, any, maxLag, blocked)
       case LoadDue(needed, _, any, maxLag) => needed == span && LagOk(span, g.cap, any, maxLag, blocked)
       case Idle => blocked
       case Granted(needed) => needed == span
       case _ => false
  }

  lemma ScanMoves(g: G.Gate, span: nat, blocked: bool)
    requires P.GateInv(g) && ScanningFor(g, span, blocked) && 1 <= span < g.cap
    ensures ScanningFor(G.Scan(g), span, blocked || (g.prod.pc.LoadDue? && Blocks(g, g.prod.pc.i, span)))
  {
    if g.prod.pc.LoadDue? {
      assert P.SlotOk(g, g.prod.pc.i);
    }
  }

  lemma StepMoves(g: G.Gate, a: G.Action, span: nat, blocked: bool)
    requires P.GateInv(g) && ScanningFor(g, span, blocked) && 1 <= span < g.cap && Alongside(a)
    ensures var blocked' := blocked || (g.prod.pc.LoadDue? && Blocks(g, g.prod.pc.i, span));
      ScanningFor(G.Apply(g, a), span, blocked') && G.Apply(g, a).tail == g.tail && G.Apply(g, a).cap == g.cap
  {
    if a.DoScan? {
      ScanMoves(g, span, blocked);
    }
  }

  lemma {:induction false} ScanInTheMiddle(g: G.Gate, actions: seq<G.Action>, span: nat)
    requires P.GateInv(g) && g.prod.Up? && g.prod.pc == G.ScanDue(span, 0, false, 0) && 1 <= span < g.cap
    requires forall a | a in actions :: Alongside(a)
    ensures var u := G.Run(g, actions);
      P.GateInv(u) && ScanningFor(u, span, SomebodyBlocks(g, actions, span)) && u.tail == g.tail && u.cap == g.cap
  {
    if actions != [] {
      var n := |actions| - 1;
      ScanInTheMiddle(g, actions[..n], span);
      var t := G.Run(g, actions[..n]);
      P.ApplyKeeps(t, actions[n]);
      StepMoves(t, actions[n], span, SomebodyBlocks(g, actions[..n], span));
      if SomebodyBlocks(g, actions[..n], span) {
        BlockedBefore(g, actions, span);
      }
      if t.prod.pc.LoadDue? && Blocks(t, t.prod.pc.i, span) {
        assert BlockedAt(g, actions, n, t.prod.pc.i, span);
      }
    }
  }

  /** A starving producer is always heard: whatever claims, releases, departures and retirements the scan
      runs among, if it refuses then somebody's cursor stood in the way while it ran, and that consumer,
      once it knows the tail, passes the filter with the span the producer then publishes. */
  lemma StarvationIsHeard(cap: Size, n: nat, before: seq<G.Action>, during: seq<G.Action>, span: nat)
    requires 1 <= span < cap && (forall a | a in during :: Alongside(a))
    requires var g := G.Run(G.Start(cap, n), before); g.prod.Up? && g.prod.pc.Idle?
    requires var u := G.Run(S.Begin(G.Run(G.Start(cap, n), before), span), during); u.prod.Up? && u.prod.pc.Idle?
    ensures SomebodyBlocks(S.Begin(G.Run(G.Start(cap, n), before), span), during, span)
  {
    P.StartOk(cap, n);
    P.RunKeeps(G.Start(cap, n), before);
    var g := G.Run(G.Start(cap, n), before);
    S.BeginOk(g, span);
    ScanInTheMiddle(S.Begin(g, span), during, span);
  }

  // ------------------------------------------------------------------ the gated byte ring's framing

  /** Its records are aligned to four bytes and capped at half the ring. */
  function NarrowRecordLen(len: nat): nat { (4 + len + 3) / 4 * 4 }

  /** So a blocked push never needs the whole ring: its span stays one alignment unit short, and the
      threshold `capacity - span` never underflows. */
  lemma NarrowSpanBelowCapacity(cap: Size, next: nat, len: nat)
    requires LegalCapacity(cap) && next % 4 == 0 && 4 + len <= cap / 2
    ensures var record, toEnd := NarrowRecordLen(len), cap - next % cap;
      && 4 + len <= record < 8 + len && record % 4 == 0
      && 0 < (if record <= toEnd then record else toEnd + record) <= cap - 4
  {
    OffIsRemainder(next, cap);
    LegalCapacityIsAligned(cap);
    OffAlignedFour(next, cap);
    var q, half := (4 + len + 3) / 4, cap / 8;
    assert cap == 8 * half && 4 * q <= 4 + len + 3;
    assert q <= half;
    var o := Off(next, cap) / 4;
    assert Off(next, cap) == 4 * o;
  }

  class SharedWords {
    var tail: nat
    var starving: nat
    var cursor: nat
  }

  class GatingConsumer {
    const cap: Size
    /** The ring family's bound on deferral: 4096 bytes or 64 elements. */
    const max: Size
    const batch: nat
    const words: SharedWords
    var read: nat
    var published: nat
    var tailCache: nat
    ghost var join: nat

    /** The table slot this consumer holds, as the gate's machine sees it. */
    ghost function View(epoch: nat): G.Slot
      reads this, words
    {
      G.Slot(epoch, G.Active, G.At(words.cursor), G.Live(join, read, published, tailCache))
    }

    ghost predicate Sane()
      reads this, words
    {
      && join <= published <= read <= tailCache <= words.tail && words.cursor == published
      && batch == PublishBatch(cap, max) && words.starving <= cap
    }

    /** Deferral is bounded, and a consumer that sees nothing more has let everything go. */
    ghost predicate Valid()
      reads this, words
    {
      Sane() && read - published < batch && (read == tailCache ==> published == read)
    }

    constructor (cap: Size, max: Size, words: SharedWords)
      requires words.cursor <= words.tail && words.starving <= cap
      modifies words
      ensures Valid() && this.cap == cap && this.max == max && this.words == words
      ensures join == published == read == tailCache == words.cursor == words.tail == old(words.tail)
    {
      this.cap, this.max, this.batch, this.words := cap, max, PublishBatch(cap, max), words;
      read, published, tailCache, join := words.tail, words.tail, words.tail, words.tail;
      words.cursor := words.tail;
    }

    method Flush()
      requires Sane()
      modifies this`published, words`cursor
      ensures Sane() && published == read
      ensures forall e: nat :: View(e) == G.FlushStep(old(View(e)))
    {
      words.cursor := read;
      published := read;
    }

    method FlushPending()
      requires Sane()
      modifies this`published, words`cursor
      ensures Sane() && published == read
    {
      if read != published {
        Flush();
      }
    }

    /** Releasing `amount` units: a read step of the machine, followed by a flush exactly when a push is
        starving and this consumer lags it by all but its span, when it is caught up, or when what it holds
        back has reached an eighth of the ring or the family's bound. */
    method Advance(amount: nat) returns (ghost flushed: bool)
      requires Sane() && read + amount <= tailCache
      modifies this`read, this`published, words`cursor
      ensures Valid() && read == old(read) + amount
      ensures flushed <==>
        || (words.starving != 0 && tailCache - old(published) + words.starving >= cap)
        || read == tailCache
        || (read > old(published) && (read - old(published) >= max || 8 * (read - old(published) + 1) > cap))
      ensures published == if flushed then read else old(published)
      ensures forall e: nat ::
        View(e) == var s := G.ReadStep(old(View(e)), amount); if flushed then G.FlushStep(s) else s
    {
      var span := words.starving;
      var publishNow := span != 0 && tailCache - published >= cap - span;
      read := read + amount;
      flushed := false;
      if publishNow || read == tailCache || read - published >= batch {
        Flush();
        flushed := true;
      }
    }

    /** While a push of the published span is blocked on this consumer, its next release, tail known,
        reaches the producer. */
    method ReleaseToStarving(amount: nat)
      requires Sane() && read + amount <= tailCache && tailCache == words.tail
      requires words.starving > 0 && words.tail + words.starving > published + cap
      modifies this`read, this`published, words`cursor
      ensures Valid() && read == old(read) + amount && published == words.cursor == read
    {
      ghost var flushed := Advance(amount);
    }

    /** Whoever finds the ring empty holds nothing back. */
    method HasItem() returns (some: bool)
      requires Valid()
      modifies this`tailCache
      ensures Valid() && some == (read < words.tail) && (some ==> read < tailCache)
      ensures tailCache == if old(tailCache) == read then words.tail else old(tailCache)
      ensures !some ==> words.cursor == published == read == words.tail
    {
      if tailCache == read {
        tailCache := words.tail;
        if tailCache == read {
          return false;
        }
      }
      some := true;
    }
  }
}
