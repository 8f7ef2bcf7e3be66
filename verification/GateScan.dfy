/** An uninterrupted rescan: the selective refresh decides exactly as a full reload of every active
    cursor would. The producer's side is here in the source's own form, loop and all. */
module GateScan {
  import opened Framing
  import opened Gate
  import P = GateProof
  import T = GateTheorems

  /** The verdict of a scan left to finish undisturbed. */
  function Finish(g: Gate): Gate
    requires Scanning(g)
    decreases |g.slots| - g.prod.pc.i, if g.prod.pc.ScanDue? then 1 else 0
  {
    var h := Scan(g);
    if Scanning(h) then Finish(h) else h
  }

  predicate Scanning(g: Gate) {
    && g.prod.Up? && (g.prod.pc.ScanDue? || g.prod.pc.LoadDue?)
    && g.prod.pc.i <= |g.slots| && g.prod.pc.i <= |g.prod.cached|
    && (g.prod.pc.LoadDue? ==> g.prod.pc.i < |g.slots| && g.prod.pc.i < |g.prod.cached|)
  }

  /** Finishing is running the machine's own scan steps, nothing else in between. */
  lemma {:induction false} FinishIsARun(g: Gate)
    requires Scanning(g)
    ensures exists k: nat :: Finish(g) == Run(g, Scans(k))
    decreases |g.slots| - g.prod.pc.i, if g.prod.pc.ScanDue? then 1 else 0
  {
    var h := Scan(g);
    assert Scans(1)[..0] == [] && Run(g, Scans(1)) == h;
    if Scanning(h) {
      FinishIsARun(h);
      var k: nat :| Finish(h) == Run(h, Scans(k));
      ScanFirst(g, k);
      assert Finish(g) == Run(g, Scans(k + 1));
    } else {
      assert Finish(g) == Run(g, Scans(1));
    }
  }

  function Scans(k: nat): seq<Action> { seq(k, _ => DoScan) }

  lemma {:induction false} ScanFirst(g: Gate, k: nat)
    ensures Run(g, Scans(k + 1)) == Run(Scan(g), Scans(k))
  {
    assert Scans(k + 1)[..k] == Scans(k);
    if k == 0 {
      assert Scans(1)[..0] == [];
    } else {
      ScanFirst(g, k - 1);
      assert Scans(k)[..k - 1] == Scans(k - 1);
    }
  }

  // ------------------------------------------------------------------ the full reload

  /** A consumer the scan must respect: active, with a published cursor. */
  predicate Gating(s: Slot) { s.state.Active? && s.cursor.At? }

  predicate Quorum(g: Gate) { exists i: nat :: i < |g.slots| && Gating(g.slots[i]) }

  /** A full reload grants when no gating cursor is too far behind; with nobody gating it grants all
      but a whole capacity. */
  predicate FullGrants(g: Gate, needed: nat)
    requires g.prod.Up?
  {
    if Quorum(g) then
      forall i: nat | i < |g.slots| && Gating(g.slots[i]) :: g.prod.next + needed <= g.slots[i].cursor.v + g.cap
    else needed < g.cap
  }

  /** An active slot without a cursor, whose cached value from an earlier scan does not gate: the
      selective scan counts it as a consumer, a full reload would not. */
  predicate Shadow(g: Gate, i: nat, needed: nat)
    requires g.prod.Up? && i < |g.slots|
  {
    && g.slots[i].state.Active? && g.slots[i].cursor.Detached?
    && i < |g.prod.cached| && !LacksSpace(g.prod.next, needed, g.prod.cached[i], g.cap)
  }

  predicate HasShadow(g: Gate, needed: nat)
    requires g.prod.Up?
  {
    exists i: nat :: i < |g.slots| && Shadow(g, i, needed)
  }

  /** Some slot below `n` counts as a consumer... */
  predicate CountedBelow(g: Gate, needed: nat, n: nat)
    requires g.prod.Up? && n <= |g.slots|
  {
    n > 0 && (CountedBelow(g, needed, n - 1) || Gating(g.slots[n - 1]) || Shadow(g, n - 1, needed))
  }

  /** ...and some slot below `n` really is too far behind. */
  predicate BehindBelow(g: Gate, needed: nat, n: nat)
    requires g.prod.Up? && n <= |g.slots|
  {
    n > 0 && (BehindBelow(g, needed, n - 1)
              || (Gating(g.slots[n - 1]) && LacksSpace(g.prod.next, needed, g.slots[n - 1].cursor.v, g.cap)))
  }

  /** The scan so far is exact for the slots it has passed and has not touched the cache beyond. */
  predicate Tracks(g0: Gate, g: Gate, needed: nat)
    requires g0.prod.Up?
  {
    && Scanning(g) && g.prod.pc.needed == needed
    && g == g0.(prod := g.prod) && g.prod.next == g0.prod.next
    && 0 <= g.prod.pc.maxLag && |g0.prod.cached| <= |g.prod.cached|
    && g.prod.pc.any == CountedBelow(g0, needed, g.prod.pc.i)
    && (needed + g.prod.pc.maxLag > g.cap) == BehindBelow(g0, needed, g.prod.pc.i)
    && (forall i: nat | g.prod.pc.i <= i < |g.prod.cached| :: g.prod.cached[i] == CacheAt(g0, i))
    && (g.prod.pc.LoadDue? ==>
          g.slots[g.prod.pc.i].state.Active? && LacksSpace(g.prod.next, needed, g.prod.cached[g.prod.pc.i], g.cap))
  }

  function CacheAt(g: Gate, i: nat): int
    requires g.prod.Up?
  {
    if i < |g.prod.cached| then g.prod.cached[i] else g.prod.next - g.cap
  }

  lemma ScanTracks(g0: Gate, g: Gate, needed: nat)
    requires P.GateInv(g0) && g0.prod.Up? && Tracks(g0, g, needed) && 1 <= needed <= g.cap
    ensures Scanning(Scan(g)) ==> Tracks(g0, Scan(g), needed)
  {
    var i := g.prod.pc.i;
    if i < |g.slots| {
      assert P.SlotOk(g0, i);
      ScanTracksSlot(g0, g, needed);
    }
  }

  lemma ScanTracksSlot(g0: Gate, g: Gate, needed: nat)
    requires g0.prod.Up? && Tracks(g0, g, needed) && 1 <= needed <= g.cap
    requires g.prod.pc.i < |g.slots| && P.CacheOk(g0, g.prod.pc.i) && P.HolderOk(g0.tail, g0.slots[g.prod.pc.i])
    requires g0.tail == g0.prod.next && (forall k: nat | k < |g0.prod.cached| :: g0.prod.cached[k] <= g0.tail)
    ensures Tracks(g0, Scan(g), needed)
  {
    var i := g.prod.pc.i;
    if g.prod.pc.ScanDue? {
      var cached := Grown(g.prod.cached, i, g.prod.next - g.cap);
      assert cached[i] == CacheAt(g0, i);
    }
  }

  lemma {:induction false} FinishExact(g0: Gate, g: Gate, needed: nat)
    requires P.GateInv(g0) && g0.prod.Up? && Tracks(g0, g, needed) && 1 <= needed <= g.cap
    ensures var h := Finish(g); var n := |g.slots|;
      && h.prod.Up? && (h.prod.pc.Granted? || h.prod.pc.Idle?)
      && (h.prod.pc.Granted? <==> if CountedBelow(g0, needed, n) then !BehindBelow(g0, needed, n) else needed < g.cap)
    decreases |g.slots| - g.prod.pc.i, if g.prod.pc.ScanDue? then 1 else 0
  {
    ScanTracks(g0, g, needed);
    if Scanning(Scan(g)) {
      FinishExact(g0, Scan(g), needed);
    }
  }

  lemma {:induction false} CountedWitness(g: Gate, needed: nat, n: nat)
    requires g.prod.Up? && n <= |g.slots|
    ensures CountedBelow(g, needed, n) <==> exists i: nat :: i < n && (Gating(g.slots[i]) || Shadow(g, i, needed))
  {
    if n > 0 {
      CountedWitness(g, needed, n - 1);
    }
  }

  lemma {:induction false} BehindWitness(g: Gate, needed: nat, n: nat)
    requires g.prod.Up? && n <= |g.slots|
    ensures BehindBelow(g, needed, n) <==>
      exists i: nat :: i < n && Gating(g.slots[i]) && LacksSpace(g.prod.next, needed, g.slots[i].cursor.v, g.cap)
  {
    if n > 0 {
      BehindWitness(g, needed, n - 1);
    }
  }

  /** The cached check has failed and the scan begins. */
  function Begin(g: Gate, needed: nat): Gate
    requires g.prod.Up?
  {
    g.(prod := g.prod.(pc := ScanDue(needed, 0, false, 0)))
  }

  lemma BeginOk(g: Gate, needed: nat)
    requires P.GateInv(g) && g.prod.Up? && g.prod.pc.Idle? && 1 <= needed <= g.cap
    ensures P.GateInv(Begin(g, needed)) && Tracks(Begin(g, needed), Begin(g, needed), needed)
  {
    var h := Begin(g, needed);
    forall i: nat | i < |h.slots| ensures P.SlotOk(h, i) {
      assert P.SlotOk(g, i);
    }
  }

  /** The selective scan of a sound state, against the full reload. */
  lemma ScanVerdict(g: Gate, needed: nat)
    requires P.GateInv(g) && g.prod.Up? && g.prod.pc.Idle? && 1 <= needed <= g.cap
    ensures Scanning(Begin(g, needed)) &&
      var h := Finish(Begin(g, needed));
      && h.prod.Up? && (h.prod.pc == Granted(needed) || h.prod.pc.Idle?)
      && (h.prod.pc.Granted? <==>
            FullGrants(g, needed) || (needed == g.cap && !Quorum(g) && HasShadow(g, needed)))
  {
    var b := Begin(g, needed);
    BeginOk(g, needed);
    FinishExact(b, b, needed);
    CountedWitness(b, needed, |g.slots|);
    BehindWitness(b, needed, |g.slots|);
    SameTable(g, b, needed);
    FinishNeeds(b, needed);
  }

  /** Selective refresh refines the full scan: after any history of claims, departures, retirements and
      slot reuse, the scan grants exactly when reloading every active cursor would. The one exception needs
      a request for the whole capacity, which no ring makes: element rings ask for one unit of at least two,
      byte rings for spans below the capacity (`Framing.SpanBelowCapacity`, `Release.NarrowSpanBelowCapacity`). */
  lemma SelectiveRefinesFull(cap: Size, n: nat, actions: seq<Action>, needed: nat)
    requires var g := Run(Start(cap, n), actions); g.prod.Up? && g.prod.pc.Idle?
    requires 1 <= needed <= cap
    ensures var g := Run(Start(cap, n), actions);
      Scanning(Begin(g, needed)) &&
      var h := Finish(Begin(g, needed));
      && h.prod.Up? && (h.prod.pc == Granted(needed) || h.prod.pc.Idle?)
      && (h.prod.pc.Granted? <==>
            FullGrants(g, needed) || (needed == cap && !Quorum(g) && HasShadow(g, needed)))
  {
    P.StartOk(cap, n);
    P.RunKeeps(Start(cap, n), actions);
    ScanVerdict(Run(Start(cap, n), actions), needed);
  }

  lemma SameTable(g: Gate, b: Gate, needed: nat)
    requires g.prod.Up? && b == Begin(g, needed)
    ensures FullGrants(b, needed) == FullGrants(g, needed) && Quorum(b) == Quorum(g)
    ensures HasShadow(b, needed) == HasShadow(g, needed)
  {
    if HasShadow(g, needed) {
      var i: nat :| i < |g.slots| && Shadow(g, i, needed);
      assert Shadow(b, i, needed);
    }
    if HasShadow(b, needed) {
      var i: nat :| i < |b.slots| && Shadow(b, i, needed);
      assert Shadow(g, i, needed);
    }
  }

  lemma {:induction false} FinishNeeds(g: Gate, needed: nat)
    requires Scanning(g) && g.prod.pc.needed == needed
    ensures Finish(g).prod.Up? && (Finish(g).prod.pc.Granted? ==> Finish(g).prod.pc.needed == needed)
    decreases |g.slots| - g.prod.pc.i, if g.prod.pc.ScanDue? then 1 else 0
  {
    if Scanning(Scan(g)) {
      FinishNeeds(Scan(g), needed);
    }
  }

  /** Everybody left has published everything. */
  predicate Drained(g: Gate) { forall i: nat | i < |g.slots| && Gating(g.slots[i]) :: g.slots[i].cursor.v == g.tail }

  lemma DrainedGrants(g: Gate, needed: nat)
    requires P.GateInv(g) && g.prod.Up? && g.prod.pc.Idle? && Drained(g) && 1 <= needed < g.cap
    ensures Scanning(Begin(g, needed)) && Finish(Begin(g, needed)).prod.Up?
            && Finish(Begin(g, needed)).prod.pc == Granted(needed)
  {
    ScanVerdict(g, needed);
  }

  /** No deadlock by deferral: once every consumer has published everything (or nobody is left), any
      request short of the whole capacity is granted, at any position. */
  lemma DrainedRingFits(cap: Size, n: nat, actions: seq<Action>, needed: nat)
    requires var g := Run(Start(cap, n), actions); g.prod.Up? && g.prod.pc.Idle? && Drained(g)
    requires 1 <= needed < cap
    ensures var g := Run(Start(cap, n), actions);
      Scanning(Begin(g, needed)) && Finish(Begin(g, needed)).prod.Up?
      && Finish(Begin(g, needed)).prod.pc == Granted(needed)
  {
    P.StartOk(cap, n);
    P.RunKeeps(Start(cap, n), actions);
    DrainedGrants(Run(Start(cap, n), actions), needed);
  }

  /** One slot passed: a control-word load and, where the cache does not suffice, a cursor load. */
  function Pass(g: Gate): Gate
    requires Scanning(g) && g.prod.pc.ScanDue? && g.prod.pc.i < |g.slots|
  {
    if Scan(g).prod.pc.LoadDue? then Scan(Scan(g)) else Scan(g)
  }

  lemma PassFinishes(g: Gate)
    requires Scanning(g) && g.prod.pc.ScanDue? && g.prod.pc.i < |g.slots|
    ensures Scanning(Pass(g)) && Finish(Pass(g)) == Finish(g)
  {
  }

  /** What passing a slot makes of the cache and the running maximum. */
  lemma PassShape(g: Gate, needed: nat, i: nat, any: bool, maxLag: int)
    requires Scanning(g) && g.prod.pc == ScanDue(needed, i, any, maxLag) && i < |g.slots|
    ensures var cached := Grown(g.prod.cached, i, g.prod.next - g.cap); var s := g.slots[i];
      i < |cached| && Pass(g) == g.(prod :=
        if !s.state.Active? then g.prod.(cached := cached, pc := ScanDue(needed, i + 1, any, maxLag))
        else if !LacksSpace(g.prod.next, needed, cached[i], g.cap) then
          g.prod.(cached := cached, pc := ScanDue(needed, i + 1, true, MaxOf(maxLag, g.prod.next - cached[i])))
        else if s.cursor.Detached? then g.prod.(cached := cached, pc := ScanDue(needed, i + 1, any, maxLag))
        else g.prod.(cached := cached[i := s.cursor.v],
                     pc := ScanDue(needed, i + 1, true, MaxOf(maxLag, g.prod.next - s.cursor.v))))
  {
  }

  /** The walk over, the verdict. */
  lemma VerdictIs(g: Gate, needed: nat, any: bool, maxLag: int)
    requires Scanning(g) && g.prod.pc == ScanDue(needed, |g.slots|, any, maxLag)
    ensures var min := if any then g.prod.next - maxLag else g.prod.next - 1;
      Finish(g) == g.(prod := g.prod.(cachedMin := min,
                                      pc := if g.prod.next + needed - min > g.cap then Idle else Granted(needed)))
  {
  }

  // ------------------------------------------------------------------ the producer, as written

  /** The scan counts slot i: it is active, with a published cursor or a cached one that does not gate. */
  predicate Counts(table: seq<Slot>, cached: seq<int>, next: nat, cap: Size, needed: nat, i: nat) {
    && i < |table| && i < |cached| && table[i].state.Active?
    && (table[i].cursor.At? || next + needed <= cached[i] + cap)
  }

  /** The minimum is that of the counted slots' cached cursors and the next position, or one below it if no
      slot counts. */
  ghost predicate LeastCounted(table: seq<Slot>, cached: seq<int>, next: nat, cap: Size, needed: nat, min: int) {
    if exists i: nat :: Counts(table, cached, next, cap, needed, i) then
      && min <= next && (min == next || exists i: nat :: i < |table| && i < |cached| && min == cached[i])
      && (forall i: nat | Counts(table, cached, next, cap, needed, i) :: min <= cached[i])
    else min == next - 1
  }

  /** The walk has passed the slots below i: `counted` and `behind` are witnesses. */
  ghost predicate Walked(table: seq<Slot>, cached: seq<int>, next: nat, cap: Size, needed: nat, i: nat, any: bool,
                         maxLag: int, counted: nat, behind: nat)
  {
    && i <= |cached| && maxLag >= 0
    && (forall k: nat | k < i && Counts(table, cached, next, cap, needed, k) :: any && next - cached[k] <= maxLag)
    && (any ==> counted < i && Counts(table, cached, next, cap, needed, counted))
    && (maxLag == 0 || (behind < i && maxLag == next - cached[behind]))
  }

  lemma WalkedOn(table: seq<Slot>, cached: seq<int>, cached': seq<int>, next: nat, cap: Size, needed: nat, i: nat,
                 any: bool, any': bool, maxLag: int, maxLag': int, counted: nat, behind: nat)
    requires Walked(table, cached, next, cap, needed, i, any, maxLag, counted, behind)
    requires i + 1 <= |cached'| && cached'[..i] == cached[..i]
    requires maxLag <= maxLag' && (maxLag' == maxLag || maxLag' == next - cached'[i])
    requires var now := Counts(table, cached', next, cap, needed, i);
      any' == (any || now) && (now ==> next - cached'[i] <= maxLag')
    ensures Walked(table, cached', next, cap, needed, i + 1, any', maxLag', if any' && !any then i else counted,
                   if maxLag' != maxLag then i else behind)
  {
    forall k: nat | k < i + 1 && Counts(table, cached', next, cap, needed, k)
      ensures any' && next - cached'[k] <= maxLag'
    {
      if k < i {
        assert cached'[..i][k] == cached[..i][k] && Counts(table, cached, next, cap, needed, k);
      }
    }
    if any {
      assert cached'[..i][counted] == cached[..i][counted];
    }
    if maxLag > 0 {
      assert cached'[..i][behind] == cached[..i][behind];
    }
  }

  lemma WalkedAll(table: seq<Slot>, cached: seq<int>, next: nat, cap: Size, needed: nat, any: bool, maxLag: int,
                  counted: nat, behind: nat)
    requires Walked(table, cached, next, cap, needed, |table|, any, maxLag, counted, behind)
    ensures LeastCounted(table, cached, next, cap, needed, if any then next - maxLag else next - 1)
  {
    if any {
      assert Counts(table, cached, next, cap, needed, counted);
    }
  }

  /** The producer's side of the gate over a table nobody is changing. */
  class GateProducer {
    const capacity: Size
    const table: array<Slot>
    var next: nat
    var cachedMin: int
    var cached: seq<int>
    /** The shared starving word of the byte rings, and whether this producer raised it. */
    var starving: nat
    var raised: bool

    constructor (capacity: Size, table: array<Slot>, tail: nat)
      ensures this.capacity == capacity && this.table == table
      ensures next == tail && cachedMin == tail - capacity && cached == []
    {
      this.capacity, this.table := capacity, table;
      next, cachedMin, cached := tail, tail - capacity, [];
      starving, raised := 0, false;
    }

    /** The machine state this object stands for. */
    function View(pc: Pc): Gate
      reads this, table
    {
      Gate(capacity, next, next, table[..], Up(next, cachedMin, cached, pc), [])
    }

    /** One slot of the walk. */
    method Visit(needed: nat, i: nat, any: bool, maxLag: int) returns (any': bool, maxLag': int)
      requires i < table.Length && i <= |cached|
      modifies this`cached
      ensures View(ScanDue(needed, i + 1, any', maxLag')) == Pass(old(View(ScanDue(needed, i, any, maxLag))))
      ensures i + 1 <= |cached| && cached[..i] == old(cached[..i])
      ensures |cached| == old(|cached|) + if old(|cached|) <= i then 64 else 0
      ensures maxLag <= maxLag' && (maxLag' == maxLag || maxLag' == next - cached[i])
      ensures var now := Counts(table[..], cached, next, capacity, needed, i);
        any' == (any || now) && (now ==> next - cached[i] <= maxLag')
    {
      PassShape(View(ScanDue(needed, i, any, maxLag)), needed, i, any, maxLag);
      any', maxLag' := any, maxLag;
      cached := Grown(cached, i, next - capacity);
      if !table[i].state.Active? {
        return;
      }
      var cursor := cached[i];
      if LacksSpace(next, needed, cursor, capacity) {
        match table[i].cursor {
          case Detached => return;
          case At(v) =>
            cached := cached[i := v];
            cursor := v;
        }
      }
      any', maxLag' := true, MaxOf(maxLag, next - cursor);
    }

    /** One full pass over the table: the new minimum is that of the counted slots' cached cursors, the next
        position at most, and one below it when no slot counts. */
    method Rescan(needed: nat) returns (ok: bool)
      modifies this`cachedMin, this`cached
      ensures View(if ok then Granted(needed) else Idle) == Finish(old(View(ScanDue(needed, 0, false, 0))))
      ensures ok <==> next + needed <= cachedMin + capacity
      ensures LeastCounted(table[..], cached, next, capacity, needed, cachedMin)
    {
      var any, maxLag;
      ghost var counted, behind;
      any, maxLag, counted, behind := Walk(needed);
      WalkedAll(table[..], cached, next, capacity, needed, any, maxLag, counted, behind);
      VerdictIs(View(ScanDue(needed, |table[..]|, any, maxLag)), needed, any, maxLag);
      cachedMin := if any then next - maxLag else next - 1;
      ok := !LacksSpace(next, needed, cachedMin, capacity);
    }

    method Walk(needed: nat) returns (any: bool, maxLag: int, ghost counted: nat, ghost behind: nat)
      modifies this`cached
      ensures |table[..]| <= |cached|
      ensures Finish(View(ScanDue(needed, |table[..]|, any, maxLag))) == Finish(old(View(ScanDue(needed, 0, false, 0))))
      ensures Walked(table[..], cached, next, capacity, needed, |table[..]|, any, maxLag, counted, behind)
    {
      any, maxLag := false, 0;
      counted, behind := 0, 0;
      ghost var start := View(ScanDue(needed, 0, false, 0));
      for i := 0 to table.Length
        invariant i <= |cached|
        invariant Finish(View(ScanDue(needed, i, any, maxLag))) == Finish(start)
        invariant Walked(table[..], cached, next, capacity, needed, i, any, maxLag, counted, behind)
      {
        PassFinishes(View(ScanDue(needed, i, any, maxLag)));
        any, maxLag, counted, behind := VisitNext(needed, i, any, maxLag, counted, behind);
      }
    }

    method VisitNext(needed: nat, i: nat, any: bool, maxLag: int, ghost counted: nat, ghost behind: nat)
      returns (any': bool, maxLag': int, ghost counted': nat, ghost behind': nat)
      requires i < table.Length && i <= |cached|
      requires Walked(table[..], cached, next, capacity, needed, i, any, maxLag, counted, behind)
      modifies this`cached
      ensures View(ScanDue(needed, i + 1, any', maxLag')) == Pass(old(View(ScanDue(needed, i, any, maxLag))))
      ensures i + 1 <= |cached|
      ensures Walked(table[..], cached, next, capacity, needed, i + 1, any', maxLag', counted', behind')
    {
      ghost var before := cached;
      any', maxLag' := Visit(needed, i, any, maxLag);
      WalkedOn(table[..], before, cached, next, capacity, needed, i, any, any', maxLag, maxLag', counted, behind);
      counted' := if any' && !any then i else counted;
      behind' := if maxLag' != maxLag then i else behind;
    }

    /** The cached check first; on a miss, one rescan. */
    method HasSpace(needed: nat) returns (ok: bool)
      modifies this
      ensures next == old(next) && starving == old(starving) && raised == old(raised)
      ensures ok <==> next + needed <= cachedMin + capacity
      ensures next + needed <= old(cachedMin) + capacity ==> cachedMin == old(cachedMin) && cached == old(cached)
      ensures next + needed > old(cachedMin) + capacity ==>
        View(if ok then Granted(needed) else Idle) == Finish(old(View(ScanDue(needed, 0, false, 0))))
    {
      if !LacksSpace(next, needed, cachedMin, capacity) {
        return true;
      }
      ok := Rescan(needed);
    }

    /** The byte rings' check also keeps the starving word: raised with the blocked push's own span when
        even a rescan leaves no room, kept while space appears only by rescanning, cleared by a
        comfortable success. */
    method HasSpaceOrStarve(needed: nat) returns (ok: bool)
      modifies this
      ensures next == old(next) && (ok <==> next + needed <= cachedMin + capacity)
      ensures next + needed <= old(cachedMin) + capacity ==>
        && cachedMin == old(cachedMin) && cached == old(cached)
        && !raised && starving == if old(raised) then 0 else old(starving)
      ensures next + needed > old(cachedMin) + capacity ==>
        && View(if ok then Granted(needed) else Idle) == Finish(old(View(ScanDue(needed, 0, false, 0))))
        && (if ok then starving == old(starving) && raised == old(raised) else starving == needed && raised)
    {
      if LacksSpace(next, needed, cachedMin, capacity) {
        ok := Rescan(needed);
        if ok {
          return;
        }
        if starving != needed {
          starving := needed;
        }
        raised := true;
        return;
      }
      if raised {
        raised := false;
        starving := 0;
      }
      ok := true;
    }
  }
}
