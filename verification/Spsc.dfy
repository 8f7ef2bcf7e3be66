/** The single-consumer engine with cursors that wrap at the machine word, and the element queue on it:
    it simulates unbounded counters, so it is a FIFO for any number of operations. */
module Spsc {
  import opened Framing

  // ------------------------------------------------------------------ wrapped cursors

  function WrapAdd(a: nat, k: nat, word: Size): (r: nat)
    requires a < word && k < word
    ensures r < word
  {
    if a + k < word then a + k else a + k - word
  }

  function WrapSub(a: nat, b: nat, word: Size): (r: nat)
    requires a < word && b < word
    ensures r < word
  {
    if b <= a then a - b else a + word - b
  }

  /** A legal geometry: the capacity divides the word and is at most half of it, and the word has room for
      one more than a full queue. */
  predicate WordGeometry(cap: Size, word: Size) { Off(word, cap) == 0 && 2 * cap <= word && cap + 1 < word }

  /** Which every power of two is for every larger one, from a word of two bits on. */
  lemma PowersAreLegal(k: nat, w: nat)
    requires k < w && 2 <= w
    ensures WordGeometry(Doubled(1, k), Doubled(1, w))
  {
    DoubledDivides(k, w);
  }

  lemma {:induction false} DoubledDivides(k: nat, w: nat)
    requires k <= w
    ensures Off(Doubled(1, w), Doubled(1, k)) == 0
    ensures k < w ==> 2 * Doubled(1, k) <= Doubled(1, w)
    ensures k < w && w >= 2 ==> Doubled(1, k) + 1 < Doubled(1, w)
  {
    if k < w {
      DoubledDivides(k, w - 1);
      OffShift(Doubled(1, w - 1), Doubled(1, w - 1), Doubled(1, k));
    }
  }

  lemma {:induction false} WrapAdds(n: nat, k: nat, word: Size)
    requires k < word
    ensures WrapAdd(Off(n, word), k, word) == Off(n + k, word)
  {
    if n >= word {
      WrapAdds(n - word, k, word);
    }
  }

  /** The wrapped distance between cursors less than a word apart is the true one. */
  lemma {:induction false} WrapSubs(n: nat, d: nat, word: Size)
    requires d < word
    ensures WrapSub(Off(n + d, word), Off(n, word), word) == d
  {
    if n >= word {
      WrapSubs(n - word, d, word);
    }
  }

  /** Masking a wrapped cursor designates the slot the unbounded one does. */
  lemma {:induction false} MaskSurvivesWrap(n: nat, cap: Size, word: Size)
    requires Off(word, cap) == 0
    ensures Off(Off(n, word), cap) == Off(n, cap)
  {
    if n >= word {
      MaskSurvivesWrap(n - word, cap, word);
      OffShift(n - word, word, cap);
    }
  }

  lemma {:induction false} OffShift(n: nat, m: nat, cap: Size)
    requires Off(m, cap) == 0
    ensures Off(n + m, cap) == Off(n, cap)
  {
    if m >= cap {
      OffShift(n, m - cap, cap);
    }
  }

  predicate LacksSpace(write: nat, needed: nat, read: nat, cap: Size, word: Size)
    requires write < word && needed < word && read < word
  {
    WrapSub(WrapAdd(write, needed, word), read, word) > cap
  }

  /** The wrapped fullness test is the true one exactly while the request fits the word beside what is
      queued: a whole-capacity request on a full half-word ring would be granted by mistake. */
  lemma FullnessIsExact(read: nat, queued: nat, needed: nat, cap: Size, word: Size)
    requires WordGeometry(cap, word) && queued <= cap && needed <= cap
    ensures var w, r := Off(read + queued, word), Off(read, word);
      (LacksSpace(w, needed, r, cap, word) <==> queued + needed > cap) <==> queued + needed < word
  {
    WrapAdds(read + queued, needed, word);
    if queued + needed < word {
      WrapSubs(read, queued + needed, word);
    } else {
      OffOfWord(read, word);
    }
  }

  lemma {:induction false} OffOfWord(n: nat, word: Size)
    ensures Off(n + word, word) == Off(n, word)
  {
  }

  // ------------------------------------------------------------------ the queue

  datatype Cell = Empty | Full(v: int)

  datatype Option<T> = None | Some(value: T)

  const MAX_PUBLISH_BATCH: Size := 64

  class Queue {
    const cap: Size
    const word: Size
    const slots: array<Cell>
    // shared words
    var writeWord: nat
    var readWord: nat
    var starving: bool
    // producer side
    var write: nat
    var readCache: nat
    var raised: bool
    // consumer side
    var read: nat
    var published: nat
    var writeCache: nat
    /** Values dropped in place by the queue itself, in order. */
    var dropped: seq<int>
    // unbounded counterparts
    ghost var sent: seq<int>
    ghost var gRead: nat
    ghost var gPublished: nat
    ghost var gWriteCache: nat
    ghost var gReadCache: nat

    /** Every wrapped word is its unbounded counterpart's image, and the counters are ordered. */
    ghost predicate Counters()
      reads this
    {
      && gReadCache <= gPublished <= gRead <= gWriteCache <= |sent| <= gReadCache + cap
      && writeWord == write == Off(|sent|, word) && readWord == published == Off(gPublished, word)
      && read == Off(gRead, word) && writeCache == Off(gWriteCache, word) && readCache == Off(gReadCache, word)
    }

    ghost predicate Stored()
      reads this, slots
    {
      && slots.Length == cap
      && (forall q: nat | gRead <= q < |sent| :: slots[Off(q, cap)] == Full(sent[q]))
      && (forall q: nat | |sent| <= q < gRead + cap :: slots[Off(q, cap)] == Empty)
    }

    ghost predicate Valid()
      reads this, slots
    {
      WordGeometry(cap, word) && Counters() && Stored()
    }

    constructor (cap: Size, word: Size)
      requires WordGeometry(cap, word)
      ensures Valid() && this.cap == cap && this.word == word && fresh(slots)
      ensures sent == [] && gRead == 0 && dropped == []
    {
      this.cap, this.word := cap, word;
      slots := new Cell[cap](_ => Empty);
      writeWord, readWord, starving, write, readCache, raised, read, published, writeCache :=
        0, 0, false, 0, 0, false, 0, 0, 0;
      dropped, sent, gRead, gPublished, gWriteCache, gReadCache := [], [], 0, 0, 0, 0;
    }

    // ---------------------------------------------------------------- producer

    /** Room for `needed` units, reloading the consumer's cursor at most once; failing against the freshest
        cursor raises the starving flag, a comfortable success lowers it. */
    method HasSpace(needed: nat) returns (ok: bool)
      requires WordGeometry(cap, word) && Counters() && needed <= cap && cap + needed < word
      modifies this`readCache, this`gReadCache, this`starving, this`raised
      ensures Counters()
      ensures ok <==> |sent| + needed <= gPublished + cap
      ensures ok ==> |sent| + needed <= gReadCache + cap
      ensures !ok ==> starving && raised
      ensures gReadCache == if old(|sent| + needed <= gReadCache + cap) then old(gReadCache) else gPublished
      ensures if old(|sent| + needed <= gReadCache + cap) then !raised && starving == (old(starving) && !old(raised))
              else ok ==> raised == old(raised) && starving == old(starving)
    {
      var lacks := Lacks(needed);
      if lacks {
        readCache := readWord;
        gReadCache := gPublished;
        lacks := Lacks(needed);
        if lacks {
          if !starving {
            starving := true;
          }
          raised := true;
          return false;
        }
        return true;
      }
      if raised {
        raised := false;
        starving := false;
      }
      ok := true;
    }

    method Lacks(needed: nat) returns (lacks: bool)
      requires WordGeometry(cap, word) && Counters() && needed <= cap && cap + needed < word
      ensures lacks <==> |sent| + needed > gReadCache + cap
    {
      FullnessIsExact(gReadCache, |sent| - gReadCache, needed, cap, word);
      lacks := LacksSpace(write, needed, readCache, cap, word);
    }

    /** Refused exactly when every slot is taken up by the consumer's published progress. */
    method TryPush(v: int) returns (ok: bool)
      requires Valid()
      modifies this`readCache, this`gReadCache, this`starving, this`raised, this`write, this`writeWord, this`sent, slots
      ensures Valid() && ok == (old(|sent|) < gPublished + cap)
      ensures sent == if ok then old(sent) + [v] else old(sent)
    {
      ok := HasSpace(1);
      if ok {
        PutSlot(v);
        Publish(v);
      }
    }

    method PutSlot(v: int)
      requires Valid() && |sent| < gRead + cap
      modifies slots
      ensures slots[Off(|sent|, cap)] == Full(v)
      ensures forall q: nat | gRead <= q < |sent| :: slots[Off(q, cap)] == Full(sent[q])
      ensures forall q: nat | |sent| < q < gRead + cap :: slots[Off(q, cap)] == Empty
    {
      MaskSurvivesWrap(|sent|, cap, word);
      ghost var before := slots[..];
      slots[Off(write, cap)] := Full(v);
      Elsewhere(before, slots[..], cap, gRead, |sent|);
    }

    method Publish(ghost v: int)
      requires WordGeometry(cap, word) && Counters() && |sent| < gReadCache + cap && slots.Length == cap
      requires slots[Off(|sent|, cap)] == Full(v)
      requires forall q: nat | gRead <= q < |sent| :: slots[Off(q, cap)] == Full(sent[q])
      requires forall q: nat | |sent| < q < gRead + cap :: slots[Off(q, cap)] == Empty
      modifies this`write, this`writeWord, this`sent
      ensures Valid() && sent == old(sent) + [v]
    {
      WrapAdds(|sent|, 1, word);
      sent := sent + [v];
      write := WrapAdd(write, 1, word);
      writeWord := write;
    }

    /** The producer's view of the length: never short, exact once the consumer has caught up. */
    method Occupancy() returns (n: nat)
      requires Valid()
      ensures n == |sent| - gPublished >= |sent| - gRead
      ensures gPublished == gRead ==> n == |sent| - gRead
    {
      WrapSubs(gPublished, |sent| - gPublished, word);
      n := WrapSub(writeWord, readWord, word);
    }

    // ---------------------------------------------------------------- consumer

    method Refresh()
      requires Valid()
      modifies this`writeCache, this`gWriteCache
      ensures Valid() && gWriteCache == |sent|
    {
      writeCache := writeWord;
      gWriteCache := |sent|;
    }

    /** Units between the private read cursor and the cached write cursor. */
    method Cached() returns (n: nat)
      requires WordGeometry(cap, word) && Counters()
      ensures n == gWriteCache - gRead
    {
      WrapSubs(gRead, gWriteCache - gRead, word);
      n := WrapSub(writeCache, read, word);
    }

    /** Consumed and not yet published. */
    method Deferred() returns (n: nat)
      requires WordGeometry(cap, word) && Counters()
      ensures n == gRead - gPublished
    {
      WrapSubs(gPublished, gRead - gPublished, word);
      n := WrapSub(read, published, word);
    }

    method HasItem() returns (some: bool)
      requires Valid()
      modifies this`writeCache, this`gWriteCache
      ensures Valid() && some == (gRead < |sent|) && (some ==> gRead < gWriteCache)
      ensures gWriteCache == if old(gWriteCache) == gRead then |sent| else old(gWriteCache)
    {
      var n := Cached();
      if n == 0 {
        Refresh();
        n := Cached();
      }
      some := n != 0;
    }

    method Flush()
      requires Counters()
      modifies this`readWord, this`published, this`gPublished
      ensures Counters() && gPublished == gRead
    {
      readWord := read;
      published := read;
      gPublished := gRead;
    }

    method FlushPending()
      requires WordGeometry(cap, word) && Counters()
      modifies this`readWord, this`published, this`gPublished
      ensures Counters() && gPublished == gRead
    {
      var n := Deferred();
      if n != 0 {
        Flush();
      }
    }

    /** Release one emptied slot, publishing exactly when the queue was seen full, when caught up, or when the
        progress held back has reached 64 elements or an eighth of the queue; otherwise nothing is published. */
    method AdvanceOne()
      requires WordGeometry(cap, word) && Counters() && gRead < gWriteCache
      requires gRead - gPublished < PublishBatch(cap, MAX_PUBLISH_BATCH)
      modifies this`read, this`gRead, this`readWord, this`published, this`gPublished
      ensures Counters() && gRead == old(gRead) + 1
      ensures gRead - gPublished < PublishBatch(cap, MAX_PUBLISH_BATCH)
      ensures var held := gRead - old(gPublished);
        gPublished == if gWriteCache == old(gRead) + cap || gRead == gWriteCache || held >= 64 || 8 * (held + 1) > cap
                      then gRead else old(gPublished)
    {
      var seen := Cached();
      StepRead();
      var left := Cached();
      var deferred := Deferred();
      BatchReached(deferred, cap, MAX_PUBLISH_BATCH);
      if seen > cap - 1 || left == 0 || deferred >= PublishBatch(cap, MAX_PUBLISH_BATCH) {
        Flush();
      }
    }

    method StepRead()
      requires WordGeometry(cap, word) && Counters() && gRead < gWriteCache
      modifies this`read, this`gRead
      ensures Counters() && gRead == old(gRead) + 1
    {
      WrapAdds(gRead, 1, word);
      read := WrapAdd(read, 1, word);
      gRead := gRead + 1;
    }

    /** A deferral never exceeds the batch. */
    ghost predicate Deferring()
      reads this
    {
      gRead - gPublished < PublishBatch(cap, MAX_PUBLISH_BATCH) && (gRead == gWriteCache ==> gPublished == gRead)
    }

    /** First in, first out; `inPlace` drops the element where it lies instead of moving it out. */
    method TryPop(inPlace: bool) returns (r: Option<int>)
      requires Valid() && Deferring()
      modifies this`writeCache, this`gWriteCache, this`read, this`gRead, this`readWord, this`published,
        this`gPublished, slots
      ensures Valid() && Deferring()
      ensures r == if old(gRead) < |sent| then Some(sent[old(gRead)]) else None
      ensures gRead == old(gRead) + (if r.Some? then 1 else 0)
      ensures gWriteCache == if old(gWriteCache) == old(gRead) then |sent| else old(gWriteCache)
      ensures r.None? ==> gPublished == gRead
      ensures r.Some? ==> var held := gRead - old(gPublished);
        gPublished == if gWriteCache == old(gRead) + cap || gRead == gWriteCache || held >= 64 || 8 * (held + 1) > cap
                      then gRead else old(gPublished)
    {
      var some := HasItem();
      if !some {
        return None;
      }
      r := TakeSlot();
      AdvanceOne();
    }

    /** The value under the read cursor leaves its slot. */
    method TakeSlot() returns (r: Option<int>)
      requires Valid() && gRead < |sent|
      modifies slots
      ensures r == Some(sent[gRead])
      ensures forall q: nat | gRead < q < |sent| :: slots[Off(q, cap)] == Full(sent[q])
      ensures forall q: nat | |sent| <= q < gRead + 1 + cap :: slots[Off(q, cap)] == Empty
    {
      MaskSurvivesWrap(gRead, cap, word);
      var i := Off(read, cap);
      r := Some(slots[i].v);
      ghost var before := slots[..];
      slots[i] := Empty;
      Elsewhere(before, slots[..], cap, gRead, gRead);
      OffOfWord(gRead, cap);
    }

    /** Once both handles are gone, exactly what is still queued is dropped, oldest first. */
    method Teardown()
      requires Valid() && gPublished == gRead
      modifies this`dropped, slots
      ensures dropped == old(dropped) + sent[gRead..]
    {
      DropFrom(readWord, gRead);
    }

    method DropFrom(start: nat, ghost first: nat)
      requires slots.Length == cap && WordGeometry(cap, word) && first <= |sent| <= first + cap
      requires start == Off(first, word) && writeWord == Off(|sent|, word)
      requires forall q: nat | first <= q < |sent| :: slots[Off(q, cap)] == Full(sent[q])
      modifies this`dropped, slots
      ensures dropped == old(dropped) + sent[first..]
    {
      var head := start;
      ghost var h := first;
      ghost var all := dropped + sent[first..];
      SameImage(h, |sent|, word);
      while head != writeWord
        invariant first <= h <= |sent| && head == Off(h, word) && (head == writeWord <==> h == |sent|)
        invariant dropped + sent[h..] == all
        invariant forall q: nat | h <= q < |sent| :: slots[Off(q, cap)] == Full(sent[q])
        decreases |sent| - h
      {
        SplitFirst(dropped, sent, h);
        DropAt(head, h);
        NextHead(h, |sent|, word);
        head := WrapAdd(head, 1, word);
        h := h + 1;
      }
    }

    method DropAt(head: nat, ghost h: nat)
      requires slots.Length == cap && Off(word, cap) == 0 && head == Off(h, word) && h < |sent| <= h + cap
      requires forall q: nat | h <= q < |sent| :: slots[Off(q, cap)] == Full(sent[q])
      modifies this`dropped, slots
      ensures dropped == old(dropped) + [sent[h]]
      ensures forall q: nat | h < q < |sent| :: slots[Off(q, cap)] == Full(sent[q])
    {
      MaskSurvivesWrap(h, cap, word);
      var i := Off(head, cap);
      dropped := dropped + [slots[i].v];
      ghost var before := slots[..];
      slots[i] := Empty;
      Elsewhere(before, slots[..], cap, h, h);
    }
  }

  /** Cursors less than a word apart are equal exactly when their images are. */
  lemma SameImage(a: nat, b: nat, word: Size)
    requires a <= b < a + word
    ensures Off(a, word) == Off(b, word) <==> a == b
  {
    WrapSubs(a, b - a, word);
  }

  lemma SplitFirst(a: seq<int>, b: seq<int>, h: nat)
    requires h < |b|
    ensures a + b[h..] == (a + [b[h]]) + b[h + 1..]
  {
  }

  lemma NextHead(h: nat, n: nat, word: Size)
    requires h < n < h + word && 1 < word
    ensures WrapAdd(Off(h, word), 1, word) == Off(h + 1, word)
    ensures Off(h + 1, word) == Off(n, word) <==> h + 1 == n
  {
    WrapAdds(h, 1, word);
    SameImage(h + 1, n, word);
  }

  /** A store at one sequence leaves every other of its lap alone. */
  lemma Elsewhere(before: seq<Cell>, after: seq<Cell>, cap: Size, low: nat, at: nat)
    requires |before| == |after| == cap && low <= at < low + cap && after == before[Off(at, cap) := after[Off(at, cap)]]
    ensures forall q: nat | low <= q < low + cap && q != at :: after[Off(q, cap)] == before[Off(q, cap)]
  {
    forall q: nat | low <= q < low + cap && q != at ensures after[Off(q, cap)] == before[Off(q, cap)] {
      if Off(q, cap) == Off(at, cap) {
        OffSame(if q < at then q else at, if q < at then at else q, cap);
      }
    }
  }

  // ------------------------------------------------------------------ whole lifetimes

  datatype Op = Pushing(v: int) | Popping(inPlace: bool)

  /** Over any number of operations, far past any wrap of the word: what was accepted is what was
      delivered followed by what teardown dropped, each once and in order. */
  method Lifetime(cap: Size, word: Size, ops: seq<Op>)
    returns (accepted: seq<int>, delivered: seq<int>, dropped: seq<int>)
    requires WordGeometry(cap, word)
    ensures accepted == delivered + dropped && |dropped| <= cap
  {
    var q := new Queue(cap, word);
    accepted, delivered := [], [];
    for i := 0 to |ops|
      invariant q.Valid() && q.Deferring() && fresh(q) && fresh(q.slots) && q.dropped == [] && q.cap == cap
      invariant accepted == q.sent && delivered == q.sent[..q.gRead]
    {
      var into, out := Perform(q, ops[i]);
      accepted, delivered := accepted + into, delivered + out;
    }
    q.FlushPending();
    q.Teardown();
    dropped := q.dropped;
  }

  /** One operation: what went in, what came out. */
  method Perform(q: Queue, op: Op) returns (into: seq<int>, out: seq<int>)
    requires q.Valid() && q.Deferring()
    modifies q, q.slots
    ensures q.Valid() && q.Deferring() && q.dropped == old(q.dropped)
    ensures q.sent == old(q.sent) + into && old(q.gRead) <= q.gRead <= |q.sent|
    ensures q.sent[..q.gRead] == old(q.sent[..q.gRead]) + out
  {
    if op.Pushing? {
      into := Insert(q, op.v);
      out := [];
    } else {
      out := Remove(q, op.inPlace);
      into := [];
    }
  }

  method Insert(q: Queue, v: int) returns (into: seq<int>)
    requires q.Valid() && q.Deferring()
    modifies q, q.slots
    ensures q.Valid() && q.Deferring() && q.dropped == old(q.dropped)
    ensures q.sent == old(q.sent) + into && q.gRead == old(q.gRead) <= |old(q.sent)|
  {
    var ok := q.TryPush(v);
    into := if ok then [v] else [];
  }

  method Remove(q: Queue, inPlace: bool) returns (out: seq<int>)
    requires q.Valid() && q.Deferring()
    modifies q, q.slots
    ensures q.Valid() && q.Deferring() && q.dropped == old(q.dropped)
    ensures q.sent == old(q.sent) && old(q.gRead) <= q.gRead <= |q.sent|
    ensures q.sent[..q.gRead] == old(q.sent[..q.gRead]) + out
  {
    var r := q.TryPop(inPlace);
    out := if r.Some? then [r.value] else [];
  }
}
