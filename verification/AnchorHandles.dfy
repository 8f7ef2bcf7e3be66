/** An anchor of the anchored byte ring as it is written: records decoded in place with plain loads and no
    validation, views released with the adaptive publish, a drain with one publish for its whole batch. The
    producer, its successors and the other consumers move between any two loads, within the gate. */
module AnchorHandles {
  import opened Framing
  import G = Gate
  import B = BytesRing
  import opened BytesProof
  import opened BytesReaders
  import opened BytesHandles
  import opened AnchoredBytes
  import opened AnchoredProof
  import AnchoredTheorems
  import P = GateProof
  import opened Release

  // ------------------------------------------------------------------ what is lent

  /** Frame k, at or above the published cursor `lo`, with the declared intent within the gate. */
  predicate Lent(r: B.Ring, lo: nat, k: nat) {
    RingInv(r) && k < |r.frames| && lo <= r.frames[k].Rec() && r.intent <= lo + r.cap
  }

  /** Then its payload lies whole in the buffer. */
  lemma LentIsIntact(r: B.Ring, lo: nat, k: nat)
    requires Lent(r, lo, k)
    ensures var f := r.frames[k];
      LegalFrame(f, r.cap) && RecordIntact(r.buf, r.cap, f) && Off(f.Rec(), r.cap) + RecordLen(|f.msg|) <= r.cap
  {
    FramedAll(r.frames, r.tail, r.cap, k);
    FrameShape(r.frames[k], r.cap);
    assert FrameIntact(r, r.frames[k]);
  }

  /** One lane of a lent payload. */
  lemma LentLane(r: B.Ring, lo: nat, k: nat, m: seq<Byte>, i: nat, out: seq<Byte>)
    requires Lent(r, lo, k) && m == r.frames[k].msg && |out| < |m| && |out| % 4 == 0 && out == m[..|out|]
    requires i == (Off(r.frames[k].Rec(), r.cap) + HEADER + |out|) / LANE
    ensures i < |r.buf| && var more := Extend(out, |m|, r.buf[i]); more == m[..|more|]
  {
    LentIsIntact(r, lo, k);
    IntactLane(r, r.frames[k], out);
  }

  lemma IntactLane(r: B.Ring, f: Frame, out: seq<Byte>)
    requires Geometry(r.cap) && |r.buf| == r.cap / LANE && LegalFrame(f, r.cap) && RecordIntact(r.buf, r.cap, f)
    requires Off(f.Rec(), r.cap) + RecordLen(|f.msg|) <= r.cap
    requires |out| < |f.msg| && |out| % 4 == 0 && out == f.msg[..|out|]
    ensures var i := (Off(f.Rec(), r.cap) + HEADER + |out|) / LANE;
      i < |r.buf| && var more := Extend(out, |f.msg|, r.buf[i]); more == f.msg[..|more|]
  {
    LaneInRange(Off(f.Rec(), r.cap), |out|, |f.msg|, r.cap);
    LaneCopied(r.buf, f, r.cap, out, B.Load(r.buf, (Off(f.Rec(), r.cap) + HEADER + |out|) / LANE));
  }

  /** The header at a cursor that stands on frame k. */
  lemma HeaderThere(r: B.Ring, lo: nat, k: nat, pos: nat)
    requires Lent(r, lo, k) && lo <= pos && (pos == r.frames[k].start || pos == r.frames[k].Rec())
    ensures Off(pos, r.cap) / LANE < |r.buf|
    ensures var f := r.frames[k]; var v := r.buf[Off(pos, r.cap) / LANE];
      && |f.msg| < PADDING
      && (if pos == f.Rec() then v == |f.msg| else v == PADDING && pos + (r.cap - Off(pos, r.cap)) == f.Rec())
  {
    StandsAt(r, k, pos);
    HeaderOn(r, k, pos);
  }

  lemma HeaderOn(r: B.Ring, k: nat, pos: nat)
    requires OnFrame(r, pos) && |r.buf| == r.cap / LANE && k < |r.frames| && FrameOf(r, pos) == r.frames[k]
    requires InWindow(r, pos)
    ensures Off(pos, r.cap) / LANE < |r.buf|
    ensures var f := r.frames[k]; var v := r.buf[Off(pos, r.cap) / LANE];
      && |f.msg| < PADDING
      && (if pos == f.Rec() then v == |f.msg| else v == PADDING && pos + (r.cap - Off(pos, r.cap)) == f.Rec())
  {
    BeginSeen(r, pos);
    CellInRange(pos, r.cap);
    HeaderSeen(r, pos, pos);
    SkipLands(r.frames[k], pos, r.cap);
    OwnCells(r.frames[k], r.cap);
  }

  // ------------------------------------------------------------------ what the anchor knows

  /** The machine's invariant of a joined anchor between records, and the gate behind it. */
  ghost predicate Seeing(r: B.Ring, h: Hand, who: G.Holder) {
    && RingInv(r) && who.Live? && who.pub <= who.rd <= who.cache && r.intent <= who.pub + r.cap
    && h.pc.Idle? && Reads(r, h, who)
  }

  function NextFrame(h: Hand): nat { h.first + |h.got| }

  /** With something below the cached tail, it stands on a lent frame, and that frame ends at or below it. */
  ghost predicate Facing(r: B.Ring, h: Hand, who: G.Holder) {
    && who.Live? && Lent(r, who.pub, NextFrame(h)) && NextFrame(h) < h.seen <= |r.frames|
    && var f := r.frames[NextFrame(h)];
      && (who.rd == f.start || who.rd == f.Rec()) && who.rd <= f.Rec() < f.End() <= who.cache
      && f.End() == Mark(r.frames, r.tail, NextFrame(h) + 1)
  }

  lemma FacesNext(r: B.Ring, h: Hand, who: G.Holder)
    requires Seeing(r, h, who) && who.rd < who.cache
    ensures Facing(r, h, who)
  {
    OnOwed(r, NextFrame(h), h.seen, who.rd);
    EndsWithin(r.frames, r.tail, r.cap, NextFrame(h), h.seen, who.cache);
    RecordAhead(r.frames, r.tail, r.cap, NextFrame(h));
  }

  /** So does its header, wherever the decode looks for it. */
  lemma HeaderNow(r: B.Ring, h: Hand, who: G.Holder, pos: nat)
    requires Seeing(r, h, who) && who.rd < who.cache && who.rd <= pos && NextFrame(h) < |r.frames|
    requires pos == r.frames[NextFrame(h)].start || pos == r.frames[NextFrame(h)].Rec()
    ensures Off(pos, r.cap) / LANE < |r.buf|
    ensures var f := r.frames[NextFrame(h)]; var v := r.buf[Off(pos, r.cap) / LANE];
      if pos == f.Rec() then v == |f.msg| < PADDING else v == PADDING && pos + (r.cap - Off(pos, r.cap)) == f.Rec()
  {
    FacesNext(r, h, who);
    HeaderThere(r, who.pub, NextFrame(h), pos);
  }

  lemma EndsWithin(frames: seq<Frame>, tail: nat, cap: Size, k: nat, seen: nat, cache: nat)
    requires Geometry(cap) && Framed(frames, tail, cap) && k < seen <= |frames| && Mark(frames, tail, seen) == cache
    ensures frames[k].End() == Mark(frames, tail, k + 1) <= cache
  {
    NextMark(frames, tail, cap, k, seen);
  }

  lemma RecordAhead(frames: seq<Frame>, tail: nat, cap: Size, k: nat)
    requires Geometry(cap) && Framed(frames, tail, cap) && k < |frames|
    ensures frames[k].start <= frames[k].Rec() < frames[k].End()
  {
    FramedAll(frames, tail, cap, k);
    FrameShape(frames[k], cap);
  }

  /** Padding may be folded into the cursor. */
  lemma Folded(r: B.Ring, h: Hand, who: G.Holder)
    requires Seeing(r, h, who) && Facing(r, h, who)
    ensures Seeing(r, h, who.(rd := r.frames[NextFrame(h)].Rec()))
  {
    ReadsFolded(r, h, who);
  }

  lemma ReadsFolded(r: B.Ring, h: Hand, who: G.Holder)
    requires who.Live? && Reads(r, h, who) && h.pc.Idle? && NextFrame(h) < |r.frames|
    ensures Reads(r, h, who.(rd := r.frames[NextFrame(h)].Rec()))
  {
  }

  /** With the record it owes given to it. */
  function HandedOn(r: B.Ring, h: Hand): Hand
    requires NextFrame(h) < |r.frames|
  {
    h.(got := h.got + [r.frames[NextFrame(h)].msg])
  }

  /** Handing over the record it owes puts the cursor at the next mark. */
  lemma Handed(r: B.Ring, h: Hand, who: G.Holder)
    requires Seeing(r, h, who) && Facing(r, h, who)
    ensures Seeing(r, HandedOn(r, h), who.(rd := r.frames[NextFrame(h)].End()))
  {
    DeliverGiven(r, h, who, r.frames[NextFrame(h)].msg);
  }

  /** Publishing the cursor changes nothing the anchor knows. */
  lemma Released(r: B.Ring, h: Hand, who: G.Holder)
    requires Seeing(r, h, who)
    ensures Seeing(r, h, who.(pub := who.rd))
  {
  }

  /** Both together, as a release does it. */
  lemma HandedFree(r: B.Ring, h: Hand, who: G.Holder) returns (h': Hand, w: G.Holder)
    requires Seeing(r, h, who) && who.rd < who.cache
    requires NextFrame(h) < |r.frames| && who.rd == r.frames[NextFrame(h)].Rec()
    ensures h' == HandedOn(r, h) && Seeing(r, h', w) && Seeing(r, h', w.(pub := w.rd))
    ensures w == who.(rd := who.rd + RecordLen(|r.frames[NextFrame(h)].msg|)) && who.rd < w.rd <= who.cache
  {
    FacesNext(r, h, who);
    Handed(r, h, who);
    h', w := HandedOn(r, h), who.(rd := r.frames[NextFrame(h)].End());
    Released(r, h', w);
  }

  /** A fresh view of the tail. */
  lemma Marked(r: B.Ring, h: Hand, who: G.Holder)
    requires Seeing(r, h, who)
    ensures who.rd <= r.tail && Seeing(r, h.(seen := |r.frames|), who.(cache := r.tail))
  {
    MarksAscend(r.frames, r.tail, r.cap, h.seen, |r.frames|);
    ReadsMarked(r, h, who);
  }

  lemma ReadsMarked(r: B.Ring, h: Hand, who: G.Holder)
    requires who.Live? && Reads(r, h, who) && h.pc.Idle?
    ensures Reads(r, h.(seen := |r.frames|), who.(cache := r.tail))
    ensures Mark(r.frames, r.tail, h.seen) == who.cache && h.seen <= |r.frames|
  {
  }

  /** The step of the lossy half in a step of the anchored ring. */
  lemma RingOf(s: Anchored, a: Action) returns (b: B.Action)
    ensures Apply(s, a).sys.ring == B.Apply(B.System(s.sys.ring, []), b).ring
  {
    b := B.DoPop(0);
    match a {
      case DoDeclare(msg) => if Apply(s, a) != s { b := B.DoDeclare(msg); }
      case DoProduce => b := B.DoProduce;
      case DoClose => if Apply(s, a) != s { b := B.DoClose; }
      case DoCrash => b := B.DoCrash;
      case DoAttach => b := B.DoAttach;
      case _ =>
    }
  }

  /** Every step of the anchored ring's machine that is not this anchor's own leaves what it knows true. */
  lemma StepIsWithin(s: Anchored, a: Action, i: nat)
    requires AnchoredInv(s) && AnchoredTheorems.Joined(s, i) && s.hands[i].pc.Idle?
    requires AnchoredTheorems.Joined(Apply(s, a), i)
    requires Apply(s, a).gate.slots[i] == s.gate.slots[i] && Apply(s, a).hands[i] == s.hands[i]
    ensures Seeing(s.sys.ring, s.hands[i], s.gate.slots[i].who)
    ensures Seeing(Apply(s, a).sys.ring, s.hands[i], s.gate.slots[i].who) && Grown(s.sys.ring, Apply(s, a).sys.ring)
  {
    ApplyKeeps(s, a);
    SeesWell(s, i);
    SeesWell(Apply(s, a), i);
    var b := RingOf(s, a);
    StepIsKept(s.sys.ring, b);
  }

  lemma SeesWell(s: Anchored, i: nat)
    requires AnchoredInv(s) && AnchoredTheorems.Joined(s, i) && s.hands[i].pc.Idle?
    ensures Seeing(s.sys.ring, s.hands[i], s.gate.slots[i].who)
  {
    assert P.SlotOk(s.gate, i) && P.Protected(s.gate.slots[i]);
    assert HandOk(s.sys.ring, s.gate.slots[i], s.hands[i]);
  }

  // ------------------------------------------------------------------ the anchor

  class BytesAnchor {
    const ring: SharedBytes
    const c: GatingConsumer
    /** What it has been given, as the machine's history has it. */
    ghost var hand: Hand

    ghost function Who(): G.Holder
      reads this, c
    {
      G.Live(c.join, c.read, c.published, c.tailCache)
    }

    ghost predicate Sees(prod: B.Producer)
      reads this, ring, ring.buf, c, c.words
    {
      c.words.tail == ring.tail && c.cap == ring.cap && c.max == 4096 && c.Sane()
      && Seeing(ring.View(prod), hand, Who())
    }

    ghost predicate Valid(prod: B.Producer)
      reads this, ring, ring.buf, c, c.words
    {
      Sees(prod) && c.Valid()
    }

    /** The frame the next record is. */
    ghost function Owing(): nat
      reads this
    {
      NextFrame(hand)
    }

    /** A consumer that joined at the tail. */
    constructor (ring: SharedBytes, c: GatingConsumer, ghost prod: B.Producer)
      requires RingInv(ring.View(prod)) && c.Valid() && c.words.tail == ring.tail && c.cap == ring.cap && c.max == 4096
      requires c.join == c.published == c.read == c.tailCache == ring.tail && ring.intent <= ring.tail + ring.cap
      ensures Valid(prod) && this.ring == ring && this.c == c && hand.got == [] && Owing() == |ring.frames|
    {
      this.ring, this.c := ring, c;
      hand := Hand(|ring.frames|, |ring.frames|, [], B.ReadPc.Idle);
    }

    /** Whatever everybody else does between two loads. A caller knows this contract only, so it is proved
        against every behaviour within it: the ring stays sound and grows, the gate keeps the intent within
        a capacity of the published cursor, and what the anchor knows stays true. `StepIsWithin` puts every
        step of the machine within it. When `quiet`, nobody moves. */
    method Others(ghost prod: B.Producer, ghost quiet: bool) returns (ghost now: B.Producer)
      requires Sees(prod)
      modifies ring, ring.buf, c.words`tail, c.words`starving
      ensures Sees(now) && Grown(old(ring.View(prod)), ring.View(now))
      ensures quiet ==> ring.View(now) == old(ring.View(prod)) && c.words.starving == old(c.words.starving)
    {
      now := prod;
    }

    method LoadHeader(pos: nat, ghost prod: B.Producer, ghost quiet: bool) returns (header: Lane, ghost now: B.Producer)
      requires Sees(prod) && c.read < c.tailCache && c.read <= pos
      requires var f := ring.frames[Owing()]; Owing() < |ring.frames| && (pos == f.start || pos == f.Rec())
      modifies ring, ring.buf, c.words`tail, c.words`starving
      ensures Sees(now) && Grown(old(ring.View(prod)), ring.View(now))
      ensures quiet ==> ring.View(now) == old(ring.View(prod)) && c.words.starving == old(c.words.starving)
      ensures Owing() < |ring.frames| && var f := ring.frames[Owing()];
        if pos == f.Rec() then header == |f.msg| < PADDING
        else header == PADDING && pos + (ring.cap - Off(pos, ring.cap)) == f.Rec()
    {
      now := Others(prod, quiet);
      HeaderNow(ring.View(now), hand, Who(), pos);
      header := ring.buf[Off(pos, ring.cap) / LANE];
    }

    /** The record at the cursor: behind its padding, if it has any. */
    method Decode(ghost prod: B.Producer, ghost quiet: bool) returns (cur: nat, len: nat, ghost now: B.Producer)
      requires Sees(prod) && c.read < c.tailCache
      modifies ring, ring.buf, c.words`tail, c.words`starving
      ensures Sees(now) && Grown(old(ring.View(prod)), ring.View(now))
      ensures quiet ==> ring.View(now) == old(ring.View(prod)) && c.words.starving == old(c.words.starving)
      ensures Owing() < |ring.frames| && var f := ring.frames[Owing()]; cur == f.Rec() && len == |f.msg|
    {
      FacesNext(ring.View(prod), hand, Who());
      cur := c.read;
      var header;
      header, now := LoadHeader(cur, prod, quiet);
      if header == PADDING {
        cur := cur + (ring.cap - Off(cur, ring.cap));
        header, now := LoadHeader(cur, now, quiet);
      }
      len := header;
    }

    /** What the borrower of frame k's payload reads, at its own pace, until it is released. */
    method View(cur: nat, len: nat, ghost k: nat, ghost prod: B.Producer, ghost quiet: bool)
      returns (out: seq<Byte>, ghost now: B.Producer)
      requires Sees(prod) && Lent(ring.View(prod), c.published, k)
      requires cur == ring.frames[k].Rec() && len == |ring.frames[k].msg|
      modifies ring, ring.buf, c.words`tail, c.words`starving
      ensures Sees(now) && Grown(old(ring.View(prod)), ring.View(now))
      ensures quiet ==> ring.View(now) == old(ring.View(prod)) && c.words.starving == old(c.words.starving)
      ensures k < |ring.frames| && out == ring.frames[k].msg
    {
      out, now := [], prod;
      ghost var f, before := ring.frames[k], ring.View(prod);
      while |out| < len
        invariant Sees(now) && Grown(before, ring.View(now))
        invariant quiet ==> ring.View(now) == before && c.words.starving == old(c.words.starving)
        invariant k < |ring.frames| && ring.frames[k] == f && c.published <= f.Rec()
        invariant |out| <= len && out == f.msg[..|out|] && (|out| == len || |out| % 4 == 0)
      {
        out, now := ViewLane(cur, len, out, k, now, quiet);
      }
    }

    method ViewLane(cur: nat, len: nat, out: seq<Byte>, ghost k: nat, ghost prod: B.Producer, ghost quiet: bool)
      returns (more: seq<Byte>, ghost now: B.Producer)
      requires Sees(prod) && k < |ring.frames| && c.published <= ring.frames[k].Rec()
      requires cur == ring.frames[k].Rec() && len == |ring.frames[k].msg| && |out| < len && |out| % 4 == 0
      requires out == ring.frames[k].msg[..|out|]
      modifies ring, ring.buf, c.words`tail, c.words`starving
      ensures Sees(now) && Grown(old(ring.View(prod)), ring.View(now))
      ensures quiet ==> ring.View(now) == old(ring.View(prod)) && c.words.starving == old(c.words.starving)
      ensures k < |ring.frames| && |out| < |more| <= len && more == ring.frames[k].msg[..|more|]
      ensures |more| == len || |more| % 4 == 0
    {
      now := Others(prod, quiet);
      var i := (Off(cur, ring.cap) + HEADER + |out|) / LANE;
      LentLane(ring.View(now), c.published, k, ring.frames[k].msg, i, out);
      more := Extend(out, len, ring.buf[i]);
    }

    /** The next message's view: of the cursor's way only the padding is behind it. */
    method NextMsg(ghost prod: B.Producer, ghost quiet: bool) returns (cur: nat, len: nat, ghost now: B.Producer)
      requires Sees(prod) && c.read < c.tailCache
      modifies ring, ring.buf, c.words`tail, c.words`starving, c`read
      ensures Sees(now) && Grown(old(ring.View(prod)), ring.View(now))
      ensures quiet ==> ring.View(now) == old(ring.View(prod)) && c.words.starving == old(c.words.starving)
      ensures Owing() < hand.seen && Owing() < |ring.frames| && old(c.read) <= c.read == cur < c.tailCache
      ensures var f := ring.frames[Owing()]; cur == f.Rec() && len == |f.msg|
    {
      cur, len, now := Decode(prod, quiet);
      Fold(cur, now);
    }

    method Fold(cur: nat, ghost prod: B.Producer)
      requires Sees(prod) && c.read < c.tailCache && Owing() < |ring.frames| && cur == ring.frames[Owing()].Rec()
      modifies c`read
      ensures Sees(prod) && old(c.read) <= c.read == cur < c.tailCache && Owing() < hand.seen
    {
      FacesNext(ring.View(prod), hand, Who());
      Folded(ring.View(prod), hand, Who());
      c.read := cur;
    }

    /** The cursor moves past the record: it counts as consumed. */
    method Take(cur: nat, len: nat, ghost prod: B.Producer)
      requires Sees(prod) && c.read < c.tailCache && Owing() < |ring.frames|
      requires var f := ring.frames[Owing()]; cur == f.Rec() && len == |f.msg|
      modifies this`hand, c`read
      ensures Sees(prod) && hand == HandedOn(ring.View(prod), old(hand))
      ensures old(c.read) < c.read == ring.frames[old(Owing())].End() <= c.tailCache
    {
      FacesNext(ring.View(prod), hand, Who());
      Handed(ring.View(prod), hand, Who());
      c.read := cur + RecordLen(len);
      hand := HandedOn(ring.View(prod), hand);
    }

    /** The view is dropped: its record is released with the adaptive publish. */
    method Release(len: nat, ghost prod: B.Producer)
      requires Sees(prod) && c.read < c.tailCache && Owing() < |ring.frames|
      requires var f := ring.frames[Owing()]; c.read == f.Rec() && len == |f.msg|
      modifies this`hand, c`read, c`published, c.words`cursor
      ensures Valid(prod) && hand == HandedOn(ring.View(prod), old(hand))
      ensures old(c.read) < c.read == ring.frames[old(Owing())].End()
    {
      ghost var r := ring.View(prod);
      ghost var h, w := HandedFree(r, hand, Who());
      LetGo(RecordLen(len));
      hand := h;
      SeesNow(prod, r, h, w);
    }

    lemma SeesNow(prod: B.Producer, r: B.Ring, h: Hand, w: G.Holder)
      requires c.words.tail == ring.tail && c.cap == ring.cap && c.max == 4096 && c.Sane()
      requires ring.View(prod) == r && hand == h && Seeing(r, h, w) && Seeing(r, h, w.(pub := w.rd))
      requires Who() == w || Who() == w.(pub := w.rd)
      ensures Sees(prod)
    {
    }

    /** The cursor moves, and is published or not. */
    method LetGo(amount: nat)
      requires c.Sane() && c.read + amount <= c.tailCache
      modifies c`read, c`published, c.words`cursor
      ensures c.Valid() && c.read == old(c.read) + amount && (c.published == old(c.published) || c.published == c.read)
    {
      ghost var flushed := c.Advance(amount);
    }

    /** A fresh view of the tail. */
    method Refresh(ghost prod: B.Producer)
      requires Sees(prod)
      modifies this`hand, c`tailCache
      ensures Sees(prod) && c.tailCache == ring.tail && hand == old(hand).(seen := |ring.frames|)
    {
      Marked(ring.View(prod), hand, Who());
      c.tailCache := c.words.tail;
      hand := hand.(seen := |ring.frames|);
    }

    /** One message viewed in place and released, if the cached tail covers one. */
    method PopNext(ghost prod: B.Producer, ghost quiet: bool) returns (msg: seq<Byte>, ghost now: B.Producer)
      requires Valid(prod) && c.read < c.tailCache
      modifies this`hand, ring, ring.buf, c.words, c`read, c`published
      ensures Valid(now) && Grown(old(ring.View(prod)), ring.View(now))
      ensures quiet ==> ring.View(now) == old(ring.View(prod))
      ensures old(c.read) < c.read && old(Owing()) < |ring.frames| && msg == ring.frames[old(Owing())].msg
      ensures hand == old(hand).(got := old(hand.got) + [msg])
    {
      ghost var before := ring.View(prod);
      var cur, len;
      cur, len, now := NextMsg(prod, quiet);
      ghost var viewed := ring.View(now);
      msg, now := ViewAndRelease(cur, len, now, quiet);
      GrownTwice(before, viewed, ring.View(now));
    }

    /** The life of a view. */
    method ViewAndRelease(cur: nat, len: nat, ghost prod: B.Producer, ghost quiet: bool)
      returns (msg: seq<Byte>, ghost now: B.Producer)
      requires Sees(prod) && c.read == cur < c.tailCache && Owing() < |ring.frames|
      requires var f := ring.frames[Owing()]; cur == f.Rec() && len == |f.msg|
      modifies this`hand, ring, ring.buf, c.words, c`read, c`published
      ensures Valid(now) && Grown(old(ring.View(prod)), ring.View(now))
      ensures quiet ==> ring.View(now) == old(ring.View(prod))
      ensures cur < c.read && old(Owing()) < |ring.frames| && msg == ring.frames[old(Owing())].msg
      ensures hand == old(hand).(got := old(hand.got) + [msg])
    {
      ghost var k := Owing();
      FacesNext(ring.View(prod), hand, Who());
      msg, now := View(cur, len, k, prod, quiet);
      Release(len, now);
    }

    /** One non-blocking pop. Whoever finds the ring empty has let go of everything it read. */
    method TryPop(ghost prod: B.Producer, ghost quiet: bool) returns (e: Popped, ghost now: B.Producer)
      requires Valid(prod)
      modifies this`hand, ring, ring.buf, c, c.words
      ensures Valid(now) && Grown(old(ring.View(prod)), ring.View(now)) && !e.Lagged?
      ensures hand.first == old(hand.first) && c.read >= old(c.read)
      ensures e.Item? ==>
        && c.read > old(c.read) && hand.got == old(hand.got) + [e.msg]
        && old(Owing()) < |ring.frames| && e.msg == ring.frames[old(Owing())].msg
      ensures !e.Item? ==> hand.got == old(hand.got) && c.words.cursor == c.published == c.read == old(ring.tail)
      ensures e.Closed? ==> c.read == ring.tail
      ensures quiet ==>
        && ring.View(now) == old(ring.View(prod))
        && (e.Item? <==> old(c.read) < ring.tail) && (e.Closed? <==> old(c.read) == ring.tail && ring.closed)
    {
      ghost var before := ring.View(prod);
      e, now := Look(prod, quiet);
      if c.read == c.tailCache {
        return;
      }
      ghost var found := ring.View(now);
      var msg;
      msg, now := PopNext(now, quiet);
      GrownTwice(before, found, ring.View(now));
      e := Item(msg);
    }

    /** Availability, the tail re-loaded at most once; and before `Closed` is told once more after the flag. */
    method Look(ghost prod: B.Producer, ghost quiet: bool) returns (e: Popped, ghost now: B.Producer)
      requires Valid(prod)
      modifies this`hand, ring, ring.buf, c`tailCache, c.words`tail, c.words`starving
      ensures Valid(now) && Grown(old(ring.View(prod)), ring.View(now))
      ensures hand == old(hand).(seen := hand.seen)
      ensures quiet ==> ring.View(now) == old(ring.View(prod))
      ensures c.read == c.tailCache ==>
        && (e.Empty? || e.Closed?) && c.words.cursor == c.published == c.read == old(ring.tail)
        && (e.Closed? ==> c.read == ring.tail) && (quiet ==> (e.Closed? <==> ring.closed))
    {
      now, e := prod, Empty;
      if c.read == c.tailCache {
        Refresh(now);
      }
      if c.read == c.tailCache {
        now := Others(now, quiet);
        if ring.closed {
          now := Others(now, quiet);
          Refresh(now);
          e := Closed;
        }
      }
    }

    /** Consuming everything gives every message owed, in order, and publishes everything: a producer
        waiting on this consumer is then free of it. */
    method ConsumeAll(ghost prod: B.Producer) returns (msgs: seq<seq<Byte>>)
      requires Valid(prod)
      modifies this`hand, ring, ring.buf, c, c.words
      ensures Valid(prod) && ring.View(prod) == old(ring.View(prod))
      ensures msgs == Messages(ring.frames[old(Owing())..]) && hand.got == old(hand.got) + msgs
      ensures c.words.cursor == c.published == c.read == ring.tail
    {
      msgs := [];
      ghost var r, given := ring.View(prod), hand.got;
      var done := false;
      while !done
        invariant Valid(prod) && ring.View(prod) == r && hand.first == old(hand.first) && hand.got == given + msgs
        invariant done ==> c.words.cursor == c.published == c.read == ring.tail
        decreases ring.tail - c.read, if done then 0 else 1
      {
        done, msgs := ConsumeNext(prod, msgs, given);
      }
      AllGiven(r, hand, Who(), given, msgs);
    }

    method ConsumeNext(ghost prod: B.Producer, msgs: seq<seq<Byte>>, ghost given: seq<seq<Byte>>)
      returns (done: bool, more: seq<seq<Byte>>)
      requires Valid(prod) && hand.got == given + msgs
      modifies this`hand, ring, ring.buf, c, c.words
      ensures Valid(prod) && ring.View(prod) == old(ring.View(prod))
      ensures hand.first == old(hand.first) && hand.got == given + more
      ensures if done then c.words.cursor == c.published == c.read == ring.tail else c.read > old(c.read)
    {
      var e, now := TryPop(prod, true);
      done := !e.Item?;
      more := if done then msgs else msgs + [e.msg];
    }

    /** The messages in the ring on entry, up to the one that brings what is taken to an eighth of the ring or
        to 4096 bytes, the cursor published once, after all of them. Each record counts as consumed before it
        is looked at, and stays readable until the publish. */
    method Drain(ghost prod: B.Producer, ghost quiet: bool) returns (msgs: seq<seq<Byte>>, ghost now: B.Producer)
      requires Valid(prod)
      modifies this`hand, ring, ring.buf, c, c.words
      ensures Valid(now) && Grown(old(ring.View(prod)), ring.View(now))
      ensures quiet ==> ring.View(now) == old(ring.View(prod))
      ensures hand.first == old(hand.first)
      ensures Taken(ring.frames, old(hand.got), hand, msgs, old(c.read), c.read, ring.cap)
      ensures c.words.cursor == c.published == c.read && c.tailCache == old(ring.tail)
      ensures c.read < c.tailCache ==>
        var all := c.read - old(c.read); all > 0 && (all >= 4096 || 8 * (all + 1) > ring.cap)
    {
      ghost var given, start := hand.got, c.read;
      msgs, now := Gather(prod, quiet);
      HandGiven(ring.View(now), hand, Who());
      BatchTaken(ring.frames, given, hand, msgs, start, c.read, ring.cap);
    }

    method Gather(ghost prod: B.Producer, ghost quiet: bool) returns (msgs: seq<seq<Byte>>, ghost now: B.Producer)
      requires Valid(prod)
      modifies this`hand, ring, ring.buf, c, c.words
      ensures Valid(now) && Grown(old(ring.View(prod)), ring.View(now))
      ensures quiet ==> ring.View(now) == old(ring.View(prod))
      ensures hand.first == old(hand.first)
      ensures Batched(ring.frames, old(hand.got), hand, msgs, old(c.read), c.read, c.batch)
      ensures c.words.cursor == c.published == c.read && c.tailCache == old(ring.tail)
      ensures c.read < c.tailCache ==> c.read - old(c.read) >= c.batch
    {
      Refresh(prod);
      msgs, now := Collect(prod, quiet);
      Settle(now);
    }

    /** Record after record up to the tail as it was, or to a full batch. */
    method Collect(ghost prod: B.Producer, ghost quiet: bool) returns (msgs: seq<seq<Byte>>, ghost now: B.Producer)
      requires Sees(prod)
      modifies this`hand, ring, ring.buf, c.words`tail, c.words`starving, c`read
      ensures Sees(now) && Grown(old(ring.View(prod)), ring.View(now))
      ensures quiet ==> ring.View(now) == old(ring.View(prod))
      ensures hand.first == old(hand.first)
      ensures Batched(ring.frames, old(hand.got), hand, msgs, old(c.read), c.read, c.batch)
      ensures c.read < c.tailCache ==> c.read - old(c.read) >= c.batch
    {
      msgs, now := [], prod;
      ghost var before, given := ring.View(prod), hand.got;
      var start := c.read;
      BatchStarts(before, hand, Who(), c.batch);
      while c.read != c.tailCache && c.read - start < c.batch
        invariant Sees(now) && Grown(before, ring.View(now)) && (quiet ==> ring.View(now) == before)
        invariant hand.first == old(hand.first) && Batched(ring.frames, given, hand, msgs, start, c.read, c.batch)
        decreases c.tailCache - c.read
      {
        msgs, now := DrainMore(msgs, given, start, now, quiet);
      }
    }

    method DrainMore(msgs: seq<seq<Byte>>, ghost given: seq<seq<Byte>>, start: nat, ghost prod: B.Producer,
                     ghost quiet: bool)
      returns (more: seq<seq<Byte>>, ghost now: B.Producer)
      requires Sees(prod) && c.read < c.tailCache && c.read - start < c.batch
      requires Batched(ring.frames, given, hand, msgs, start, c.read, c.batch)
      modifies this`hand, ring, ring.buf, c.words`tail, c.words`starving, c`read
      ensures Sees(now) && Grown(old(ring.View(prod)), ring.View(now)) && old(c.read) < c.read
      ensures quiet ==> ring.View(now) == old(ring.View(prod))
      ensures hand.first == old(hand.first) && Batched(ring.frames, given, hand, more, start, c.read, c.batch)
    {
      ghost var r, h, read := ring.View(prod), hand, c.read;
      var msg;
      msg, now := DrainOne(prod, quiet);
      more := msgs + [msg];
      BatchGrows(r, ring.View(now), given, h, hand, msgs, msg, start, read, c.read, c.batch);
    }

    /** The one publish of a drain. */
    method Settle(ghost prod: B.Producer)
      requires Sees(prod)
      modifies c`published, c.words`cursor
      ensures Valid(prod) && c.words.cursor == c.published == c.read
    {
      Released(ring.View(prod), hand, Who());
      c.FlushPending();
    }

    /** One record of a drain: the cursor first, the callback after it. */
    method DrainOne(ghost prod: B.Producer, ghost quiet: bool) returns (msg: seq<Byte>, ghost now: B.Producer)
      requires Sees(prod) && c.read < c.tailCache
      modifies this`hand, ring, ring.buf, c.words`tail, c.words`starving, c`read
      ensures Sees(now) && Grown(old(ring.View(prod)), ring.View(now))
      ensures quiet ==> ring.View(now) == old(ring.View(prod)) && c.words.starving == old(c.words.starving)
      ensures hand == old(hand).(got := old(hand.got) + [msg]) && old(c.read) < c.read <= c.tailCache
      ensures old(Owing()) < |ring.frames| && var f := ring.frames[old(Owing())]; c.read == f.End() && msg == f.msg
    {
      var cur, len;
      ghost var before, k, given := ring.View(prod), Owing(), hand;
      cur, len, now := Decode(prod, quiet);
      ghost var f := ring.frames[k];
      Take(cur, len, now);
      assert hand == given.(got := given.got + [f.msg]);
      ghost var decoded := ring.View(now);
      msg, now := View(cur, len, k, now, quiet);
      assert ring.frames[k] == f && Grown(before, decoded) && Grown(decoded, ring.View(now));
    }
  }

  /** A drain that began at `start` with `given`: the messages since are `msgs`, in order and without a gap,
      and all but the last of them fit in less than a batch. */
  predicate Batched(frames: seq<Frame>, given: seq<seq<Byte>>, h: Hand, msgs: seq<seq<Byte>>, start: nat, read: nat,
                    batch: nat)
  {
    var k := h.first + |h.got|;
    && h.got == given + msgs && |msgs| <= k <= |frames|
    && (if msgs == [] then read == start else start < read == frames[k - 1].End())
    && (|msgs| > 1 ==> 0 < frames[k - 2].End() - start < batch)
  }

  lemma HandGiven(r: B.Ring, h: Hand, who: G.Holder)
    requires Seeing(r, h, who)
    ensures Given(r.frames, h)
  {
  }

  /** A drain of the byte ring from `start`, in numbers: its messages are those of the next frames, and all but
      the last of them end short of 4096 bytes and of an eighth of the ring. */
  predicate Taken(frames: seq<Frame>, given: seq<seq<Byte>>, h: Hand, msgs: seq<seq<Byte>>, start: nat, read: nat,
                  cap: Size)
  {
    var k := h.first + |h.got|;
    && h.got == given + msgs && |msgs| <= k <= |frames| && msgs == Messages(frames[k - |msgs|..k])
    && (if msgs == [] then read == start else start < read == frames[k - 1].End())
    && (|msgs| > 1 ==>
          var most := frames[k - 2].End() - start; 0 < most < 4096 && 8 * (most + 1) <= cap)
  }

  lemma BatchTaken(frames: seq<Frame>, given: seq<seq<Byte>>, h: Hand, msgs: seq<seq<Byte>>, start: nat, read: nat,
                   cap: Size)
    requires Batched(frames, given, h, msgs, start, read, PublishBatch(cap, 4096)) && Given(frames, h)
    ensures Taken(frames, given, h, msgs, start, read, cap)
    ensures read >= start && (read - start >= PublishBatch(cap, 4096) ==>
      read > start && (read - start >= 4096 || 8 * (read - start + 1) > cap))
  {
    LastGiven(frames, h, given, msgs);
    BatchReached(read - start, cap, 4096);
    if |msgs| > 1 {
      BatchReached(frames[NextFrame(h) - 2].End() - start, cap, 4096);
    }
  }

  lemma BatchStarts(r: B.Ring, h: Hand, who: G.Holder, batch: nat)
    requires Seeing(r, h, who)
    ensures Batched(r.frames, h.got, h, [], who.rd, who.rd, batch)
  {
  }

  lemma GrownTwice(before: B.Ring, between: B.Ring, after: B.Ring)
    requires Grown(before, between) && Grown(between, after)
    ensures Grown(before, after)
  {
  }

  lemma BatchGrows(r: B.Ring, r': B.Ring, given: seq<seq<Byte>>, h: Hand, h': Hand, msgs: seq<seq<Byte>>,
                   msg: seq<Byte>, start: nat, read: nat, read': nat, batch: nat)
    requires Batched(r.frames, given, h, msgs, start, read, batch) && read - start < batch && read < read'
    requires Grown(r, r') && h' == h.(got := h.got + [msg]) && NextFrame(h) < |r'.frames|
    requires var f := r'.frames[NextFrame(h)]; read' == f.End() && msg == f.msg
    ensures Batched(r'.frames, given, h', msgs + [msg], start, read', batch)
  {
    assert (given + msgs) + [msg] == given + (msgs + [msg]);
  }

  /** With its cursor at the tail, the anchor has been given everything. */
  lemma AllGiven(r: B.Ring, h: Hand, who: G.Holder, given: seq<seq<Byte>>, msgs: seq<seq<Byte>>)
    requires Seeing(r, h, who) && who.rd == r.tail && h.got == given + msgs
    ensures h.first + |given| <= |r.frames| && msgs == Messages(r.frames[h.first + |given|..])
  {
    if NextFrame(h) < |r.frames| {
      MarksAscend(r.frames, r.tail, r.cap, NextFrame(h), |r.frames|);
      RecordAhead(r.frames, r.tail, r.cap, NextFrame(h));
    }
    LastGiven(r.frames, h, given, msgs);
  }

  /** What was given last are the messages of the last frames, in order. */
  lemma LastGiven(frames: seq<Frame>, h: Hand, given: seq<seq<Byte>>, msgs: seq<seq<Byte>>)
    requires Given(frames, h) && h.got == given + msgs
    ensures |msgs| <= NextFrame(h) <= |frames|
    ensures msgs == Messages(frames[NextFrame(h) - |msgs|..NextFrame(h)])
  {
    forall i: nat | i < |msgs| ensures msgs[i] == frames[NextFrame(h) - |msgs| + i].msg {
      assert msgs[i] == h.got[|given| + i];
    }
  }
}
