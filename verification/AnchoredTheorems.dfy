/** What the anchored byte ring promises its two kinds of reader, over every run. */
module AnchoredTheorems {
  import opened Framing
  import G = Gate
  import P = GateProof
  import S = GateScan
  import B = BytesRing
  import opened BytesProof
  import opened BytesReaders
  import T = BytesTheorems
  import opened AnchoredBytes
  import opened AnchoredProof

  predicate Joined(s: Anchored, i: nat) { Holds(s, i) && s.gate.slots[i].state.Active? }

  /** What anchor i has been given is exactly the messages framed from its join point on, without a gap;
      its cursor is at the frame that comes next; with its cursor at the tail it has them all. */
  predicate HasReceived(r: B.Ring, h: Hand, who: G.Holder) {
    && who.Live? && h.first + |h.got| <= |r.frames|
    && who.join == Mark(r.frames, r.tail, h.first)
    && h.got == Messages(r.frames[h.first..h.first + |h.got|])
    && Next(r, h.first + |h.got|, who.rd)
    && (who.rd == r.tail ==> h.got == Messages(r.frames[h.first..]))
  }

  lemma AnchorHasReceived(s: Anchored, i: nat)
    requires AnchoredInv(s) && Joined(s, i)
    ensures HasReceived(s.sys.ring, s.hands[i], s.gate.slots[i].who)
  {
    assert HandOk(s.sys.ring, s.gate.slots[i], s.hands[i]);
    ReceivedAll(s.sys.ring, s.hands[i], s.gate.slots[i].who);
  }

  /** Every joined anchor receives everything pushed from its join point on, in order. */
  lemma AnchorsReceiveEverything(cap: Size, n: nat, actions: seq<Action>, i: nat)
    requires LegalCapacity(cap) && Joined(Run(Start(cap, n), actions), i)
    ensures var s := Run(Start(cap, n), actions); HasReceived(s.sys.ring, s.hands[i], s.gate.slots[i].who)
  {
    RunKeeps(cap, n, actions);
    AnchorHasReceived(Run(Start(cap, n), actions), i);
  }

  lemma ReceivedAll(r: B.Ring, h: Hand, who: G.Holder)
    requires Geometry(r.cap) && Framed(r.frames, r.tail, r.cap) && who.Live? && Reads(r, h, who)
    ensures var k := h.first + |h.got|; k <= |r.frames| && h.got == Messages(r.frames[h.first..k])
    ensures who.rd == r.tail ==> h.got == Messages(r.frames[h.first..])
  {
    var k := h.first + |h.got|;
    forall j: nat | j < |h.got| ensures h.got[j] == r.frames[h.first..k][j].msg {
    }
    if k < |r.frames| {
      FramedAll(r.frames, r.tail, r.cap, k);
      FrameShape(r.frames[k], r.cap);
    } else {
      assert r.frames[h.first..k] == r.frames[h.first..];
    }
  }

  /** What it is decoding is a prefix of the next message. */
  predicate DecodesExactly(r: B.Ring, h: Hand) {
    h.pc.CopyDue? ==>
      && h.first + |h.got| < |r.frames|
      && var m := r.frames[h.first + |h.got|].msg;
        h.pc.len == |m| && |h.pc.out| <= |m| && h.pc.out == m[..|h.pc.out|]
  }

  lemma OwedDecodes(r: B.Ring, h: Hand, who: G.Holder)
    requires Owed(r, h, who)
    ensures DecodesExactly(r, h)
  {
  }

  lemma AnchorDecodes(s: Anchored, i: nat)
    requires AnchoredInv(s) && Joined(s, i)
    ensures DecodesExactly(s.sys.ring, s.hands[i])
  {
    AnchorOwed(s, i);
    OwedDecodes(s.sys.ring, s.hands[i], s.gate.slots[i].who);
  }

  /** An anchor validates nothing, and never sees a torn or overwritten byte. */
  lemma DecodesNeverTear(cap: Size, n: nat, actions: seq<Action>, i: nat)
    requires LegalCapacity(cap) && Joined(Run(Start(cap, n), actions), i)
    ensures var s := Run(Start(cap, n), actions); DecodesExactly(s.sys.ring, s.hands[i])
  {
    RunKeeps(cap, n, actions);
    AnchorDecodes(Run(Start(cap, n), actions), i);
  }

  // ------------------------------------------------------------------ a decode ends

  /** The loads left before a decode of the message delivers it, the delivery counted. */
  function Todo(f: Frame, pc: B.ReadPc): nat {
    match pc
    case LengthDue(c) => (if c == f.Rec() then 2 else 3) + LaneCount(|f.msg|)
    case CopyDue(_, len, out) => 1 + (if |out| < len then LaneCount(len - |out|) else 0)
    case _ => 0
  }

  /** A hand in the middle of the message it is owed. */
  predicate MidDecode(frames: seq<Frame>, h: Hand) { !h.pc.Idle? && h.first + |h.got| < |frames| }

  function Left(frames: seq<Frame>, h: Hand): nat
    requires MidDecode(frames, h)
  {
    Todo(frames[h.first + |h.got|], h.pc)
  }

  /** n steps on: the message owed handed over if that was all it took, else that much closer to it. */
  predicate Progress(frames: seq<Frame>, h: Hand, h': Hand, n: nat)
    requires MidDecode(frames, h)
  {
    if n == Left(frames, h) then h'.got == h.got + [frames[h.first + |h.got|].msg]
    else
      && n < Left(frames, h) && MidDecode(frames, h') && h'.got == h.got && h'.first == h.first
      && Left(frames, h') == Left(frames, h) - n
  }

  function NextHand(r: B.Ring, h: Hand): Hand {
    if Copied(h.pc) then HandedOver(h) else LoadStep(r, h)
  }

  lemma LanesLeft(len: nat, have: nat)
    requires have < len
    ensures LaneCount(len - have) == 1 + (if len - have > 4 then LaneCount(len - have - 4) else 0)
  {
  }

  lemma HeaderAdvances(r: B.Ring, h: Hand, rd: nat, c: nat)
    requires OnFrame(r, rd) && InWindow(r, rd) && CursorOk(r, rd, c) && h.pc == B.LengthDue(c)
    requires MidDecode(r.frames, h) && FrameOf(r, rd) == r.frames[h.first + |h.got|]
    ensures Progress(r.frames, h, LoadStep(r, h), 1)
  {
    HeaderSeen(r, rd, c);
    SkipLands(FrameOf(r, rd), c, r.cap);
  }

  lemma LaneAdvances(r: B.Ring, h: Hand, c: nat, len: nat, out: seq<Byte>)
    requires h.pc == B.CopyDue(c, len, out) && |out| < len && MidDecode(r.frames, h)
    ensures Progress(r.frames, h, LoadStep(r, h), 1)
  {
    LanesLeft(len, |out|);
  }

  lemma LoadAdvances(r: B.Ring, h: Hand, who: G.Holder)
    requires Owed(r, h, who) && MidDecode(r.frames, h) && !Copied(h.pc)
    ensures Progress(r.frames, h, LoadStep(r, h), 1)
  {
    if h.pc.LengthDue? {
      HeaderAdvances(r, h, who.rd, h.pc.cursor);
    } else {
      LaneAdvances(r, h, h.pc.cursor, h.pc.len, h.pc.out);
    }
  }

  lemma DeliversOwed(r: B.Ring, h: Hand, who: G.Holder)
    requires Owed(r, h, who) && MidDecode(r.frames, h) && Copied(h.pc)
    ensures Progress(r.frames, h, HandedOver(h), 1)
  {
    OwedDecodes(r, h, who);
    var m := r.frames[h.first + |h.got|].msg;
    assert m[..|m|] == m;
  }

  lemma HandAdvances(r: B.Ring, h: Hand, who: G.Holder)
    requires Owed(r, h, who) && MidDecode(r.frames, h)
    ensures Progress(r.frames, h, NextHand(r, h), 1)
  {
    if Copied(h.pc) {
      DeliversOwed(r, h, who);
    } else {
      LoadAdvances(r, h, who);
    }
  }

  lemma DecodeShape(s: Anchored, i: nat)
    requires Joined(s, i)
    ensures var t := Decode(s, i); t.sys == s.sys && Joined(t, i) && t.hands[i] == NextHand(s.sys.ring, s.hands[i])
  {
  }

  lemma ProgressAdds(frames: seq<Frame>, h: Hand, h1: Hand, h2: Hand, n: nat)
    requires MidDecode(frames, h) && n < Left(frames, h)
    requires Progress(frames, h, h1, n) && Progress(frames, h1, h2, 1)
    ensures Progress(frames, h, h2, n + 1)
  {
  }

  function Decodes(i: nat, n: nat): seq<Action> { seq(n, _ => DoDecode(i)) }

  lemma DecodesMore(s: Anchored, i: nat, n: nat)
    ensures Run(s, Decodes(i, n + 1)) == Decode(Run(s, Decodes(i, n)), i)
  {
    assert Decodes(i, n + 1)[..n] == Decodes(i, n);
  }

  lemma DecodeStep(s: Anchored, i: nat)
    requires AnchoredInv(s) && Joined(s, i) && MidDecode(s.sys.ring.frames, s.hands[i])
    ensures var t := Decode(s, i);
      AnchoredInv(t) && t.sys == s.sys && Joined(t, i) && Progress(s.sys.ring.frames, s.hands[i], t.hands[i], 1)
  {
    DecodeKeeps(s, i);
    DecodeShape(s, i);
    AnchorOwed(s, i);
    HandAdvances(s.sys.ring, s.hands[i], s.gate.slots[i].who);
  }

  /** Left to itself, a decode in progress hands over exactly the message owed, in exactly the steps left. */
  lemma {:induction false} DecodeDelivers(s: Anchored, i: nat, n: nat)
    requires AnchoredInv(s) && Joined(s, i) && MidDecode(s.sys.ring.frames, s.hands[i])
    requires n <= Left(s.sys.ring.frames, s.hands[i])
    ensures var t := Run(s, Decodes(i, n));
      AnchoredInv(t) && t.sys == s.sys && Joined(t, i) && Progress(s.sys.ring.frames, s.hands[i], t.hands[i], n)
  {
    if n > 0 {
      DecodeDelivers(s, i, n - 1);
      DecodesMore(s, i, n - 1);
      DecodesOn(s, Run(s, Decodes(i, n - 1)), i, n - 1);
    } else {
      DecodeStarts(s, i);
    }
  }

  lemma DecodeStarts(s: Anchored, i: nat)
    requires AnchoredInv(s) && Joined(s, i) && MidDecode(s.sys.ring.frames, s.hands[i])
    ensures Progress(s.sys.ring.frames, s.hands[i], s.hands[i], 0)
  {
    assert HandOk(s.sys.ring, s.gate.slots[i], s.hands[i]);
    LeftIsPositive(s.sys.ring.frames, s.hands[i]);
  }

  lemma DecodesOn(s: Anchored, t: Anchored, i: nat, n: nat)
    requires Joined(s, i) && MidDecode(s.sys.ring.frames, s.hands[i]) && n < Left(s.sys.ring.frames, s.hands[i])
    requires AnchoredInv(t) && t.sys == s.sys && Joined(t, i)
    requires Progress(s.sys.ring.frames, s.hands[i], t.hands[i], n)
    ensures var u := Decode(t, i);
      AnchoredInv(u) && u.sys == s.sys && Joined(u, i) && Progress(s.sys.ring.frames, s.hands[i], u.hands[i], n + 1)
  {
    DecodeStep(t, i);
    ProgressAdds(s.sys.ring.frames, s.hands[i], t.hands[i], Decode(t, i).hands[i], n);
  }

  lemma LeftIsPositive(frames: seq<Frame>, h: Hand)
    requires MidDecode(frames, h) && (h.pc.LengthDue? || h.pc.CopyDue?)
    ensures Left(frames, h) > 0
  {
  }

  /** What slot i's holder is given next. */
  function OwedMsg(s: Anchored, i: nat): seq<Byte> {
    if i < |s.hands| && s.hands[i].first + |s.hands[i].got| < |s.sys.ring.frames| then
      s.sys.ring.frames[s.hands[i].first + |s.hands[i].got|].msg
    else []
  }

  /** A view that is forgotten is not consumed: nothing of it is published, only padding stays behind the
      cursor... */
  lemma ForgottenStays(s: Anchored, i: nat)
    requires AnchoredInv(s) && Joined(s, i) && s.hands[i].pc.CopyDue?
    ensures Apply(s, DoForget(i)) == Forget(s, i)
    ensures var t := Forget(s, i); var who, who' := s.gate.slots[i].who, t.gate.slots[i].who;
      && AnchoredInv(t) && Joined(t, i) && t.sys == s.sys && t.hands[i] == s.hands[i].(pc := B.ReadPc.Idle)
      && t.gate.slots[i].cursor == s.gate.slots[i].cursor && who' == who.(rd := who'.rd)
      && who.rd <= who'.rd == s.hands[i].pc.cursor < who'.cache
  {
    AnchorOwed(s, i);
    ForgetKeeps(s, i);
    ForgetsTo(s.sys.ring, s.hands[i], s.gate.slots[i].who);
    ForgetShape(s, i);
    ForgetIs(s, i);
  }

  lemma ForgetIs(s: Anchored, i: nat)
    ensures Apply(s, DoForget(i)) == Forget(s, i)
  {
  }

  lemma ForgetShape(s: Anchored, i: nat)
    requires Joined(s, i) && s.hands[i].pc.CopyDue?
    requires s.gate.slots[i].who.rd <= s.hands[i].pc.cursor <= s.gate.slots[i].who.cache
    ensures var t := Forget(s, i); var who := s.gate.slots[i].who;
      && Joined(t, i) && t.sys == s.sys && t.hands[i] == s.hands[i].(pc := B.ReadPc.Idle)
      && t.gate.slots[i] == s.gate.slots[i].(who := who.(rd := s.hands[i].pc.cursor))
  {
  }

  lemma BeginsOn(s: Anchored, i: nat)
    requires AnchoredInv(s) && Joined(s, i) && s.hands[i].pc.Idle?
    requires s.gate.slots[i].who.rd < s.gate.slots[i].who.cache
    ensures var u := Begin(s, i);
      && AnchoredInv(u) && Joined(u, i) && u.sys == s.sys && MidDecode(u.sys.ring.frames, u.hands[i])
      && u.hands[i] == s.hands[i].(pc := u.hands[i].pc)
  {
    AnchorOwed(s, i);
    BeginKeeps(s, i);
  }

  /** Slot i's holder has been given one message since. */
  predicate Gave(s: Anchored, t: Anchored, i: nat, msg: seq<Byte>) {
    i < |s.hands| && i < |t.hands| && Joined(t, i) && t.hands[i].got == s.hands[i].got + [msg]
  }

  lemma GivesOwed(s: Anchored, i: nat) returns (n: nat)
    requires AnchoredInv(s) && Joined(s, i) && MidDecode(s.sys.ring.frames, s.hands[i])
    ensures Gave(s, Run(s, Decodes(i, n)), i, OwedMsg(s, i))
  {
    n := Left(s.sys.ring.frames, s.hands[i]);
    DecodeDelivers(s, i, n);
    AllProgress(s, Run(s, Decodes(i, n)), i, n);
  }

  lemma AllProgress(s: Anchored, t: Anchored, i: nat, n: nat)
    requires Joined(s, i) && Joined(t, i) && MidDecode(s.sys.ring.frames, s.hands[i])
    requires n == Left(s.sys.ring.frames, s.hands[i]) && Progress(s.sys.ring.frames, s.hands[i], t.hands[i], n)
    ensures Gave(s, t, i, OwedMsg(s, i))
  {
  }

  function BegunAgain(s: Anchored, i: nat): Anchored { Apply(Apply(s, DoForget(i)), DoBegin(i)) }

  lemma BeginsAgain(s: Anchored, i: nat)
    requires AnchoredInv(s) && Joined(s, i) && s.hands[i].pc.CopyDue?
    ensures var u := BegunAgain(s, i);
      && AnchoredInv(u) && Joined(u, i) && MidDecode(u.sys.ring.frames, u.hands[i])
      && OwedMsg(u, i) == OwedMsg(s, i) && u.hands[i].got == s.hands[i].got
  {
    ForgottenStays(s, i);
    var t := Forget(s, i);
    BeginsOn(t, i);
    assert Apply(t, DoBegin(i)) == Begin(t, i);
    SameOwed(s, t, i);
    SameOwed(t, Begin(t, i), i);
  }

  lemma SameOwed(s: Anchored, t: Anchored, i: nat)
    requires i < |s.hands| && i < |t.hands| && t.sys == s.sys && t.hands[i] == s.hands[i].(pc := t.hands[i].pc)
    ensures OwedMsg(t, i) == OwedMsg(s, i) && t.hands[i].got == s.hands[i].got
  {
  }

  /** ...and the next decode, left to itself, hands over the same message. */
  lemma ForgottenComesAgain(s: Anchored, i: nat) returns (n: nat)
    requires AnchoredInv(s) && Joined(s, i) && s.hands[i].pc.CopyDue?
    ensures Gave(s, Run(BegunAgain(s, i), Decodes(i, n)), i, OwedMsg(s, i))
  {
    BeginsAgain(s, i);
    n := GivesOwed(BegunAgain(s, i), i);
    GaveSame(s, BegunAgain(s, i), Run(BegunAgain(s, i), Decodes(i, n)), i, OwedMsg(s, i));
  }

  lemma GaveSame(s: Anchored, u: Anchored, v: Anchored, i: nat, msg: seq<Byte>)
    requires i < |s.hands| && i < |u.hands| && u.hands[i].got == s.hands[i].got && Gave(u, v, i, msg)
    ensures Gave(s, v, i, msg)
  {
  }

  lemma ForgetsTo(r: B.Ring, h: Hand, who: G.Holder)
    requires Owed(r, h, who) && h.pc.CopyDue?
    ensures h.first + |h.got| < |r.frames| && var f := r.frames[h.first + |h.got|];
      who.rd <= h.pc.cursor == f.Rec() < f.End() <= who.cache
  {
    NextMark(r.frames, r.tail, r.cap, h.first + |h.got|, h.seen);
  }

  /** Every message an observer accepts is exact, and its accounting is exact too. */
  lemma ObserversAcceptExactly(cap: Size, n: nat, actions: seq<Action>, i: nat, j: nat)
    requires LegalCapacity(cap)
    requires var s := Run(Start(cap, n), actions).sys; i < |s.readers| && j < |s.readers[i].log|
    ensures var s := Run(Start(cap, n), actions).sys; var a := s.readers[i]; var e := a.log[j];
      && a.pos == a.join + T.Total(a.log)
      && (e.Got? ==> exists k: nat :: (k < |s.ring.frames| && s.ring.frames[k].msg == e.msg
                                       && s.ring.frames[k].End() == e.end))
  {
    RunKeeps(cap, n, actions);
    var s := Run(Start(cap, n), actions).sys;
    var a := s.readers[i];
    assert ReaderInv(s.ring, a);
    T.LogTotal(s.ring.frames, s.ring.tail, a.join, a.log, a.pos);
    T.LogEntry(s.ring.frames, s.ring.tail, a.join, a.log, a.pos, j);
    if a.log[j].Got? {
      var k := IndexOf(s.ring.frames, a.log[j].at);
      assert s.ring.frames[k].msg == a.log[j].msg;
    }
  }

  /** The declared intent never reaches over what a joined anchor has not released: what it may still read,
      and what it may still be borrowing. */
  lemma IntentRespectsAnchors(cap: Size, n: nat, actions: seq<Action>, i: nat)
    requires LegalCapacity(cap) && Joined(Run(Start(cap, n), actions), i)
    ensures var s := Run(Start(cap, n), actions); s.sys.ring.intent <= s.gate.slots[i].who.pub + s.gate.cap
  {
    RunKeeps(cap, n, actions);
    var s := Run(Start(cap, n), actions);
    assert P.SlotOk(s.gate, i) && P.Protected(s.gate.slots[i]);
  }

  // ------------------------------------------------------------------ any legal frame fits

  lemma {:induction false} RunCap(cap: Size, n: nat, actions: seq<Action>)
    ensures Run(Start(cap, n), actions).sys.ring.cap == cap
  {
    if actions != [] {
      var m := |actions| - 1;
      RunCap(cap, n, actions[..m]);
      CapStays(Run(Start(cap, n), actions[..m]), actions[m]);
    }
  }

  lemma CapStays(s: Anchored, a: Action)
    ensures Apply(s, a).sys.ring.cap == s.sys.ring.cap
  {
  }

  ghost predicate EveryFrameFits(cap: Size) {
    forall next: nat, len: nat | next % 8 == 0 && len <= MaxMessageLen(cap) ::
      PadFor(next, len, cap) + RecordLen(len) < cap
  }

  lemma FrameWithinSpan(cap: Size, next: nat, len: nat)
    requires Geometry(cap) && next % 8 == 0 && len <= MaxMessageLen(cap)
    ensures PadFor(next, len, cap) + RecordLen(len) <= MaxRecordSpan(cap)
  {
    PadShape(next, len, cap);
    SpanShape(next, PadFor(next, len, cap), len, MaxMessageLen(cap));
  }

  /** The sixteen-byte floor is what makes free-running possible: every legal frame is short of the whole
      capacity, at every cursor position, exactly from there on. */
  lemma SixteenIsTheFloor(cap: Size)
    requires LegalCapacity(cap)
    ensures EveryFrameFits(cap) <==> cap >= 16
  {
    LegalCapacityIsAligned(cap);
    SpanBelowCapacity(cap);
    if cap >= 16 {
      forall next: nat, len: nat | next % 8 == 0 && len <= MaxMessageLen(cap)
        ensures PadFor(next, len, cap) + RecordLen(len) < cap
      {
        FrameWithinSpan(cap, next, len);
      }
    } else {
      assert PadFor(0, 0, cap) + RecordLen(0) == 8;
    }
  }

  /** Once every anchor is drained or gone, the scan grants any legal message wherever the cursor is. */
  lemma AnyMessageFits(cap: Size, n: nat, actions: seq<Action>, msg: seq<Byte>)
    requires LegalCapacity(cap) && cap >= 16 && |msg| <= MaxMessageLen(cap)
    requires var g := Run(Start(cap, n), actions).gate; g.prod.Up? && g.prod.pc.Idle? && S.Drained(g)
    ensures var g := Run(Start(cap, n), actions).gate; var needed := Needed(g.prod.next, msg, cap);
      S.Scanning(S.Begin(g, needed)) && S.Finish(S.Begin(g, needed)).prod.Up?
      && S.Finish(S.Begin(g, needed)).prod.pc == G.Granted(needed)
  {
    RunKeeps(cap, n, actions);
    RunCap(cap, n, actions);
    var s := Run(Start(cap, n), actions);
    FramedAligned(s.sys.ring.frames, s.sys.ring.tail, cap);
    SixteenIsTheFloor(cap);
    S.DrainedGrants(s.gate, Needed(s.gate.prod.next, msg, cap));
  }
}
