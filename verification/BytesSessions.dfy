/** What the lossy byte ring's counters and calls come to over a session: where `latest` stands, what skipping
    and subscribing leave a reader with, and what a recovery hands to the next producer. */
module BytesSessions {
  import opened Framing
  import opened BytesRing
  import opened BytesProof
  import opened BytesReaders
  import opened BytesTheorems

  // ------------------------------------------------------------------ `latest`

  /** `latest` is the newest committed record, or the tail, where a recovery has put it. */
  predicate Newest(r: Ring) {
    r.latest == r.tail || (r.frames != [] && r.latest == r.frames[|r.frames| - 1].start + r.frames[|r.frames| - 1].pad)
  }

  /** Newest except in between a push's last two stores, and after a death until it is healed: then the
      declared intent gives it away. */
  predicate LatestOk(r: Ring) {
    match r.prod
    case Writing(_, _, _, stage) => stage.TailDue? || Newest(r)
    case Dead => r.intent == r.tail ==> Newest(r)
    case Opened => r.intent == r.tail ==> Newest(r)
    case _ => Newest(r)
  }

  lemma LatestStep(r: Ring, a: Action)
    requires RingInv(r) && LatestOk(r)
    ensures LatestOk(Apply(System(r, []), a).ring)
  {
    match a
    case DoDeclare(_) => DeclareLatest(r, a.msg);
    case DoProduce => ProduceLatest(r);
    case DoCrash => CrashLatest(r);
    case _ =>
  }

  lemma DeclareLatest(r: Ring, msg: seq<Byte>)
    requires LatestOk(r)
    ensures LatestOk(Declare(r, msg))
  {
  }

  lemma ProduceLatest(r: Ring)
    requires RingInv(r) && LatestOk(r)
    ensures LatestOk(Produce(r))
  {
    if r.prod.Writing? && r.prod.stage.TailDue? {
      var f, r' := NewFrame(r.prod.next, r.prod.msg, r.cap), Produce(r);
      assert r.latest == f.Rec() && r'.frames[|r'.frames| - 1] == f && r'.latest == r.latest;
    }
  }

  /** A push in progress shows: it has declared more than is committed. */
  lemma CrashLatest(r: Ring)
    requires RingInv(r) && LatestOk(r)
    ensures LatestOk(Crash(r))
  {
    if r.prod.Writing? {
      PushDeclares(r.prod.next, r.prod.msg, r.cap);
    }
  }

  lemma PushDeclares(next: nat, msg: seq<Byte>, cap: Size)
    ensures NewFrame(next, msg, cap).End() > next
  {
  }

  lemma {:induction false} RunLatest(cap: Size, actions: seq<Action>)
    requires LegalCapacity(cap)
    ensures LatestOk(Run(Start(cap), actions).ring)
  {
    if actions != [] {
      var n := |actions| - 1;
      RunLatest(cap, actions[..n]);
      RunKeeps(cap, actions[..n]);
      var s := Run(Start(cap), actions[..n]);
      LatestStep(s.ring, actions[n]);
      SameRing(s, actions[n]);
    }
  }

  lemma SameRing(s: System, a: Action)
    ensures Apply(s, a).ring == Apply(System(s.ring, []), a).ring
  {
  }

  /** Between the stores of `latest` and of the tail, and nowhere else in a producer's life. */
  predicate TailPending(p: Producer) { p.Writing? && p.stage.TailDue? }

  /** Where a lapped reader is put under a living producer, whatever crashed before: its jump ends at the
      newest committed record, or at the tail, or where it was, except that between a push's last two stores
      the record about to be committed is the newest. */
  lemma JumpsToTheNewest(cap: Size, actions: seq<Action>, i: nat)
    requires LegalCapacity(cap)
    requires var s := Run(Start(cap), actions);
      !s.ring.prod.Dead? && !s.ring.prod.Opened? && i < |s.readers| && s.readers[i].pc.JumpDue?
    ensures var s := Run(Start(cap), actions); var r := s.ring; var to := Apply(s, DoRead(i)).readers[i].pos;
      || to == s.readers[i].pos
      || (if TailPending(r.prod) then to == NewFrame(r.tail, r.prod.msg, cap).Rec()
          else to == r.tail
               || (r.frames != [] && to == r.frames[|r.frames| - 1].start + r.frames[|r.frames| - 1].pad))
  {
    RunLatest(cap, actions);
    RunKeeps(cap, actions);
    var r := Run(Start(cap), actions).ring;
    if TailPending(r.prod) {
      PendingLatest(r);
    }
  }

  lemma PendingLatest(r: Ring)
    requires RingInv(r) && TailPending(r.prod)
    ensures r.latest == NewFrame(r.tail, r.prod.msg, r.cap).Rec()
  {
  }

  // ------------------------------------------------------------------ joining, skipping, closing, recovering

  /** A new reader has nothing behind it and nothing ahead. */
  lemma JoinsAtTheTail(s: System)
    ensures var t := Apply(s, DoSubscribe);
      && t.ring == s.ring && |t.readers| == |s.readers| + 1 && t.readers[..|s.readers|] == s.readers
      && var a := t.readers[|s.readers|];
      a.join == a.pos == a.tailCache == s.ring.tail && a.log == [] && a.pc.Idle?
  {
  }

  /** Skipping puts an idle reader at the tail, never back, and tells it how far that was. */
  lemma SkipLands(s: System, i: nat)
    requires i < |s.readers| && s.readers[i].pc.Idle?
    ensures var t := Apply(s, DoSkip(i)); var a, b := s.readers[i], t.readers[i];
      && t == s.(readers := s.readers[i := b])
      && b.pos >= s.ring.tail && b.pos >= a.pos && (b.pos == s.ring.tail || b.pos == a.pos)
      && b == a.(pos := b.pos, tailCache := s.ring.tail, log := a.log + [Skip(b.pos - a.pos)])
  {
  }

  function Drains(i: nat): seq<Action> { [DoClose, DoSkip(i), DoPop(i), DoRead(i), DoRead(i), DoRead(i)] }

  /** A closed ring, abandoned unread: a reader that skips and pops is told how much it skipped and that the
      ring is closed, and nothing else. */
  lemma SkippedThenClosed(s: System, i: nat)
    requires s.ring.prod.Ready? && i < |s.readers| && s.readers[i].pc.Idle?
    ensures var t := Run(s, Drains(i)); var a := s.readers[i];
      && i < |t.readers| && t.ring == s.ring.(closed := true, prod := Dead) && t.readers[i].pc.Idle?
      && var skipped: nat := if s.ring.tail > a.pos then s.ring.tail - a.pos else 0;
         t.readers[i].pos == a.pos + skipped && t.readers[i].log == a.log + [Skip(skipped), Shut]
  {
    var more := Drains(i);
    assert more[..0] == [] && more[..6] == more;
    var s1 := s.(ring := s.ring.(closed := true, prod := Dead));
    RunTo(s, more, 0, s, s1);
    SkipLands(s1, i);
    var s2 := Apply(s1, DoSkip(i));
    RunTo(s, more, 1, s1, s2);
    NothingAhead(s, more, s2, i);
  }

  lemma ReadsTo(s: System, more: seq<Action>, k: nat, t: System, i: nat, a: Reader, b: Reader)
    requires k < |more| && i < |t.readers| && Run(s, more[..k]) == With(t, i, a)
    requires more[k] == DoRead(i) && b == ReadStep(t.ring, a)
    ensures Run(s, more[..k + 1]) == With(t, i, b)
  {
    assert t.readers[i := a][i := b] == t.readers[i := b];
    RunTo(s, more, k, With(t, i, a), With(t, i, b));
  }

  lemma NothingAhead(s: System, more: seq<Action>, t: System, i: nat)
    requires |more| == 6 && Run(s, more[..2]) == t && i < |t.readers|
    requires more[2] == DoPop(i) && more[3] == more[4] == more[5] == DoRead(i) && t.ring.closed
    requires var b := t.readers[i]; b.pc.Idle? && b.tailCache == t.ring.tail <= b.pos
    ensures var b := t.readers[i]; Run(s, more[..6]) == With(t, i, b.(log := b.log + [Shut]))
  {
    var b := t.readers[i];
    RunTo(s, more, 2, t, With(t, i, b.(pc := RefreshDue)));
    ReadsTo(s, more, 3, t, i, b.(pc := RefreshDue), b.(pc := ClosedDue));
    ReadsTo(s, more, 4, t, i, b.(pc := ClosedDue), b.(pc := DrainDue));
    ReadsTo(s, more, 5, t, i, b.(pc := DrainDue), b.(log := b.log + [Shut]));
  }

  function With(s: System, i: nat, a: Reader): System
    requires i < |s.readers|
  {
    s.(readers := s.readers[i := a])
  }

  lemma RunTo(s: System, actions: seq<Action>, k: nat, t: System, u: System)
    requires k < |actions| && Run(s, actions[..k]) == t && u == Apply(t, actions[k])
    ensures Run(s, actions[..k + 1]) == u
  {
    assert actions[..k + 1][..k] == actions[..k];
  }

  /** A death at any point and an attach leave the stream as it was: open, its next producer at the tail, the
      intent not lowered, and `latest` moved to the tail exactly if something was declared beyond it. */
  lemma RecoveryResumes(s: System)
    ensures var t := Run(s, [DoCrash, DoAttach, DoAttach, DoAttach]); var r := t.ring;
      && t.readers == s.readers && !r.closed && r.prod.Ready? && r.prod.next == s.ring.tail
      && r.prod.floor >= r.tail && r.prod.floor >= r.intent && (r.prod.floor == r.tail || r.prod.floor == r.intent)
      && r.latest == (if s.ring.intent == s.ring.tail then s.ring.latest else s.ring.tail)
      && r == s.ring.(closed := false, latest := r.latest, prod := r.prod)
  {
    var more := [DoCrash, DoAttach, DoAttach, DoAttach];
    assert more[..0] == [] && more[..4] == more;
    var s1 := s.(ring := Crash(s.ring));
    RunTo(s, more, 0, s, s1);
    var s2 := s.(ring := Attach(s1.ring));
    RunTo(s, more, 1, s1, s2);
    var s3 := s.(ring := Attach(s2.ring));
    RunTo(s, more, 2, s2, s3);
    RunTo(s, more, 3, s3, s.(ring := Attach(s3.ring)));
  }
}
