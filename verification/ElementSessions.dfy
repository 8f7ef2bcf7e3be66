/** What subscribing, skipping, flushing, closing and recovering come to in the lossy element ring. */
module ElementSessions {
  import opened Framing
  import opened ElementRing

  /** A new reader has nothing behind it and nothing ahead. */
  lemma JoinsAtTheTail(s: System)
    ensures var t := Apply(s, DoSubscribe);
      && t.ring == s.ring && |t.readers| == |s.readers| + 1 && t.readers[..|s.readers|] == s.readers
      && var a := t.readers[|s.readers|];
      a.join == a.pos == a.tailCache == s.ring.tail && a.log == [] && a.pc.Idle?
  {
  }

  /** Skipping puts an idle reader at the tail, never back, and tells it how far that was. */
  lemma SkipLands(s: System, i: nat)
    requires i < |s.readers| && s.readers[i].pc.Idle?
    ensures var t := Apply(s, DoSkip(i)); var a, b := s.readers[i], t.readers[i];
      && t == s.(readers := s.readers[i := b])
      && b.pos >= s.ring.tail && b.pos >= a.pos && (b.pos == s.ring.tail || b.pos == a.pos)
      && b == a.(pos := b.pos, tailCache := s.ring.tail, log := a.log + [Skip(b.pos - a.pos)])
  {
  }

  function With(s: System, i: nat, a: Reader): System
    requires i < |s.readers|
  {
    s.(readers := s.readers[i := a])
  }

  lemma RunTo(s: System, actions: seq<Action>, k: nat, t: System, u: System)
    requires k < |actions| && Run(s, actions[..k]) == t && u == Apply(t, actions[k])
    ensures Run(s, actions[..k + 1]) == u
  {
    assert actions[..k + 1][..k] == actions[..k];
  }

  function Drains(i: nat): seq<Action> {
    [DoFlush, DoProduce, DoClose, DoProduce, DoSkip(i), DoPop(i), DoRead(i), DoRead(i), DoRead(i)]
  }

  /** A producer that flushes and closes leaves its whole debt published, and a reader that then skips and
      pops is told how much it skipped and that the ring is closed, and nothing else. */
  lemma SkippedThenClosed(s: System, i: nat)
    requires s.ring.prod.Ready? && s.ring.prod.next >= s.ring.tail
    requires s.ring.prod.unpub == s.ring.prod.next - s.ring.tail && i < |s.readers| && s.readers[i].pc.Idle?
    ensures var t := Run(s, Drains(i)); var a, tail := s.readers[i], s.ring.prod.next;
      && i < |t.readers| && t.ring == s.ring.(tail := tail, closed := true, prod := Dead) && t.readers[i].pc.Idle?
      && var skipped: nat := if tail > a.pos then tail - a.pos else 0;
         t.readers[i].pos == a.pos + skipped && t.readers[i].log == a.log + [Skip(skipped), Shut]
  {
    var more := Drains(i);
    assert more[..0] == [] && more[..9] == more;
    var tail := s.ring.prod.next;
    var s4 := s.(ring := s.ring.(tail := tail, closed := true, prod := Dead));
    FlushesAndCloses(s, more, s4);
    SkipLands(s4, i);
    var s5 := Apply(s4, DoSkip(i));
    RunTo(s, more, 4, s4, s5);
    NothingAhead(s, more, s5, i);
  }

  lemma FlushesAndCloses(s: System, more: seq<Action>, t: System)
    requires |more| == 9 && Run(s, more[..0]) == s
    requires more[0] == DoFlush && more[1] == DoProduce && more[2] == DoClose && more[3] == DoProduce
    requires s.ring.prod.Ready? && s.ring.prod.next >= s.ring.tail
    requires s.ring.prod.unpub == s.ring.prod.next - s.ring.tail
    requires t == s.(ring := s.ring.(tail := s.ring.prod.next, closed := true, prod := Dead))
    ensures Run(s, more[..4]) == t
  {
    var p := s.ring.prod;
    var s2 := s.(ring := s.ring.(tail := p.next, prod := Ready(p.next, p.batch, 0)));
    Flushes(s, more, s2);
    var s3 := s2.(ring := s2.ring.(prod := CloseDue));
    RunTo(s, more, 2, s2, s3);
    RunTo(s, more, 3, s3, t);
  }

  lemma Flushes(s: System, more: seq<Action>, t: System)
    requires |more| == 9 && Run(s, more[..0]) == s && more[0] == DoFlush && more[1] == DoProduce
    requires s.ring.prod.Ready? && s.ring.prod.next >= s.ring.tail
    requires s.ring.prod.unpub == s.ring.prod.next - s.ring.tail
    requires t == s.(ring := s.ring.(tail := s.ring.prod.next, prod := Ready(s.ring.prod.next, s.ring.prod.batch, 0)))
    ensures Run(s, more[..2]) == t
  {
    var p := s.ring.prod;
    var s1 := s.(ring := s.ring.(prod := if p.unpub > 0 then PublishDue(p.next, p.batch, false) else p));
    RunTo(s, more, 0, s, s1);
    RunTo(s, more, 1, s1, t);
  }

  lemma ReadsTo(s: System, more: seq<Action>, k: nat, t: System, i: nat, a: Reader, b: Reader)
    requires k < |more| && i < |t.readers| && Run(s, more[..k]) == With(t, i, a)
    requires more[k] == DoRead(i) && b == ReadStep(t.ring, a)
    ensures Run(s, more[..k + 1]) == With(t, i, b)
  {
    assert t.readers[i := a][i := b] == t.readers[i := b];
    RunTo(s, more, k, With(t, i, a), With(t, i, b));
  }

  lemma NothingAhead(s: System, more: seq<Action>, t: System, i: nat)
    requires |more| == 9 && Run(s, more[..5]) == t && i < |t.readers|
    requires more[5] == DoPop(i) && more[6] == more[7] == more[8] == DoRead(i) && t.ring.closed
    requires var b := t.readers[i]; b.pc.Idle? && b.tailCache == t.ring.tail <= b.pos
    ensures var b := t.readers[i]; Run(s, more[..9]) == With(t, i, b.(log := b.log + [Shut]))
  {
    var b := t.readers[i];
    RunTo(s, more, 5, t, With(t, i, b.(pc := RefreshDue)));
    ReadsTo(s, more, 6, t, i, b.(pc := RefreshDue), b.(pc := ClosedDue));
    ReadsTo(s, more, 7, t, i, b.(pc := ClosedDue), b.(pc := DrainDue));
    ReadsTo(s, more, 8, t, i, b.(pc := DrainDue), b.(log := b.log + [Shut]));
  }

  /** A death at any point forfeits exactly what was not published, and the next producer starts at the
      tail without batching. */
  lemma RecoveryResumes(s: System)
    requires s.ring.tail <= |s.ring.made|
    ensures var t := Run(s, [DoCrash, DoAttach, DoAttach]);
      && t.readers == s.readers && t.ring.prod == Ready(s.ring.tail, 1, 0) && t.ring.made == s.ring.made[..s.ring.tail]
      && t.ring == s.ring.(closed := false, prod := t.ring.prod, made := t.ring.made)
  {
    var more := [DoCrash, DoAttach, DoAttach];
    assert more[..0] == [] && more[..3] == more;
    var s1 := s.(ring := Crash(s.ring));
    RunTo(s, more, 0, s, s1);
    var s2 := s.(ring := Attach(s1.ring));
    RunTo(s, more, 1, s1, s2);
    RunTo(s, more, 2, s2, s.(ring := Attach(s2.ring)));
  }
}
