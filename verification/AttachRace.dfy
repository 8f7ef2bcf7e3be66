/** Attaching to a gated ring while its consumer table is being reset: the region's generation is odd
    during a reset, an attacher remembers the even generation it validated and looks again after its claim.
    What that protects in every interleaving, and exactly when it does not protect enough. */
module AttachRace {
  import G = Gate

  /** A table slot with the lease word beside it; a lease of 0 is nobody's. */
  datatype Entry = Entry(epoch: nat, state: G.State, cursor: G.Cursor, lease: nat)

  /** The next store of the reset: each slot's sentinel, then its lease, its control word last. */
  datatype Reset = Rest | SentinelDue(i: nat) | LeaseDue(i: nat) | ControlDue(i: nat)

  /** What is left of a claim after its compare-and-swap. */
  datatype Stage = LoadFirst | StoreFirst(p: nat) | LoadJoin | StoreJoin(j: nat) | SignDue | CheckDue

  /** An attacher on its way in; `snap` is the generation it validated. */
  datatype Pc =
    | Outside
    | Opened(snap: nat)
    | Claiming(snap: nat, i: nat, epoch: nat, stage: Stage)
    | Live(snap: nat, i: nat, epoch: nat)
    | Refused(i: nat)   // the generation had moved: the slot stays as it is, nobody's

  datatype Region = Region(gen: nat, tail: nat, slots: seq<Entry>, reset: Reset, who: seq<Pc>)

  datatype Action = DoPublish | DoBeginReset | DoReset | DoOpen(k: nat) | DoClaim(k: nat, i: nat) | DoAttach(k: nat)

  function Token(k: nat): nat { k + 1 }

  function BeginReset(r: Region): Region {
    if r.reset.Rest? then r.(gen := if r.gen % 2 == 0 then r.gen + 1 else r.gen, reset := SentinelDue(0)) else r
  }

  function ResetStep(r: Region): Region {
    match r.reset
    case Rest => r
    case SentinelDue(i) =>
      if i < |r.slots| then
        r.(slots := r.slots[i := r.slots[i].(cursor := G.Detached)], reset := LeaseDue(i))
      else r.(gen := r.gen + 1, reset := Rest)
    case LeaseDue(i) =>
      if i < |r.slots| then r.(slots := r.slots[i := r.slots[i].(lease := 0)], reset := ControlDue(i)) else r
    case ControlDue(i) =>
      if i < |r.slots| then
        r.(slots := r.slots[i := r.slots[i].(epoch := r.slots[i].epoch + 1, state := G.Free)],
           reset := SentinelDue(i + 1))
      else r
  }

  function Put(r: Region, k: nat, pc: Pc): Region
    requires k < |r.who|
  {
    r.(who := r.who[k := pc])
  }

  /** Validation succeeds only on an even generation. */
  function Open(r: Region, k: nat): Region {
    if k < |r.who| && r.who[k].Outside? && r.gen % 2 == 0 then Put(r, k, Opened(r.gen)) else r
  }

  function Claim(r: Region, k: nat, i: nat): Region {
    if k < |r.who| && r.who[k].Opened? && i < |r.slots| && r.slots[i].state.Free? then
      var e := r.slots[i].epoch + 1;
      Put(r.(slots := r.slots[i := r.slots[i].(epoch := e, state := G.Active)]), k,
          Claiming(r.who[k].snap, i, e, LoadFirst))
    else r
  }

  /** The rest of a claim: provisional cursor, join point, lease, and the second look at the generation. */
  function AttachStep(r: Region, k: nat): Region {
    if k < |r.who| && r.who[k].Claiming? && r.who[k].i < |r.slots| then
      var p := r.who[k];
      match p.stage
      case LoadFirst => Put(r, k, p.(stage := StoreFirst(r.tail)))
      case StoreFirst(v) =>
        Put(r.(slots := r.slots[p.i := r.slots[p.i].(cursor := G.At(v))]), k, p.(stage := LoadJoin))
      case LoadJoin => Put(r, k, p.(stage := StoreJoin(r.tail)))
      case StoreJoin(v) =>
        Put(r.(slots := r.slots[p.i := r.slots[p.i].(cursor := G.At(v))]), k, p.(stage := SignDue))
      case SignDue =>
        Put(r.(slots := r.slots[p.i := r.slots[p.i].(lease := Token(k))]), k, p.(stage := CheckDue))
      case CheckDue => Put(r, k, if r.gen == p.snap then Live(p.snap, p.i, p.epoch) else Refused(p.i))
    else r
  }

  function Apply(r: Region, a: Action): Region {
    match a
    case DoPublish => r.(tail := r.tail + 1)
    case DoBeginReset => BeginReset(r)
    case DoReset => ResetStep(r)
    case DoOpen(k) => Open(r, k)
    case DoClaim(k, i) => Claim(r, k, i)
    case DoAttach(k) => AttachStep(r, k)
  }

  function Run(r: Region, actions: seq<Action>): Region {
    if actions == [] then r else Apply(Run(r, actions[..|actions| - 1]), actions[|actions| - 1])
  }

  function Start(slots: nat, attachers: nat): Region {
    Region(0, 0, seq(slots, _ => Entry(0, G.Free, G.Detached, 0)), Rest, seq(attachers, _ => Outside))
  }

  // ------------------------------------------------------------------ a reset left alone

  /** The stores of a reset up to its first `n` slots. */
  function ResetSteps(n: nat): seq<Action> {
    if n == 0 then [DoBeginReset] else ResetSteps(n - 1) + [DoReset, DoReset, DoReset]
  }

  lemma RunOne(r: Region, actions: seq<Action>, a: Action)
    ensures Run(r, actions + [a]) == Apply(Run(r, actions), a)
  {
    assert (actions + [a])[..|actions|] == actions;
  }

  /** The reset has freed the slots below `i` of r and is about to free slot i. */
  predicate Freeing(r: Region, u: Region, i: nat) {
    && i <= |r.slots| == |u.slots| && u == r.(gen := u.gen, slots := u.slots, reset := SentinelDue(i))
    && u.gen == r.gen + 1 - r.gen % 2
    && (forall k: nat | k < i :: u.slots[k] == Entry(r.slots[k].epoch + 1, G.Free, G.Detached, 0))
    && (forall k: nat | i <= k < |r.slots| :: u.slots[k] == r.slots[k])
  }

  lemma FreesOne(r: Region, u: Region, i: nat)
    requires Freeing(r, u, i) && i < |r.slots|
    ensures Freeing(r, ResetStep(ResetStep(ResetStep(u))), i + 1)
  {
    var u1 := ResetStep(u);
    var u2 := ResetStep(u1);
    assert u1.reset == LeaseDue(i) && u2.reset == ControlDue(i);
    assert u2.slots[i] == r.slots[i].(cursor := G.Detached, lease := 0);
  }

  lemma {:induction false} FreesBelow(r: Region, n: nat)
    requires r.reset.Rest? && n <= |r.slots|
    ensures Freeing(r, Run(r, ResetSteps(n)), n)
  {
    if n == 0 {
      RunOne(r, [], DoBeginReset);
      assert [] + [DoBeginReset] == [DoBeginReset] && Run(r, []) == r;
    } else {
      FreesBelow(r, n - 1);
      RunThree(r, ResetSteps(n - 1), Run(r, ResetSteps(n - 1)));
      FreesOne(r, Run(r, ResetSteps(n - 1)), n - 1);
    }
  }

  /** A whole reset with nobody else moving: every slot is free under its next epoch, with no cursor and no
      lease, and the region has a new even generation. */
  lemma ResetFreesAll(r: Region)
    requires r.reset.Rest?
    ensures var u := Run(r, ResetSteps(|r.slots|) + [DoReset]);
      && u == r.(gen := u.gen, slots := u.slots) && u.gen == r.gen + 2 - r.gen % 2 && |u.slots| == |r.slots|
      && forall k: nat | k < |r.slots| :: u.slots[k] == Entry(r.slots[k].epoch + 1, G.Free, G.Detached, 0)
  {
    FreesBelow(r, |r.slots|);
    RunOne(r, ResetSteps(|r.slots|), DoReset);
  }

  lemma RunThree(r: Region, more: seq<Action>, u: Region)
    requires Run(r, more) == u
    ensures Run(r, more + [DoReset, DoReset, DoReset]) == ResetStep(ResetStep(ResetStep(u)))
  {
    RunOne(r, more, DoReset);
    RunOne(r, more + [DoReset], DoReset);
    RunOne(r, more + [DoReset] + [DoReset], DoReset);
    assert more + [DoReset] + [DoReset] + [DoReset] == more + [DoReset, DoReset, DoReset];
  }

  /** An attacher that then validates the region takes any slot it likes, under the epoch after that. */
  lemma ResetIsClaimable(r: Region, k: nat, i: nat)
    requires r.reset.Rest? && k < |r.who| && r.who[k].Outside? && i < |r.slots|
    ensures var u := Run(Run(r, ResetSteps(|r.slots|) + [DoReset]), [DoOpen(k), DoClaim(k, i)]);
      var e := r.slots[i].epoch + 2;
      && |u.slots| == |r.slots| && u.slots[i] == Entry(e, G.Active, G.Detached, 0)
      && |u.who| == |r.who| && u.who[k] == Claiming(u.gen, i, e, LoadFirst)
  {
    ResetFreesAll(r);
    OpensAndClaims(Run(r, ResetSteps(|r.slots|) + [DoReset]), k, i);
  }

  lemma OpensAndClaims(r: Region, k: nat, i: nat)
    requires r.gen % 2 == 0 && k < |r.who| && r.who[k].Outside? && i < |r.slots| && r.slots[i].state.Free?
    ensures var e := r.slots[i].epoch + 1;
      Run(r, [DoOpen(k), DoClaim(k, i)]) == r.(slots := r.slots[i := r.slots[i].(epoch := e, state := G.Active)],
                                               who := r.who[k := Claiming(r.gen, i, e, LoadFirst)])
  {
    RunOne(r, [], DoOpen(k));
    RunOne(r, [DoOpen(k)], DoClaim(k, i));
    assert [] + [DoOpen(k)] == [DoOpen(k)] && [DoOpen(k)] + [DoClaim(k, i)] == [DoOpen(k), DoClaim(k, i)];
  }

  // ------------------------------------------------------------------ what the second look protects

  /** In a slot, under the present generation. */
  predicate Current(r: Region, k: nat) {
    k < |r.who| && (r.who[k].Claiming? || r.who[k].Live?) && r.who[k].snap == r.gen
  }

  /** The control word of its slot is the attacher's own. */
  predicate Owns(r: Region, k: nat)
    requires k < |r.who| && (r.who[k].Claiming? || r.who[k].Live?)
  {
    r.who[k].i < |r.slots| && r.slots[r.who[k].i].state.Active? && r.slots[r.who[k].i].epoch == r.who[k].epoch
  }

  predicate SnapOk(r: Region, pc: Pc) {
    (pc.Opened? || pc.Claiming? || pc.Live? ==> pc.snap % 2 == 0 && pc.snap <= r.gen)
  }

  predicate Inv(r: Region) {
    && (r.gen % 2 == 0 <==> r.reset.Rest?)
    && (forall k: nat | k < |r.who| :: SnapOk(r, r.who[k]))
    && (forall k: nat | k < |r.who| && Current(r, k) :: Owns(r, k))
    && (forall k: nat, l: nat | k < l < |r.who| && Current(r, k) && Current(r, l) :: r.who[k].i != r.who[l].i)
  }

  /** Whoever is current after a step was so before, in the same slot, unless it has just claimed. */
  lemma CurrentBefore(r: Region, a: Action, k: nat)
    requires Inv(r) && Current(Apply(r, a), k)
    ensures k < |r.who| && SnapOk(r, r.who[k])
    ensures !(a.DoClaim? && a.k == k && r.who[k].Opened?) ==>
      && Current(r, k) && Apply(r, a).who[k].i == r.who[k].i && Apply(r, a).who[k].epoch == r.who[k].epoch
  {
    assert k < |r.who| && SnapOk(r, r.who[k]);
  }

  lemma OwnsStill(r: Region, a: Action, k: nat)
    requires Inv(r) && Current(Apply(r, a), k)
    ensures Owns(Apply(r, a), k)
  {
    CurrentBefore(r, a, k);
    if !(a.DoClaim? && a.k == k && r.who[k].Opened?) {
      assert Owns(r, k);
    }
  }

  lemma ApartStill(r: Region, a: Action, k: nat, l: nat)
    requires Inv(r) && k != l && Current(Apply(r, a), k) && Current(Apply(r, a), l)
    ensures Apply(r, a).who[k].i != Apply(r, a).who[l].i
  {
    CurrentBefore(r, a, k);
    CurrentBefore(r, a, l);
    if a.DoClaim? && (a.k == k || a.k == l) {
      var other := if a.k == k then l else k;
      assert Current(r, other) ==> Owns(r, other);
    }
  }

  lemma ApplyKeeps(r: Region, a: Action)
    requires Inv(r)
    ensures Inv(Apply(r, a))
  {
    var r' := Apply(r, a);
    forall k: nat | k < |r'.who| ensures SnapOk(r', r'.who[k]) {
      assert k < |r.who| && SnapOk(r, r.who[k]);
    }
    forall k: nat | k < |r'.who| && Current(r', k) ensures Owns(r', k) {
      OwnsStill(r, a, k);
    }
    forall k: nat, l: nat | k < l < |r'.who| && Current(r', k) && Current(r', l) ensures r'.who[k].i != r'.who[l].i {
      ApartStill(r, a, k, l);
    }
  }

  lemma {:induction false} RunKeeps(r: Region, actions: seq<Action>)
    requires Inv(r)
    ensures Inv(Run(r, actions))
  {
    if actions != [] {
      RunKeeps(r, actions[..|actions| - 1]);
      ApplyKeeps(Run(r, actions[..|actions| - 1]), actions[|actions| - 1]);
    }
  }

  /** However attachers and resets interleave: an attacher that was let in, with no reset begun since, has
      its slot's control word to itself, and no other such attacher has the same slot. */
  lemma NobodyIsFreedUnderneath(slots: nat, attachers: nat, actions: seq<Action>, k: nat)
    requires var r := Run(Start(slots, attachers), actions); Current(r, k) && r.who[k].Live?
    ensures var r := Run(Start(slots, attachers), actions);
      && Owns(r, k) && r.reset.Rest?
      && forall l: nat | l != k && Current(r, l) :: r.who[l].i != r.who[k].i
  {
    RunKeeps(Start(slots, attachers), actions);
  }

  /** The second look lets an attacher in exactly while the generation is the one it validated; then its slot
      is its own, and otherwise it leaves everything as it is. */
  lemma LetInIff(slots: nat, attachers: nat, actions: seq<Action>, k: nat)
    requires var r := Run(Start(slots, attachers), actions);
      k < |r.who| && r.who[k].Claiming? && r.who[k].stage.CheckDue? && r.who[k].i < |r.slots|
    ensures var r := Run(Start(slots, attachers), actions); var p := r.who[k]; var u := Apply(r, DoAttach(k));
      && (r.gen == p.snap ==> u == r.(who := r.who[k := Live(p.snap, p.i, p.epoch)]) && Owns(u, k) && u.reset.Rest?)
      && (r.gen != p.snap ==> u == r.(who := r.who[k := Refused(p.i)]))
  {
    RunKeeps(Start(slots, attachers), actions);
    var r := Run(Start(slots, attachers), actions);
    assert SnapOk(r, r.who[k]);
    assert Current(r, k) ==> Owns(r, k);
  }

  function Publishes(n: nat): seq<Action> { seq(n, _ => DoPublish) }

  lemma {:induction false} Published(r: Region, n: nat)
    ensures Run(r, Publishes(n)) == r.(tail := r.tail + n)
  {
    if n > 0 {
      Published(r, n - 1);
      assert Publishes(n)[..n - 1] == Publishes(n - 1);
    }
  }

  /** Attacher k's slot and its own standing, moved on. */
  function With(r: Region, k: nat, s: Entry, pc: Pc): Region
    requires k < |r.who| && (r.who[k].Claiming? || r.who[k].Live?) && r.who[k].i < |r.slots|
  {
    r.(slots := r.slots[r.who[k].i := s], who := r.who[k := pc])
  }

  function Twice(r: Region, k: nat): Region { AttachStep(AttachStep(r, k), k) }

  /** The rest of a claim, the producer publishing in the middle of it: it joins at the tail as its second
      load saw it, under a lease of its own, and is let in. */
  lemma AttachGetsIn(r: Region, k: nat, published: nat)
    requires k < |r.who| && r.who[k].Claiming? && r.who[k].stage.LoadFirst?
    requires r.who[k].i < |r.slots| && r.who[k].snap == r.gen
    ensures var p, tail := r.who[k], r.tail + published;
      Twice(Twice(Run(Twice(r, k), Publishes(published)), k), k)
      == r.(tail := tail, slots := r.slots[p.i := r.slots[p.i].(cursor := G.At(tail), lease := Token(k))],
            who := r.who[k := Live(r.gen, p.i, p.epoch)])
  {
    var p, tail := r.who[k], r.tail + published;
    var s := r.slots[p.i];
    var r1 := With(r, k, s.(cursor := G.At(r.tail)), p.(stage := LoadJoin));
    assert Twice(r, k) == r1;
    Published(r1, published);
    var r2 := r1.(tail := tail);
    var r3 := With(r2, k, s.(cursor := G.At(tail)), p.(stage := SignDue));
    assert Twice(r2, k) == r3;
    assert Twice(r3, k) == With(r3, k, s.(cursor := G.At(tail), lease := Token(k)), Live(r.gen, p.i, p.epoch));
  }

  // ------------------------------------------------------------------ what it does not protect

  /** Its compare-and-swap is done and its lease is still to be stored. */
  predicate MidClaim(r: Region, j: nat) { j < |r.who| && r.who[j].Claiming? && !r.who[j].stage.CheckDue? }

  predicate MidClaimOf(r: Region, j: nat, i: nat) { MidClaim(r, j) && r.who[j].i == i }

  /** Let in, and its slot's lease is its own. */
  predicate Signed(r: Region, k: nat) {
    k < |r.who| && r.who[k].Live? && r.who[k].i < |r.slots| && r.slots[r.who[k].i].lease == Token(k)
  }

  /** Whatever happens short of a new reset, the lease stays its own. */
  ghost predicate KeepsLease(r: Region, k: nat) { forall more: seq<Action> :: !LosesLease(r, more, k) }

  predicate LosesLease(r: Region, more: seq<Action>, k: nat) { DoBeginReset !in more && !Signed(Run(r, more), k) }

  ghost predicate Undisturbed(r: Region, k: nat) {
    Inv(r) && Current(r, k) && Signed(r, k) && forall j: nat | j != k :: !MidClaimOf(r, j, r.who[k].i)
  }

  lemma StaysUndisturbed(r: Region, a: Action, k: nat)
    requires Undisturbed(r, k) && !a.DoBeginReset?
    ensures Undisturbed(Apply(r, a), k)
  {
    ApplyKeeps(r, a);
    assert SnapOk(r, r.who[k]) && Owns(r, k);
    var i := r.who[k].i;
    forall j: nat | j != k ensures !MidClaimOf(Apply(r, a), j, i) {
      assert !MidClaimOf(r, j, i);
    }
    if a.DoAttach? && a.k != k {
      assert !MidClaimOf(r, a.k, i);
    }
  }

  lemma {:induction false} RunUndisturbed(r: Region, more: seq<Action>, k: nat)
    requires Undisturbed(r, k) && DoBeginReset !in more
    ensures Undisturbed(Run(r, more), k)
  {
    if more != [] {
      var n := |more| - 1;
      RunUndisturbed(r, more[..n], k);
      StaysUndisturbed(Run(r, more[..n]), more[n], k);
    }
  }

  function StoresLeft(stage: Stage): nat {
    match stage
    case LoadFirst => 5
    case StoreFirst(_) => 4
    case LoadJoin => 3
    case StoreJoin(_) => 2
    case SignDue => 1
    case CheckDue => 0
  }

  /** The late claimant carries on. */
  lemma Overwrites(r: Region, k: nat, j: nat) returns (more: seq<Action>)
    requires Signed(r, k) && j != k && MidClaimOf(r, j, r.who[k].i)
    ensures LosesLease(r, more, k)
  {
    more := [];
    var u, i := r, r.who[k].i;
    while !u.who[j].stage.CheckDue?
      invariant u == Run(r, more) && DoBeginReset !in more
      invariant k < |u.who| && j < |u.who| && u.who[k] == r.who[k] && i < |u.slots|
      invariant u.who[j].Claiming? && u.who[j].i == i && (u.who[j].stage.CheckDue? ==> u.slots[i].lease == Token(j))
      decreases StoresLeft(u.who[j].stage)
    {
      assert (more + [DoAttach(j)])[..|more|] == more;
      more := more + [DoAttach(j)];
      u := AttachStep(u, j);
    }
  }

  /** An attacher that was let in keeps its lease, whatever happens short of a new reset, if and only if no
      other claim of its slot, swapped in before the reset that freed it, is still on its way: such a claim
      stores its cursor and its lease before it looks at the generation again. */
  lemma LeaseIsKeptIff(r: Region, k: nat)
    requires Inv(r) && Current(r, k) && Signed(r, k)
    ensures KeepsLease(r, k) <==> !exists j: nat :: j != k && MidClaimOf(r, j, r.who[k].i)
  {
    if j: nat :| j != k && MidClaimOf(r, j, r.who[k].i) {
      var more := Overwrites(r, k, j);
    } else {
      forall more: seq<Action> ensures !LosesLease(r, more, k) {
        if DoBeginReset !in more {
          RunUndisturbed(r, more, k);
        }
      }
    }
  }

  // ------------------------------------------------------------------ a late claim, and when there is none

  ghost predicate Reachable(r: Region) { exists actions: seq<Action> :: Run(Start(1, 2), actions) == r }

  lemma Reach(r: Region, a: Action, r': Region)
    requires Reachable(r) && r' == Apply(r, a)
    ensures Reachable(r')
  {
    var actions: seq<Action> :| Run(Start(1, 2), actions) == r;
    assert (actions + [a])[..|actions|] == actions;
    assert Run(Start(1, 2), actions + [a]) == r';
  }

  function Stalled(): Pc { Claiming(0, 0, 1, LoadFirst) }

  /** The first attacher has claimed the slot and stalls; a whole reset goes by. */
  lemma ResetGoesBy()
    ensures Reachable(Region(2, 0, [Entry(2, G.Free, G.Detached, 0)], Rest, [Stalled(), Outside]))
  {
    var r0 := Region(0, 0, [Entry(0, G.Free, G.Detached, 0)], Rest, [Outside, Outside]);
    assert Run(Start(1, 2), []) == Start(1, 2) == r0;
    var r1 := r0.(who := [Opened(0), Outside]);
    Reach(r0, DoOpen(0), r1);
    var r2 := r1.(slots := [Entry(1, G.Active, G.Detached, 0)], who := [Stalled(), Outside]);
    Reach(r1, DoClaim(0, 0), r2);
    var r3 := r2.(gen := 1, reset := SentinelDue(0));
    Reach(r2, DoBeginReset, r3);
    assert [Entry(1, G.Active, G.Detached, 0)][0 := Entry(1, G.Active, G.Detached, 0)]
        == [Entry(1, G.Active, G.Detached, 0)];
    Reach(r3, DoReset, r3.(reset := LeaseDue(0)));
    Reach(r3.(reset := LeaseDue(0)), DoReset, r3.(reset := ControlDue(0)));
    var r4 := r3.(slots := [Entry(2, G.Free, G.Detached, 0)], reset := SentinelDue(1));
    Reach(r3.(reset := ControlDue(0)), DoReset, r4);
    Reach(r4, DoReset, r4.(gen := 2, reset := Rest));
  }

  function Second(cursor: G.Cursor, lease: nat, pc: Pc): Region {
    Region(2, 0, [Entry(3, G.Active, cursor, lease)], Rest, [Stalled(), pc])
  }

  lemma SecondSteps(cursor: G.Cursor, lease: nat, stage: Stage, cursor': G.Cursor, lease': nat, pc': Pc)
    requires Reachable(Second(cursor, lease, Claiming(2, 0, 3, stage)))
    requires Second(cursor', lease', pc') == AttachStep(Second(cursor, lease, Claiming(2, 0, 3, stage)), 1)
    ensures Reachable(Second(cursor', lease', pc'))
  {
    Reach(Second(cursor, lease, Claiming(2, 0, 3, stage)), DoAttach(1), Second(cursor', lease', pc'));
  }

  /** A second attacher validates the new generation, claims the freed slot and is let in, its lease its own:
      and the first one's stores are still to come. */
  lemma LateClaimOverwrites()
    ensures exists r: Region :: Reachable(r) && Current(r, 1) && Signed(r, 1) && !KeepsLease(r, 1)
  {
    ResetGoesBy();
    var r0 := Region(2, 0, [Entry(2, G.Free, G.Detached, 0)], Rest, [Stalled(), Outside]);
    var r1 := r0.(who := [Stalled(), Opened(2)]);
    Reach(r0, DoOpen(1), r1);
    Reach(r1, DoClaim(1, 0), Second(G.Detached, 0, Claiming(2, 0, 3, LoadFirst)));
    SecondSteps(G.Detached, 0, LoadFirst, G.Detached, 0, Claiming(2, 0, 3, StoreFirst(0)));
    SecondSteps(G.Detached, 0, StoreFirst(0), G.At(0), 0, Claiming(2, 0, 3, LoadJoin));
    SecondSteps(G.At(0), 0, LoadJoin, G.At(0), 0, Claiming(2, 0, 3, StoreJoin(0)));
    SecondSteps(G.At(0), 0, StoreJoin(0), G.At(0), 0, Claiming(2, 0, 3, SignDue));
    SecondSteps(G.At(0), 0, SignDue, G.At(0), 2, Claiming(2, 0, 3, CheckDue));
    SecondSteps(G.At(0), 2, CheckDue, G.At(0), 2, Live(2, 0, 3));
    var r := Second(G.At(0), 2, Live(2, 0, 3));
    assert MidClaimOf(r, 0, 0);
    var more := Overwrites(r, 1, 0);
  }

  /** The step overlaps no claim with a reset: none is on its way when one begins, none begins during one. */
  ghost predicate Apart(r: Region, a: Action) {
    (a.DoBeginReset? ==> forall j: nat :: !MidClaim(r, j)) && (a.DoClaim? ==> r.reset.Rest?)
  }

  ghost predicate KeptApart(r: Region, actions: seq<Action>) {
    actions == [] || (KeptApart(r, actions[..|actions| - 1])
                      && Apart(Run(r, actions[..|actions| - 1]), actions[|actions| - 1]))
  }

  /** Whoever is on its way in or was let in under the present generation. */
  predicate Tied(r: Region, k: nat) { Current(r, k) || MidClaim(r, k) }

  ghost predicate ApartInv(r: Region) {
    && Inv(r) && (!r.reset.Rest? ==> forall j: nat :: !MidClaim(r, j))
    && (forall k: nat | Tied(r, k) :: Owns(r, k))
    && (forall k: nat, l: nat | k < l && Tied(r, k) && Tied(r, l) :: r.who[k].i != r.who[l].i)
    && (forall k: nat | Current(r, k) && !MidClaim(r, k) :: r.slots[r.who[k].i].lease == Token(k))
  }

  lemma TiedBefore(r: Region, a: Action, k: nat)
    requires ApartInv(r) && Apart(r, a) && Tied(Apply(r, a), k)
    ensures k < |r.who| && SnapOk(r, r.who[k])
    ensures !(a.DoClaim? && a.k == k && r.who[k].Opened?) ==>
      Tied(r, k) && Owns(r, k) && Apply(r, a).who[k].i == r.who[k].i && Apply(r, a).who[k].epoch == r.who[k].epoch
  {
    assert k < |r.who| && SnapOk(r, r.who[k]);
  }

  lemma ApartKeeps(r: Region, a: Action)
    requires ApartInv(r) && Apart(r, a)
    ensures ApartInv(Apply(r, a))
  {
    var r' := Apply(r, a);
    ApplyKeeps(r, a);
    forall j: nat | !r'.reset.Rest? ensures !MidClaim(r', j) {
      assert !MidClaim(r, j);
    }
    forall k: nat | Tied(r', k) ensures Owns(r', k) {
      TiedBefore(r, a, k);
    }
    forall k: nat, l: nat | k < l && Tied(r', k) && Tied(r', l) ensures r'.who[k].i != r'.who[l].i {
      TiedBefore(r, a, k);
      TiedBefore(r, a, l);
    }
    forall k: nat | Current(r', k) && !MidClaim(r', k) ensures r'.slots[r'.who[k].i].lease == Token(k) {
      LeaseStands(r, a, k);
    }
  }

  lemma LeaseStands(r: Region, a: Action, k: nat)
    requires ApartInv(r) && Apart(r, a) && Current(Apply(r, a), k) && !MidClaim(Apply(r, a), k)
    ensures var r' := Apply(r, a); r'.who[k].i < |r'.slots| && r'.slots[r'.who[k].i].lease == Token(k)
  {
    CurrentBefore(r, a, k);
    assert Tied(r, k) && Owns(r, k);
    if a.DoAttach? && a.k != k && MidClaim(r, a.k) {
      assert Tied(r, a.k);
    }
  }

  lemma {:induction false} RunApart(r: Region, actions: seq<Action>)
    requires ApartInv(r) && KeptApart(r, actions)
    ensures ApartInv(Run(r, actions))
  {
    if actions != [] {
      RunApart(r, actions[..|actions| - 1]);
      ApartKeeps(Run(r, actions[..|actions| - 1]), actions[|actions| - 1]);
    }
  }

  /** In a run that never lets a claim overlap a reset, whoever was let in under the present generation has
      its slot, control word and lease, to itself. */
  lemma ApartResetsKeepLeases(slots: nat, attachers: nat, actions: seq<Action>, k: nat)
    requires KeptApart(Start(slots, attachers), actions)
    requires var r := Run(Start(slots, attachers), actions); Current(r, k) && r.who[k].Live?
    ensures var r := Run(Start(slots, attachers), actions); Owns(r, k) && Signed(r, k)
  {
    RunApart(Start(slots, attachers), actions);
    var r := Run(Start(slots, attachers), actions);
    assert Tied(r, k) && !MidClaim(r, k);
  }
}
