/** What every step of the lock keeps. */
module SixLockSafety {
  import opened SixLockTables
  import opened SixLockProtocol

  lemma {:induction false} HoldersAfterRemove(held: map<Holder, Mode>, h: Holder, k: Mode)
    requires h in held
    ensures |HoldersOf(held - {h}, k)| == |HoldersOf(held, k)| - (if k == held[h] then 1 else 0)
  {
    assert HoldersOf(held - {h}, k) == HoldersOf(held, k) - {h};
  }

  lemma {:induction false} HoldersAfterAdd(held: map<Holder, Mode>, h: Holder, m: Mode, k: Mode)
    requires h !in held
    ensures |HoldersOf(held[h := m], k)| == |HoldersOf(held, k)| + (if k == m then 1 else 0)
  {
    if k == m {
      assert HoldersOf(held[h := m], k) == HoldersOf(held, k) + {h};
    } else {
      assert HoldersOf(held[h := m], k) == HoldersOf(held, k);
    }
  }

  lemma {:induction false} CompatibleAdmits(s: State, h: Holder, prior: Mode, wanted: Mode, g: Holder)
    requires Books(s) && HoldsPrior(s.held, h, prior) && Compatible(s.mask, s.counts, prior, wanted)
    requires g in s.held && g != h
    ensures Admits(wanted, s.held[g])
  {
    var m := s.held[g];
    assert g in HoldersOf(s.held, m);
    if s.counts[prior] == 1 && m == prior {
      OnlyMember(HoldersOf(s.held, prior), g);
      assert prior != Null ==> h in HoldersOf(s.held, prior);
    }
  }

  lemma {:induction false} AdmittedModes(s: State, h: Holder, prior: Mode, wanted: Mode, m: Mode)
    requires Books(s) && HoldsPrior(s.held, h, prior) && m in s.mask && !(s.counts[prior] == 1 && m == prior)
    requires forall g :: g in s.held && g != h ==> Admits(wanted, s.held[g])
    ensures Admits(wanted, m)
  {
    var holders := HoldersOf(s.held, m);
    if h in holders {
      AnotherMember(holders, h);
    }
    var g :| g in holders && g != h;
  }

  lemma {:induction false} AdmittedIsCompatible(s: State, h: Holder, prior: Mode, wanted: Mode)
    requires Books(s) && HoldsPrior(s.held, h, prior)
    requires forall g :: g in s.held && g != h ==> Admits(wanted, s.held[g])
    ensures Compatible(s.mask, s.counts, prior, wanted)
  {
    var locks := if s.counts[prior] == 1 then s.mask - {prior} else s.mask;
    forall m: Mode | m in locks
      ensures m in CompatSet(wanted)
    {
      AdmittedModes(s, h, prior, wanted, m);
    }
  }

  /**
   The mask test is exact: a request is compatible precisely when the table admits it beside every
   lock somebody else holds.
   */
  lemma {:induction false} CompatibleIff(s: State, h: Holder, prior: Mode, wanted: Mode)
    requires Books(s)
    requires HoldsPrior(s.held, h, prior)
    ensures Compatible(s.mask, s.counts, prior, wanted)
      <==> forall g :: g in s.held && g != h ==> Admits(wanted, s.held[g])
  {
    if Compatible(s.mask, s.counts, prior, wanted) {
      forall g | g in s.held && g != h
        ensures Admits(wanted, s.held[g])
      {
        CompatibleAdmits(s, h, prior, wanted, g);
      }
    }
    if forall g :: g in s.held && g != h ==> Admits(wanted, s.held[g]) {
      AdmittedIsCompatible(s, h, prior, wanted);
    }
  }

  lemma {:induction false} OnlyMember(xs: set<Holder>, x: Holder)
    requires |xs| == 1 && x in xs
    ensures xs == {x}
  {
    assert |xs - {x}| == 0;
  }

  lemma {:induction false} AnotherMember(xs: set<Holder>, x: Holder)
    requires |xs| != 1 && x in xs
    ensures exists y :: y in xs && y != x
  {
    assert xs != {x};
  }

  // ---------------------------------------------------------------- the books

  lemma {:induction false} ReleaseKeepsBooks(s: State, h: Holder)
    requires Books(s) && h in s.held
    ensures Books(Release(s.(held := s.held - {h}), s.held[h]))
  {
    var m := s.held[h];
    forall k: Mode {
      HoldersAfterRemove(s.held, h, k);
    }
    assert h in HoldersOf(s.held, m);
  }

  lemma {:induction false} AcquireKeepsBooks(s: State, h: Holder, m: Mode)
    requires Books(s) && h !in s.held && Inc16(s.counts[m]) != 0
    ensures Books(Acquire(s, h, m))
  {
    forall k: Mode {
      HoldersAfterAdd(s.held, h, m, k);
    }
  }

  // ---------------------------------------------------------------- granting a request

  lemma {:induction false} AdmittedIsPeaceful(held: map<Holder, Mode>, h: Holder, m: Mode)
    requires Peaceful(held - {h})
    requires forall g :: g in held && g != h ==> Admits(m, held[g])
    ensures Peaceful((held - {h})[h := m])
  {
  }

  lemma {:induction false} AdmittedNewcomer(held: map<Holder, Mode>, h: Holder, m: Mode)
    requires Peaceful(held) && h !in held
    requires forall g :: g in held && g != h ==> Admits(m, held[g])
    ensures Peaceful(held[h := m])
    ensures held[h := m] - {h} == held - {h}
  {
    assert held - {h} == held;
    AdmittedIsPeaceful(held, h, m);
  }

  /** The state in which a request leaves the wait loop, its holder no longer asleep. */
  ghost predicate Leaving(s: State, h: Holder, w: Waiter) {
    && 0 < s.waitCount == |s.waiters| + s.lost + 1 <= 0xFFFF
    && |s.served| + |Converting(s.waiters)| + (if w.prior == Null then 0 else 1) == |s.asked|
    && WaitersOk(s.waiters, s.held, |s.asked|)
    && h !in s.waiters
    && HoldsPrior(s.held, h, w.prior)
  }

  lemma {:induction false} GiveUpPriorKeepsBooks(s: State, h: Holder, w: Waiter)
    requires Books(s) && HoldsPrior(s.held, h, w.prior)
    ensures Books(GiveUpPrior(s, h, w)) && GiveUpPrior(s, h, w).held == s.held - {h}
  {
    if w.prior == Null {
      assert s.held - {h} == s.held;
    } else {
      ReleaseKeepsBooks(s, h);
    }
  }

  /** What granting does apart from the books. */
  lemma {:induction false} GrantEffect(s: State, h: Holder, w: Waiter)
    requires AllModes(s.counts)
    requires HoldsPrior(s.held, h, w.prior)
    ensures var r := Grant(s, h, w);
      && r.waiters == s.waiters && r.asked == s.asked && r.wait == s.wait
      && r.held - {h} == s.held - {h}
      && (w.prior == Null ==> r.served == s.served && r.wake == s.wake)
      && (w.prior != Null ==> r.served == s.served + [h] && r.wake == Inc64(s.wake))
      && (if r.lost == s.lost then r.waitCount == Dec16(s.waitCount)
          else r.lost == s.lost + 1 && r.waitCount == s.waitCount)
  {
    var s1 := GiveUpPrior(s, h, w);
    assert s1.held - {h} == s.held - {h};
    assert s1.held[h := w.wanted] - {h} == s.held - {h};
  }

  lemma {:induction false} GrantKeepsBooks(s: State, h: Holder, w: Waiter)
    requires Books(s) && Peaceful(s.held) && HoldsPrior(s.held, h, w.prior)
    requires Compatible(s.mask, s.counts, w.prior, w.wanted)
    ensures Books(Grant(s, h, w)) && Peaceful(Grant(s, h, w).held)
  {
    CompatibleIff(s, h, w.prior, w.wanted);
    GiveUpPriorKeepsBooks(s, h, w);
    var s1 := GiveUpPrior(s, h, w);
    if Inc16(s1.counts[w.wanted]) != 0 {
      AcquireKeepsBooks(s1, h, w.wanted);
      AdmittedIsPeaceful(s.held, h, w.wanted);
    }
  }

  /** Only h's own claim changes: the others that sleep still hold what they held. */
  lemma {:induction false} OthersStayOk(waiters: map<Holder, Waiter>, held: map<Holder, Mode>, held': map<Holder,
                                        Mode>, n: nat, h: Holder)
    requires WaitersOk(waiters, held, n) && h !in waiters
    requires held' - {h} == held - {h}
    ensures WaitersOk(waiters, held', n)
  {
    forall g | g in waiters
      ensures HoldsPrior(held', g, waiters[g].prior)
    {
      assert g in held <==> g in held - {h};
      assert g in held' <==> g in held' - {h};
      assert g in held ==> (held - {h})[g] == held[g];
      assert g in held' ==> (held' - {h})[g] == held'[g];
    }
  }

  lemma {:induction false} GrantKeepsQueue(s: State, h: Holder, w: Waiter)
    requires AllModes(s.counts) && Leaving(s, h, w)
    ensures Queue(Grant(s, h, w))
  {
    GrantEffect(s, h, w);
    OthersStayOk(s.waiters, s.held, Grant(s, h, w).held, |s.asked|, h);
  }

  lemma {:induction false} GrantKeepsSerials(s: State, h: Holder, w: Waiter)
    requires AllModes(s.counts) && HoldsPrior(s.held, h, w.prior)
    requires Serials(s)
    ensures Serials(Grant(s, h, w))
  {
    GrantEffect(s, h, w);
  }

  lemma {:induction false} GrantKeepsInv(s: State, h: Holder, w: Waiter)
    requires Books(s) && Peaceful(s.held) && Leaving(s, h, w) && Serials(s)
    requires Compatible(s.mask, s.counts, w.prior, w.wanted)
    ensures Inv(Grant(s, h, w))
  {
    GrantKeepsBooks(s, h, w);
    GrantKeepsQueue(s, h, w);
    GrantKeepsSerials(s, h, w);
  }

  // ---------------------------------------------------------------- every step

  /** w is the request that h would make now. */
  ghost predicate Fresh(s: State, h: Holder, w: Waiter) {
    && h !in s.waiters
    && HoldsPrior(s.held, h, w.prior)
    && w.serial == s.wait && w.ticket == |s.asked|
  }

  lemma {:induction false} OneMoreKey(waiters: map<Holder, Waiter>, h: Holder, w: Waiter)
    requires h !in waiters
    ensures |waiters[h := w]| == |waiters| + 1
  {
    assert waiters[h := w].Keys == waiters.Keys + {h};
  }

  lemma {:induction false} OneMoreConverting(waiters: map<Holder, Waiter>, h: Holder, w: Waiter)
    requires h !in waiters
    ensures w.prior == Null ==> Converting(waiters[h := w]) == Converting(waiters)
    ensures w.prior != Null ==> Converting(waiters[h := w]) == Converting(waiters) + {h} && h !in Converting(waiters)
  {
  }

  lemma {:induction false} SleepCounts(waiters: map<Holder, Waiter>, h: Holder, w: Waiter)
    requires h !in waiters
    ensures |waiters[h := w]| == |waiters| + 1
    ensures |Converting(waiters[h := w])| == |Converting(waiters)| + (if w.prior == Null then 0 else 1)
  {
    OneMoreKey(waiters, h, w);
    OneMoreConverting(waiters, h, w);
  }

  lemma {:induction false} WakeCounts(waiters: map<Holder, Waiter>, h: Holder)
    requires h in waiters
    ensures |waiters - {h}| == |waiters| - 1
    ensures |Converting(waiters - {h})| == |Converting(waiters)| - (if waiters[h].prior == Null then 0 else 1)
  {
    assert (waiters - {h}).Keys == waiters.Keys - {h};
    assert Converting(waiters - {h}) == Converting(waiters) - {h};
    assert waiters[h].prior != Null <==> h in Converting(waiters);
  }

  lemma {:induction false} SleepKeepsQueue(s: State, h: Holder, w: Waiter)
    requires Queue(s) && Fresh(s, h, w) && Inc16(s.waitCount) != 0
    ensures Queue(Enter(s, h, w.prior).(waiters := s.waiters[h := w]))
  {
    SleepCounts(s.waiters, h, w);
  }

  lemma {:induction false} EnterKeepsSerials(s: State, h: Holder, prior: Mode)
    requires Serials(s)
    ensures Serials(Enter(s, h, prior))
  {
  }

  lemma {:induction false} SleepKeepsInv(s: State, h: Holder, w: Waiter)
    requires Inv(s) && Fresh(s, h, w) && Inc16(s.waitCount) != 0
    ensures Inv(Enter(s, h, w.prior).(waiters := s.waiters[h := w]))
  {
    SleepKeepsQueue(s, h, w);
    EnterKeepsSerials(s, h, w.prior);
  }

  lemma {:induction false} WakingIsLeaving(s: State, h: Holder)
    requires Queue(s) && h in s.waiters
    ensures Leaving(s.(waiters := s.waiters - {h}), h, s.waiters[h])
  {
    WakeCounts(s.waiters, h);
  }

  lemma {:induction false} EnteringIsLeaving(s: State, h: Holder, w: Waiter)
    requires Queue(s) && Fresh(s, h, w) && Inc16(s.waitCount) != 0
    ensures Leaving(Enter(s, h, w.prior), h, w)
  {
  }

  /** A request that need not sleep. */
  lemma {:induction false} PassKeepsInv(s: State, h: Holder, w: Waiter)
    requires Inv(s) && Fresh(s, h, w) && Inc16(s.waitCount) != 0
    requires Compatible(s.mask, s.counts, w.prior, w.wanted)
    ensures Inv(Grant(Enter(s, h, w.prior), h, w))
  {
    EnteringIsLeaving(s, h, w);
    EnterKeepsSerials(s, h, w.prior);
    GrantKeepsInv(Enter(s, h, w.prior), h, w);
  }

  lemma {:induction false} AskKeepsInv(s: State, h: Holder, w: Waiter)
    requires Inv(s) && Fresh(s, h, w)
    ensures Inv(Ask(s, h, w))
  {
    if Inc16(s.waitCount) != 0 {
      if MustWait(Enter(s, h, w.prior), w, true) {
        SleepKeepsInv(s, h, w);
      } else {
        PassKeepsInv(s, h, w);
      }
    }
  }

  lemma {:induction false} RecheckKeepsInv(s: State, h: Holder)
    requires Inv(s) && Enabled(s, Recheck(h))
    ensures Inv(Do(s, Recheck(h)))
  {
    if !MustWait(s, s.waiters[h], false) {
      WakingIsLeaving(s, h);
      GrantKeepsInv(s.(waiters := s.waiters - {h}), h, s.waiters[h]);
    }
  }

  lemma {:induction false} TryLockKeepsInv(s: State, h: Holder, mode: Mode)
    requires Inv(s) && Enabled(s, TryLock(h, mode))
    ensures Inv(Do(s, TryLock(h, mode)))
  {
    if TryLockTest(s, mode) && Inc16(s.counts[mode]) != 0 {
      CompatibleIff(s, h, Null, mode);
      AcquireKeepsBooks(s, h, mode);
      AdmittedNewcomer(s.held, h, mode);
      OthersStayOk(s.waiters, s.held, s.held[h := mode], |s.asked|, h);
    }
  }

  lemma {:induction false} UpKeepsInv(s: State, h: Holder)
    requires Inv(s) && Enabled(s, Up(h))
    ensures Inv(Do(s, Up(h)))
  {
    ReleaseKeepsBooks(s, h);
    OthersStayOk(s.waiters, s.held, s.held - {h}, |s.asked|, h);
  }

  lemma {:induction false} StepKeepsInv(s: State, step: Step)
    requires Inv(s) && Enabled(s, step)
    ensures Inv(Do(s, step))
  {
    match step
    case Request(h, prior, mode) => AskKeepsInv(s, h, NewWaiter(s, prior, mode));
    case Recheck(h) => RecheckKeepsInv(s, h);
    case TryLock(h, mode) => TryLockKeepsInv(s, h, mode);
    case Up(h) => UpKeepsInv(s, h);
  }
}
