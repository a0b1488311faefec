/** Exactly when a request or a trylock is granted at once, and what every call leaves behind. */
module SixLockGrants {
  import opened SixLockTables
  import opened SixLockProtocol
  import opened SixLockSafety
  import opened SixLockRuns

  /** The table admits the mode beside every claim of the others. */
  ghost predicate AdmittedBeside(held: map<Holder, Mode>, h: Holder, mode: Mode) {
    forall g :: g in held && g != h ==> Admits(mode, held[g])
  }

  /** wait_count is 0 exactly when nobody sleeps and no count ever overflowed. */
  lemma {:induction false} NobodyWaitsIff(run: seq<Step>)
    requires Legal(run)
    ensures After(run).waitCount == 0 <==> After(run).waiters == map[] && NeverOverflows(run)
  {
    var s := After(run);
    RunKeepsInv(run);
    LostCountsOverflows(run);
    assert s.waiters == map[] <==> |s.waiters| == 0;
  }

  lemma {:induction false} SerialsMeet(s: State)
    requires Inv(s) && s.waiters == map[]
    ensures s.wait == s.wake
  {
    assert Converting(s.waiters) == {};
  }

  /**
   A trylock is granted if and only if nobody waits, the count has room, and the table admits the mode
   beside every claim.
   */
  lemma {:induction false} TryLockGrantsIff(run: seq<Step>, h: Holder, mode: Mode)
    requires Legal(run) && Enabled(After(run), TryLock(h, mode))
    ensures var s := After(run);
      var r := Do(s, TryLock(h, mode));
      && (h in r.held
          <==> s.waiters == map[] && NeverOverflows(run) && |HoldersOf(s.held, mode)| < 0xFFFF
               && AdmittedBeside(s.held, h, mode))
      && (if h in r.held then r.held == s.held[h := mode] else r == s)
  {
    var s := After(run);
    RunKeepsInv(run);
    NobodyWaitsIff(run);
    CompatibleIff(s, h, Null, mode);
    if s.waiters == map[] {
      SerialsMeet(s);
    }
  }

  lemma {:induction false} EnteredWaits(s: State, h: Holder, prior: Mode, mode: Mode)
    requires Inv(s) && Enabled(s, Request(h, prior, mode)) && Inc16(s.waitCount) != 0
    ensures MustWait(Enter(s, h, prior), NewWaiter(s, prior, mode), true)
      <==> s.waitCount > 0 || !AdmittedBeside(s.held, h, Convert(mode, prior))
  {
    CompatibleIff(s, h, prior, Convert(mode, prior));
    if s.waitCount == 0 {
      assert |s.waiters| == 0;
      SerialsMeet(s);
    }
  }

  /**
   The first test lets a request through if and only if nobody waits and the table admits the converted
   mode beside every claim of the others: nobody cuts in line ahead of one that sleeps.
   */
  lemma {:induction false} RequestGrantsIff(run: seq<Step>, h: Holder, prior: Mode, mode: Mode)
    requires Legal(run) && Enabled(After(run), Request(h, prior, mode))
    ensures var s := After(run);
      LetsThrough(s, Request(h, prior, mode), h, NewWaiter(s, prior, mode))
      <==> s.waiters == map[] && NeverOverflows(run) && AdmittedBeside(s.held, h, Convert(mode, prior))
  {
    RunKeepsInv(run);
    NobodyWaitsIff(run);
    if Inc16(After(run).waitCount) != 0 {
      EnteredWaits(After(run), h, prior, mode);
    }
  }

  /** As many others hold the mode as its count can tell. */
  ghost predicate Full(held: map<Holder, Mode>, h: Holder, mode: Mode) {
    |HoldersOf(held - {h}, mode)| == 0xFFFF
  }

  /**
   What a request leaves behind: refused without a trace when 65535 wait, asleep with its prior lock,
   holding the converted mode, or, at a full count, with nothing.
   */
  lemma {:induction false} RequestLeaves(run: seq<Step>, h: Holder, prior: Mode, mode: Mode)
    requires Legal(run) && Enabled(After(run), Request(h, prior, mode))
    ensures var s, step, m := After(run), Request(h, prior, mode), Convert(mode, prior);
      var r := Do(s, step);
      if s.waitCount == 0xFFFF then r == s
      else if !LetsThrough(s, step, h, NewWaiter(s, prior, mode)) then
        r.held == s.held && r.waiters == s.waiters[h := NewWaiter(s, prior, mode)]
      else
        r.waiters == s.waiters && r.held == if Full(s.held, h, m) then s.held - {h} else s.held[h := m]
  {
    var s, w := After(run), NewWaiter(After(run), prior, mode);
    RunKeepsInv(run);
    if Inc16(s.waitCount) != 0 && !MustWait(Enter(s, h, prior), w, true) {
      GrantLeaves(Enter(s, h, prior), h, w);
    }
  }

  lemma {:induction false} GrantLeaves(s: State, h: Holder, w: Waiter)
    requires Books(s) && HoldsPrior(s.held, h, w.prior)
    ensures var r := Grant(s, h, w);
      r.waiters == s.waiters && r.held == if Full(s.held, h, w.wanted) then s.held - {h} else s.held[h := w.wanted]
  {
    GiveUpPriorKeepsBooks(s, h, w);
    if w.prior == Null {
      assert s.held - {h} == s.held;
    } else {
      assert (s.held - {h})[h := w.wanted] == s.held[h := w.wanted];
    }
  }

  /** What a wake-up leaves behind. */
  lemma {:induction false} RecheckLeaves(run: seq<Step>, h: Holder)
    requires Legal(run) && h in After(run).waiters
    ensures var s, step := After(run), Recheck(h);
      var r, w := Do(s, step), s.waiters[h];
      if !LetsThrough(s, step, h, w) then r == s
      else
        && r.waiters == s.waiters - {h}
        && r.held == if Full(s.held, h, w.wanted) then s.held - {h} else s.held[h := w.wanted]
  {
    var s := After(run);
    RunKeepsInv(run);
    assert HoldsPrior(s.held, h, s.waiters[h].prior);
    if !MustWait(s, s.waiters[h], false) {
      GrantLeaves(s.(waiters := s.waiters - {h}), h, s.waiters[h]);
    }
  }

  /** An unlock takes away the holder's own claim, and nothing else. */
  lemma {:induction false} UpLeaves(s: State, h: Holder)
    requires AllModes(s.counts) && Enabled(s, Up(h))
    ensures var r := Do(s, Up(h));
      r.held == s.held - {h} && r == s.(held := r.held, counts := r.counts, mask := r.mask)
  {
  }
}
