/** Exactly when a sleeping request never gets the lock, whatever the other holders do. */
module SixLockStarvation {
  import opened SixLockTables
  import opened SixLockProtocol
  import opened SixLockSafety
  import opened SixLockRuns

  // ---------------------------------------------------------------- one wake-up

  lemma {:induction false} SmallSerial(n: nat)
    requires n < SIGN_BIT
    ensures Serial(n) == n
  {
    SerialIsRemainder(n);
  }

  /** The wait test of a sleeping request asks for its very turn: neither before it nor after it. */
  lemma {:induction false} WakesIff(s: State, h: Holder)
    requires Inv(s) && h in s.waiters && |s.asked| < SIGN_BIT
    ensures var w := s.waiters[h];
      LetsThrough(s, Recheck(h), h, w)
      <==> w.ticket == |s.served| && Compatible(s.mask, s.counts, w.prior, w.wanted)
  {
    var w := s.waiters[h];
    assert HoldsPrior(s.held, h, w.prior) && w.ticket <= |s.asked|;
    SmallSerial(w.ticket);
    SmallSerial(|s.served|);
  }

  /** Who is not let through sleeps on. */
  lemma {:induction false} SleepsOn(s: State, step: Step, h: Holder)
    requires AllModes(s.counts) && Enabled(s, step) && h in s.waiters
    requires !LetsThrough(s, step, h, s.waiters[h])
    ensures var r := Do(s, step);
      h in r.waiters && r.waiters[h] == s.waiters[h] && s.served <= r.served
  {
    match step
    case Request(g, prior, mode) => AskLetsSleep(s, g, NewWaiter(s, prior, mode), h);
    case Recheck(g) =>
      if g != h {
        GrantLetsSleep(s.(waiters := s.waiters - {g}), g, s.waiters[g]);
      }
    case TryLock(_, _) =>
    case Up(_) =>
  }

  lemma {:induction false} GrantLetsSleep(s: State, g: Holder, w: Waiter)
    requires AllModes(s.counts)
    ensures Grant(s, g, w).waiters == s.waiters && Grant(s, g, w).asked == s.asked
    ensures Grant(s, g, w).served == if w.prior == Null then s.served else s.served + [g]
  {
  }

  lemma {:induction false} AskLetsSleep(s: State, g: Holder, w: Waiter, h: Holder)
    requires AllModes(s.counts) && h in s.waiters && g !in s.waiters
    ensures var r := Ask(s, g, w);
      h in r.waiters && r.waiters[h] == s.waiters[h] && s.served <= r.served
  {
    GrantLetsSleep(Enter(s, g, w.prior), g, w);
  }

  // ---------------------------------------------------------------- the condition

  /** A conversion that was asked for after this request is through already. */
  ghost predicate Passed(s: State, h: Holder) {
    h in s.waiters && s.waiters[h].ticket < |s.served|
  }

  /** Sleeping with a lock that g's wanted mode does not go with, f keeps it until after g's turn. */
  ghost predicate Blocks(s: State, g: Holder, f: Holder) {
    && g in s.waiters && f in s.waiters && f != g
    && s.waiters[f].prior != Null && s.waiters[g].ticket <= s.waiters[f].ticket
    && !Admits(s.waiters[g].wanted, s.waiters[f].prior)
  }

  /** h cannot get through before g does: g is h itself, or a pending conversion asked for before. */
  ghost predicate Ahead(s: State, g: Holder, h: Holder) {
    && g in s.waiters && h in s.waiters
    && (g == h || (s.waiters[g].prior != Null && s.waiters[g].ticket < s.waiters[h].ticket))
  }

  ghost predicate Doomed(s: State, h: Holder) {
    h in s.waiters && (Passed(s, h) || exists g, f :: Ahead(s, g, h) && Blocks(s, g, f))
  }

  // ---------------------------------------------------------------- the doomed stay doomed

  /** A blocked request is not let through, nor is a conversion that blocks another one. */
  lemma {:induction false} BlockedWaits(s: State, g: Holder, f: Holder)
    requires Inv(s) && Fifo(s) && |s.asked| < SIGN_BIT && Blocks(s, g, f)
    ensures !LetsThrough(s, Recheck(g), g, s.waiters[g])
    ensures s.waiters[g].prior != Null ==> !LetsThrough(s, Recheck(f), f, s.waiters[f])
  {
    WakesIff(s, g);
    WakesIff(s, f);
    assert HoldsPrior(s.held, f, s.waiters[f].prior) && HoldsPrior(s.held, g, s.waiters[g].prior);
    CompatibleIff(s, g, s.waiters[g].prior, s.waiters[g].wanted);
  }

  lemma {:induction false} BehindWaits(s: State, g: Holder, h: Holder)
    requires Inv(s) && Fifo(s) && |s.asked| < SIGN_BIT && Ahead(s, g, h) && g != h
    ensures !LetsThrough(s, Recheck(h), h, s.waiters[h])
  {
    WakesIff(s, h);
  }

  /** A step other than its own wake-up lets no sleeping request through. */
  lemma {:induction false} OnlyRechecks(s: State, step: Step, h: Holder)
    requires AllModes(s.counts) && Enabled(s, step) && h in s.waiters
    ensures LetsThrough(s, step, h, s.waiters[h]) ==> step == Recheck(h)
  {
  }

  lemma {:induction false} StepKeepsPassed(s: State, step: Step, h: Holder)
    requires Inv(s) && Enabled(s, step) && Passed(s, h) && |s.asked| < SIGN_BIT
    ensures Passed(Do(s, step), h) && Do(s, step).waiters[h] == s.waiters[h] && s.served <= Do(s, step).served
  {
    WakesIff(s, h);
    OnlyRechecks(s, step, h);
    SleepsOn(s, step, h);
  }

  lemma {:induction false} StepKeepsBlocked(s: State, step: Step, h: Holder, g: Holder, f: Holder)
    requires Inv(s) && Fifo(s) && Enabled(s, step) && |s.asked| < SIGN_BIT && Ahead(s, g, h) && Blocks(s, g, f)
    ensures Doomed(Do(s, step), h) && Do(s, step).waiters[h] == s.waiters[h] && s.served <= Do(s, step).served
  {
    var r := Do(s, step);
    BlockedWaits(s, g, f);
    if g != h {
      BehindWaits(s, g, h);
    }
    OnlyRechecks(s, step, g);
    OnlyRechecks(s, step, h);
    OnlyRechecks(s, step, f);
    SleepsOn(s, step, g);
    SleepsOn(s, step, h);
    if LetsThrough(s, step, f, s.waiters[f]) {
      WakesIff(s, f);
      GrantLetsSleep(s.(waiters := s.waiters - {f}), f, s.waiters[f]);
      assert Passed(r, h);
    } else {
      SleepsOn(s, step, f);
      assert Ahead(r, g, h) && Blocks(r, g, f);
    }
  }

  lemma {:induction false} StepKeepsDoomed(s: State, step: Step, h: Holder)
    requires Inv(s) && Fifo(s) && Enabled(s, step) && |s.asked| < SIGN_BIT && Doomed(s, h)
    ensures Doomed(Do(s, step), h) && Do(s, step).waiters[h] == s.waiters[h] && s.served <= Do(s, step).served
  {
    if Passed(s, h) {
      StepKeepsPassed(s, step, h);
    } else {
      var g, f :| Ahead(s, g, h) && Blocks(s, g, f);
      StepKeepsBlocked(s, step, h, g, f);
    }
  }

  /** The doomed are not let through. */
  lemma {:induction false} DoomedWaits(s: State, h: Holder)
    requires Inv(s) && Fifo(s) && |s.asked| < SIGN_BIT && Doomed(s, h)
    ensures !LetsThrough(s, Recheck(h), h, s.waiters[h])
  {
    if Passed(s, h) {
      WakesIff(s, h);
    } else {
      var g, f :| Ahead(s, g, h) && Blocks(s, g, f);
      BlockedWaits(s, g, f);
      if g != h {
        BehindWaits(s, g, h);
      }
    }
  }

  // ---------------------------------------------------------------- over whole runs

  /** A run may go on like this, with fewer than 2^63 conversions in all. */
  ghost predicate GoesOn(run: seq<Step>, more: seq<Step>) {
    Legal(run) && Legal(run + more) && |After(run + more).asked| < SIGN_BIT
  }

  /** However the run goes on, the sleeping request of h is never let through. */
  ghost predicate Starves(run: seq<Step>, h: Holder)
    requires Legal(run) && h in After(run).waiters
  {
    forall more :: GoesOn(run, more) ==> !LetsThrough(After(run + more), Recheck(h), h, After(run).waiters[h])
  }

  lemma {:induction false} Onwards(run: seq<Step>, more: seq<Step>)
    requires more != []
    ensures var all, front := run + more, run + more[..|more| - 1];
      && all[..|all| - 1] == front && all[|all| - 1] == more[|more| - 1]
      && (Legal(all) ==> Legal(front) && Enabled(After(front), more[|more| - 1])
                         && After(all) == Do(After(front), more[|more| - 1]))
  {
    var all, front := run + more, run + more[..|more| - 1];
    assert all[..|all| - 1] == front;
  }

  /**
   Once doomed, asleep in every later state of every run; and no trylock succeeds any more either.
   A request that was passed is a plain one, and stays passed.
   */
  lemma {:induction false} DoomedForEver(run: seq<Step>, more: seq<Step>, h: Holder)
    requires GoesOn(run, more) && Doomed(After(run), h)
    ensures var s := After(run + more);
      && Doomed(s, h) && s.waiters[h] == After(run).waiters[h]
      && (forall mode :: !TryLockTest(s, mode))
      && (Passed(After(run), h) ==> Passed(s, h) && s.waiters[h].prior == Null)
  {
    RunKeepsInv(run + more);
    RunKeepsFifo(run + more);
    StaysDoomed(run, more, h);
    assert h in After(run + more).waiters.Keys;
  }

  lemma {:induction false} StaysDoomed(run: seq<Step>, more: seq<Step>, h: Holder)
    requires GoesOn(run, more) && Doomed(After(run), h)
    ensures Doomed(After(run + more), h) && After(run + more).waiters[h] == After(run).waiters[h]
    ensures After(run).served <= After(run + more).served
  {
    if more == [] {
      assert run + more == run;
    } else {
      var front, last := more[..|more| - 1], more[|more| - 1];
      Onwards(run, more);
      LogGrows(After(run + front), last);
      StaysDoomed(run, front, h);
      RunKeepsInv(run + front);
      RunKeepsFifo(run + front);
      StepKeepsDoomed(After(run + front), last, h);
    }
  }

  // ---------------------------------------------------------------- the others have a way out

  /** Holders that could release their lock now. */
  ghost function Idle(s: State): set<Holder> {
    set x | x in s.held && x !in s.waiters
  }

  /** With nobody idle, the request whose turn it is gets through unless another sleeping one blocks it. */
  lemma {:induction false} TurnComes(s: State, g: Holder)
    requires Inv(s) && Fifo(s) && |s.asked| < SIGN_BIT && Idle(s) == {}
    requires g in s.waiters && s.waiters[g].ticket == |s.served| && forall f :: !Blocks(s, g, f)
    ensures LetsThrough(s, Recheck(g), g, s.waiters[g])
  {
    var w := s.waiters[g];
    assert HoldsPrior(s.held, g, w.prior);
    forall x | x in s.held && x != g
      ensures Admits(w.wanted, s.held[x])
    {
      assert x !in Idle(s);
      assert HoldsPrior(s.held, x, s.waiters[x].prior) && !Blocks(s, g, x);
    }
    CompatibleIff(s, g, w.prior, w.wanted);
    WakesIff(s, g);
  }

  /** With fewer asleep, nobody is blocked who was not before. */
  lemma {:induction false} StillHope(s: State, r: State, h: Holder)
    requires !Doomed(s, h) && h in r.waiters && !Passed(r, h)
    requires forall x :: x in r.waiters ==> x in s.waiters && r.waiters[x] == s.waiters[x]
    ensures !Doomed(r, h)
  {
    if g, f :| Ahead(r, g, h) && Blocks(r, g, f) {
      assert Ahead(s, g, h) && Blocks(s, g, f);
    }
  }

  /** Releasing an idle lock, or letting the next conversion through, keeps the hope. */
  lemma {:induction false} Releases(s: State, x: Holder, h: Holder)
    requires AllModes(s.counts) && x in Idle(s) && h in s.waiters && !Doomed(s, h)
    ensures Enabled(s, Up(x))
    ensures var r := Do(s, Up(x));
      && r.waiters == s.waiters && r.served == s.served && r.asked == s.asked
      && Idle(r) == Idle(s) - {x} && !Doomed(r, h)
  {
    StillHope(s, Do(s, Up(x)), h);
  }

  lemma {:induction false} LetsNext(s: State, h: Holder) returns (g: Holder)
    requires Inv(s) && Fifo(s) && |s.asked| < SIGN_BIT && Idle(s) == {}
    requires h in s.waiters && !Doomed(s, h) && |s.served| < s.waiters[h].ticket
    ensures Enabled(s, Recheck(g))
    ensures var r := Do(s, Recheck(g));
      && h in r.waiters && r.waiters[h] == s.waiters[h] && |r.served| == |s.served| + 1 && r.asked == s.asked
      && !Doomed(r, h)
  {
    assert s.waiters[h].ticket <= |s.asked|;
    g := s.asked[|s.served|];
    assert Ahead(s, g, h);
    TurnComes(s, g);
    GrantLetsSleep(s.(waiters := s.waiters - {g}), g, s.waiters[g]);
    StillHope(s, Do(s, Recheck(g)), h);
  }

  /** h sleeps on with hope, and nobody asked; a conversion got through, or a lock was released. */
  ghost predicate Nearer(s: State, r: State, h: Holder) {
    && h in s.waiters && h in r.waiters && r.waiters[h] == s.waiters[h] && r.asked == s.asked && !Doomed(r, h)
    && (|r.served| == |s.served| + 1 || (r.served == s.served && Idle(r) < Idle(s)))
  }

  lemma {:induction false} NextStep(s: State, h: Holder) returns (step: Step)
    requires Inv(s) && Fifo(s) && |s.asked| < SIGN_BIT && h in s.waiters && !Doomed(s, h)
    requires !LetsThrough(s, Recheck(h), h, s.waiters[h])
    ensures Enabled(s, step) && Nearer(s, Do(s, step), h)
  {
    if x :| x in Idle(s) {
      Releases(s, x, h);
      step := Up(x);
    } else {
      if s.waiters[h].ticket == |s.served| {
        assert Ahead(s, h, h);
        TurnComes(s, h);
      }
      var g := LetsNext(s, h);
      step := Recheck(g);
    }
  }

  lemma {:induction false} StepFirst(run: seq<Step>, step: Step, more: seq<Step>)
    requires Legal(run) && GoesOn(run + [step], more)
    ensures GoesOn(run, [step] + more) && After(run + ([step] + more)) == After(run + [step] + more)
  {
    assert run + ([step] + more) == run + [step] + more;
  }

  /** Releases and conversions in turn that let h through in the end. */
  lemma {:induction false} WayOut(run: seq<Step>, h: Holder) returns (more: seq<Step>)
    requires Legal(run) && h in After(run).waiters && |After(run).asked| < SIGN_BIT && !Doomed(After(run), h)
    ensures GoesOn(run, more) && LetsThrough(After(run + more), Recheck(h), h, After(run).waiters[h])
    decreases After(run).waiters[h].ticket - |After(run).served|, Idle(After(run))
  {
    RunKeepsInv(run);
    RunKeepsFifo(run);
    if LetsThrough(After(run), Recheck(h), h, After(run).waiters[h]) {
      assert run + [] == run;
      more := [];
    } else {
      var step := NextStep(After(run), h);
      RunGrows(run, step);
      var rest := WayOut(run + [step], h);
      StepFirst(run, step, rest);
      more := [step] + rest;
    }
  }

  /**
   Starvation, exactly.  Below 2^63 conversions, a sleeping request is let through in no continuation of
   the run if and only if it is doomed: it was passed, or it or a conversion it must wait for is blocked
   by a conversion that sleeps until after it.
   */
  lemma {:induction false} StarvesIff(run: seq<Step>, h: Holder)
    requires Legal(run) && h in After(run).waiters && |After(run).asked| < SIGN_BIT
    ensures Starves(run, h) <==> Doomed(After(run), h)
  {
    if Doomed(After(run), h) {
      forall more | GoesOn(run, more)
        ensures !LetsThrough(After(run + more), Recheck(h), h, After(run).waiters[h])
      {
        DoomedForEver(run, more, h);
        RunKeepsInv(run + more);
        RunKeepsFifo(run + more);
        DoomedWaits(After(run + more), h);
      }
    } else {
      var more := WayOut(run, h);
      assert GoesOn(run, more);
    }
  }
}
