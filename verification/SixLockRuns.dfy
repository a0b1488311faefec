/** Whole runs of the lock: safety of every reachable state, and the order in which requests get through. */
module SixLockRuns {
  import opened Machine
  import opened SixLockTables
  import opened SixLockProtocol
  import opened SixLockSafety

  // ---------------------------------------------------------------- one step of the queue

  /** The order invariant on its three components. */
  ghost predicate InOrder(waiters: map<Holder, Waiter>, asked: seq<Holder>, served: seq<Holder>) {
    && served <= asked
    && (forall k :: |served| <= k < |asked| ==>
          asked[k] in waiters && waiters[asked[k]].prior != Null && waiters[asked[k]].ticket == k)
    && (forall h :: h in waiters && waiters[h].prior != Null ==>
          |served| <= waiters[h].ticket < |asked| && asked[waiters[h].ticket] == h)
  }

  ghost predicate Fifo(s: State) {
    InOrder(s.waiters, s.asked, s.served)
  }

  lemma {:induction false} JoinKeepsOrder(waiters: map<Holder, Waiter>, asked: seq<Holder>, served: seq<Holder>,
                                        h: Holder, w: Waiter)
    requires InOrder(waiters, asked, served) && h !in waiters && w.ticket == |asked|
    ensures InOrder(waiters[h := w], if w.prior == Null then asked else asked + [h], served)
  {
  }

  lemma {:induction false} LeaveKeepsOrder(waiters: map<Holder, Waiter>, asked: seq<Holder>, served: seq<Holder>,
                                        h: Holder, w: Waiter)
    requires InOrder(waiters[h := w], asked, served) && h !in waiters
    requires w.prior != Null ==> w.ticket == |served|
    ensures InOrder(waiters, asked, if w.prior == Null then served else served + [h])
  {
    var all := waiters[h := w];
    assert all[h] == w;
    assert forall g :: g in waiters ==> g in all && all[g] == waiters[g];
  }

  /** The serial test lets a request through only when every conversion asked for before it has been served. */
  lemma {:induction false} SerialTestIsTurn(s: State, w: Waiter)
    requires Serials(s) && w.serial == Serial(w.ticket)
    requires w.ticket <= |s.asked| <= |s.served| + 0xFFFF
    requires |s.asked| < U64
    requires SerialCompare(w.serial, s.wake) >= 0
    ensures w.ticket <= |s.served|
  {
    if w.ticket > |s.served| {
      assert w.ticket / U64 == |s.served| / U64;
      SerialTestMeaning(w.ticket, |s.served|);
    }
  }

  lemma {:induction false} FewConversions(s: State)
    requires Queue(s)
    ensures |Converting(s.waiters)| <= |s.waiters|
  {
    assert Converting(s.waiters) <= s.waiters.Keys;
    SubsetSize(Converting(s.waiters), s.waiters.Keys);
  }

  lemma {:induction false} SubsetSize(a: set<Holder>, b: set<Holder>)
    requires a <= b
    ensures |a| <= |b|
  {
    if a != {} {
      var x :| x in a;
      SubsetSize(a - {x}, b - {x});
    }
  }

  lemma {:induction false} WokenInTurn(s: State, h: Holder)
    requires Inv(s) && Fifo(s) && h in s.waiters && |s.asked| < U64
    requires !MustWait(s, s.waiters[h], false)
    ensures s.waiters[h].ticket <= |s.served|
    ensures s.waiters[h].prior != Null ==> s.waiters[h].ticket == |s.served|
  {
    FewConversions(s);
    SerialTestIsTurn(s, s.waiters[h]);
  }

  /**
   No overtaking: when a step lets a request through, all conversions requested before it have been
   served, and a conversion goes through exactly in its turn.
   */
  lemma {:induction false} LetThroughInTurn(s: State, step: Step, h: Holder, w: Waiter)
    requires Inv(s) && Fifo(s) && Enabled(s, step) && |Do(s, step).asked| < U64
    requires LetsThrough(s, step, h, w)
    ensures w.ticket <= |s.served| && s.served <= s.asked
    ensures w.prior != Null ==> w.ticket == |s.served|
  {
    match step
    case Request(_, prior, mode) =>
    case Recheck(_) =>
      LogGrows(s, step);
      WokenInTurn(s, h);
    case TryLock(_, _) =>
      FewConversions(s);
  }

  lemma {:induction false} AskKeepsFifo(s: State, h: Holder, w: Waiter)
    requires Inv(s) && Fifo(s) && Fresh(s, h, w)
    requires |s.asked| + 1 < U64 || w.prior == Null
    requires |s.asked| < U64
    ensures Fifo(Ask(s, h, w))
  {
    JoinKeepsOrder(s.waiters, s.asked, s.served, h, w);
    var s1 := Enter(s, h, w.prior);
    if Inc16(s.waitCount) != 0 && !MustWait(s1, w, true) {
      EnterKeepsSerials(s, h, w.prior);
      FewConversions(s);
      SerialTestIsTurn(s1, w);
      GrantEffect(s1, h, w);
      LeaveKeepsOrder(s.waiters, s1.asked, s.served, h, w);
    }
  }

  lemma {:induction false} RecheckKeepsFifo(s: State, h: Holder)
    requires Inv(s) && Fifo(s) && Enabled(s, Recheck(h)) && |s.asked| < U64
    ensures Fifo(Do(s, Recheck(h)))
  {
    var w := s.waiters[h];
    if !MustWait(s, w, false) {
      FewConversions(s);
      SerialTestIsTurn(s, w);
      var s1 := s.(waiters := s.waiters - {h});
      assert s1.waiters[h := w] == s.waiters;
      GrantEffect(s1, h, w);
      LeaveKeepsOrder(s1.waiters, s.asked, s.served, h, w);
    }
  }

  lemma {:induction false} AskedGrows(s: State, h: Holder, w: Waiter)
    requires AllModes(s.counts)
    ensures Inc16(s.waitCount) != 0 ==> Ask(s, h, w).asked == Enter(s, h, w.prior).asked
  {
  }

  lemma {:induction false} StepKeepsFifo(s: State, step: Step)
    requires Inv(s) && Fifo(s) && Enabled(s, step) && |Do(s, step).asked| < U64
    ensures Fifo(Do(s, step))
  {
    match step
    case Request(h, prior, mode) =>
      var w := NewWaiter(s, prior, mode);
      AskedGrows(s, h, w);
      if Inc16(s.waitCount) != 0 {
        AskKeepsFifo(s, h, w);
      }
    case Recheck(h) =>
      RecheckKeepsFifo(s, h);
    case TryLock(_, _) =>
    case Up(_) =>
  }

  // ---------------------------------------------------------------- runs

  /** Every step of the run was allowed where it was taken. */
  predicate Legal(steps: seq<Step>)
    decreases |steps|, 0
  {
    steps == [] || (
      var front := steps[..|steps| - 1];
      Legal(front) && Enabled(After(front), steps[|steps| - 1]))
  }

  /** The state after a run of any length by any number of holders. */
  function After(steps: seq<Step>): (s: State)
    requires Legal(steps)
    ensures AllModes(s.counts)
    decreases |steps|, 1
  {
    if steps == [] then Init() else Do(After(steps[..|steps| - 1]), steps[|steps| - 1])
  }

  lemma {:induction false} RunGrows(run: seq<Step>, step: Step)
    requires Legal(run) && Enabled(After(run), step)
    ensures Legal(run + [step]) && After(run + [step]) == Do(After(run), step)
  {
    assert (run + [step])[..|run|] == run;
  }

  lemma {:induction false} RunKeepsInv(steps: seq<Step>)
    requires Legal(steps)
    ensures Inv(After(steps))
  {
    if steps == [] {
    } else {
      var front := steps[..|steps| - 1];
      RunKeepsInv(front);
      StepKeepsInv(After(front), steps[|steps| - 1]);
    }
  }

  lemma {:induction false} RunKeepsFifo(steps: seq<Step>)
    requires Legal(steps) && |After(steps).asked| < U64
    ensures Fifo(After(steps))
  {
    if steps == [] {
    } else {
      var front := steps[..|steps| - 1];
      var last := steps[|steps| - 1];
      RunKeepsInv(front);
      LogGrows(After(front), last);
      RunKeepsFifo(front);
      StepKeepsFifo(After(front), last);
    }
  }

  lemma {:induction false} LogGrows(s: State, step: Step)
    requires AllModes(s.counts) && Enabled(s, step)
    ensures |s.asked| <= |Do(s, step).asked|
  {
  }

  // ---------------------------------------------------------------- the main results

  lemma {:induction false} WhatCoexists(a: Mode, b: Mode)
    requires Coexist(a, b)
    ensures a == X ==> b == Null
    ensures a == U ==> b == Null || b == S
    ensures a == SIX ==> b == Null || b == IS
  {
  }

  /**
   Mutual exclusion.  In every reachable state, overflow included, any two claims are allowed by the
   table in at least one order: X excludes every real mode, and U and SIX exclude themselves.
   */
  lemma {:induction false} MutualExclusion(steps: seq<Step>, g: Holder, h: Holder)
    requires Legal(steps)
    requires g in After(steps).held && h in After(steps).held && g != h
    ensures var a, b := After(steps).held[g], After(steps).held[h];
      && Coexist(a, b)
      && (a == X ==> b == Null)
      && (a == U ==> b == Null || b == S)
      && (a == SIX ==> b == Null || b == IS)
  {
    RunKeepsInv(steps);
    WhatCoexists(After(steps).held[g], After(steps).held[h]);
  }

  /** The request with the given ticket is asleep as a conversion. */
  ghost predicate Pending(s: State, k: nat) {
    && k < |s.asked|
    && s.asked[k] in s.waiters
    && s.waiters[s.asked[k]].prior != Null
    && s.waiters[s.asked[k]].serial == k
  }

  /**
   Conversions get through exactly in the order they were asked for, and those still pending are
   the ones asked for last, each asleep with its own serial: wake_serial .. wait_serial - 1.
   */
  lemma {:induction false} ConversionsAreFifo(steps: seq<Step>)
    requires Legal(steps) && |After(steps).asked| < U64
    ensures var s := After(steps);
      && s.served <= s.asked
      && (forall k: nat :: Pending(s, k) <==> s.wake <= k < s.wait)
      && s.wait - s.wake == |Converting(s.waiters)|
  {
    RunKeepsInv(steps);
    RunKeepsFifo(steps);
    PendingIsTheTail(After(steps));
  }

  lemma {:induction false} PendingIsTheTail(s: State)
    requires Inv(s) && Fifo(s) && |s.asked| < U64
    ensures s.wake == |s.served| && s.wait == |s.asked|
    ensures forall k: nat :: Pending(s, k) <==> s.wake <= k < s.wait
  {
    SerialIsRemainder(|s.served|);
    SerialIsRemainder(|s.asked|);
    forall k: nat
      ensures Pending(s, k) <==> s.wake <= k < s.wait
    {
      if k < |s.asked| && s.asked[k] in s.waiters {
        var w := s.waiters[s.asked[k]];
        SerialIsRemainder(w.ticket);
        assert w.serial == w.ticket;
      }
    }
  }

  /** Over a whole run: nobody, plain request or trylock, gets past a conversion asked for earlier. */
  lemma {:induction false} NoOvertaking(steps: seq<Step>, h: Holder, w: Waiter)
    requires steps != [] && Legal(steps) && |After(steps).asked| < U64
    requires LetsThrough(After(steps[..|steps| - 1]), steps[|steps| - 1], h, w)
    ensures var s := After(steps[..|steps| - 1]);
      && w.ticket <= |s.served| && s.served <= s.asked
      && (w.prior != Null ==> w.ticket == |s.served|)
  {
    var front := steps[..|steps| - 1];
    RunKeepsInv(front);
    LogGrows(After(front), steps[|steps| - 1]);
    RunKeepsFifo(front);
    LetThroughInTurn(After(front), steps[|steps| - 1], h, w);
  }

  /** A granted request meets a full 16-bit lock count. */
  predicate Overflows(s: State, step: Step)
    requires AllModes(s.counts) && Enabled(s, step)
  {
    match step
    case Request(h, prior, mode) =>
      var w := NewWaiter(s, prior, mode);
      var s1 := Enter(s, h, prior);
      Inc16(s.waitCount) != 0 && !MustWait(s1, w, true) && Inc16(GiveUpPrior(s1, h, w).counts[w.wanted]) == 0
    case Recheck(h) =>
      var w := s.waiters[h];
      !MustWait(s, w, false) && Inc16(GiveUpPrior(s.(waiters := s.waiters - {h}), h, w).counts[w.wanted]) == 0
    case TryLock(_, _) => false
    case Up(_) => false
  }

  ghost predicate NeverOverflows(steps: seq<Step>)
    requires Legal(steps)
  {
    steps == [] || (
      var front := steps[..|steps| - 1];
      NeverOverflows(front) && !Overflows(After(front), steps[|steps| - 1]))
  }

  lemma {:induction false} AskLost(s: State, h: Holder, w: Waiter)
    requires AllModes(s.counts)
    ensures Ask(s, h, w).lost == s.lost + (
      var s1 := Enter(s, h, w.prior);
      if Inc16(s.waitCount) != 0 && !MustWait(s1, w, true)
           && Inc16(GiveUpPrior(s1, h, w).counts[w.wanted]) == 0 then 1 else 0)
  {
  }

  lemma {:induction false} StepLost(s: State, step: Step)
    requires AllModes(s.counts) && Enabled(s, step)
    ensures Do(s, step).lost == s.lost + (if Overflows(s, step) then 1 else 0)
  {
    match step
    case Request(h, prior, mode) => AskLost(s, h, NewWaiter(s, prior, mode));
    case Recheck(_) =>
    case TryLock(_, _) =>
    case Up(_) =>
  }

  lemma {:induction false} LostCountsOverflows(steps: seq<Step>)
    requires Legal(steps)
    ensures After(steps).lost == 0 <==> NeverOverflows(steps)
  {
    if steps != [] {
      var front := steps[..|steps| - 1];
      LostCountsOverflows(front);
      StepLost(After(front), steps[|steps| - 1]);
    }
  }

  /** wait_serial - wake_serial, in 64 bits, is the number of pending conversions. */
  lemma {:induction false} SerialDistance(s: State)
    requires Inv(s)
    ensures Sub64(s.wait, s.wake) == |Converting(s.waiters)|
  {
    FewConversions(s);
    SerialDifference(|s.served|, |Converting(s.waiters)|);
  }

  /**
   The books of every reachable state: counts, mask and serials are exact always; the wait count is
   exact precisely as long as no granted request has met a full lock count.
   */
  lemma {:induction false} BooksAreExact(steps: seq<Step>)
    requires Legal(steps)
    ensures var s := After(steps);
      && (forall m: Mode :: s.counts[m] == |HoldersOf(s.held, m)|)
      && (forall m: Mode :: m in s.mask <==> exists h :: h in s.held && s.held[h] == m)
      && Sub64(s.wait, s.wake) == |Converting(s.waiters)|
      && (s.waitCount == |s.waiters| <==> NeverOverflows(steps))
  {
    RunKeepsInv(steps);
    LostCountsOverflows(steps);
    var s := After(steps);
    SerialDistance(s);
    forall m: Mode
      ensures m in s.mask <==> exists h :: h in s.held && s.held[h] == m
    {
      if m in s.mask {
        assert HoldersOf(s.held, m) != {};
        var h :| h in HoldersOf(s.held, m);
      }
      if exists h :: h in s.held && s.held[h] == m {
        var h :| h in s.held && s.held[h] == m;
        assert h in HoldersOf(s.held, m);
      }
    }
  }

  /** The trylock's serial test is implied by its first test: with nobody waiting no conversion is pending. */
  lemma {:induction false} TryLockSerialTestIsRedundant(steps: seq<Step>)
    requires Legal(steps)
    ensures After(steps).waitCount == 0 ==> After(steps).wait == After(steps).wake
  {
    RunKeepsInv(steps);
    FewConversions(After(steps));
    SerialDistance(After(steps));
  }
}
