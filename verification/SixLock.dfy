/** The semaphore itself: the fields the code updates in place, proved against the transition system. */
module SixLock {
  import opened SixLockTables
  import opened SixLockProtocol
  import opened SixLockSafety
  import opened SixLockRuns
  import opened SixLockGrants

  /** lock_mode_masks: one bit per mode. */
  function Bit(m: Mode): bv8 {
    match m
    case Null => 0x01
    case IS => 0x02
    case IX => 0x04
    case S => 0x08
    case SIX => 0x10
    case U => 0x20
    case X => 0x40
  }

  function Pack(n: bool, is_: bool, ix: bool, s: bool, six: bool, u: bool, x: bool): bv8 {
    (if n then 0x01 else 0) | (if is_ then 0x02 else 0) | (if ix then 0x04 else 0) | (if s then 0x08 else 0)
    | (if six then 0x10 else 0) | (if u then 0x20 else 0) | (if x then 0x40 else 0)
  }

  /** The bit mask of a set of modes. */
  function MaskOf(ms: set<Mode>): bv8 {
    Pack(Null in ms, IS in ms, IX in ms, S in ms, SIX in ms, U in ms, X in ms)
  }

  lemma {:induction false} MaskOfRemove(ms: set<Mode>, m: Mode)
    ensures MaskOf(ms - {m}) == MaskOf(ms) & !Bit(m)
  {
  }

  lemma {:induction false} Within(a: set<Mode>, b: set<Mode>)
    ensures a <= b <==> (
        && (Null in a ==> Null in b) && (IS in a ==> IS in b) && (IX in a ==> IX in b) && (S in a ==> S in b)
        && (SIX in a ==> SIX in b) && (U in a ==> U in b) && (X in a ==> X in b))
  {
    if !(a <= b) {
      var m :| m in a && m !in b;
      match m case Null => case IS => case IX => case S => case SIX => case U => case X =>
    }
  }

  lemma {:induction false} MaskOfSubset(a: set<Mode>, b: set<Mode>)
    ensures !MaskOf(b) & MaskOf(a) == 0 <==> a <= b
  {
    Within(a, b);
  }

  lemma {:induction false} MaskOfEmpty(a: set<Mode>)
    ensures MaskOf(a) == 0 <==> a == {}
  {
    MaskOfSubset(a, {});
    assert !MaskOf({}) & MaskOf(a) == 0 <==> MaskOf(a) == 0;
  }

  /** 0, or -EAGAIN, or asleep in the wait loop. */
  datatype Outcome = Granted | Again | Asleep

  class Semaphore {
    var curLocksMask: bv8
    const lockCounts: array<int>
    var waitCount: int
    var wakeSerial: int
    var waitSerial: int
    /** Every critical section of this semaphore so far. */
    ghost var run: seq<Step>

    /** The fields are those of s. */
    ghost predicate Matches(s: State)
      reads this, lockCounts
    {
      && lockCounts.Length == MODE_COUNT
      && AllModes(s.counts)
      && curLocksMask == MaskOf(s.mask)
      && (forall m: Mode :: lockCounts[Ord(m)] == s.counts[m])
      && waitCount == s.waitCount && wakeSerial == s.wake && waitSerial == s.wait
    }

    /** The fields are those of the state the run leads to, so every theorem about runs is about this object. */
    ghost predicate Valid()
      reads this, lockCounts
    {
      Legal(run) && Matches(After(run))
    }

    constructor ()
      ensures Valid() && fresh(lockCounts) && run == []
    {
      lockCounts := new int[MODE_COUNT](_ => 0);
      curLocksMask := 0;
      waitCount, wakeSerial, waitSerial := 0, 0, 0;
      run := [];
    }

    method IsCompatible(ghost s: State, oldMode: Mode, newMode: Mode) returns (ok: bool)
      requires Matches(s)
      ensures ok == Compatible(s.mask, s.counts, oldMode, newMode)
    {
      var locksMask := curLocksMask;
      MaskOfEmpty(s.mask);
      if curLocksMask == 0 {
        return true;
      }
      if lockCounts[Ord(oldMode)] == 1 {
        MaskOfRemove(s.mask, oldMode);
        locksMask := locksMask & !Bit(oldMode);
      }
      MaskOfSubset(if lockCounts[Ord(oldMode)] == 1 then s.mask - {oldMode} else s.mask, CompatSet(newMode));
      return !MaskOf(CompatSet(newMode)) & locksMask == 0;
    }

    method SetBit(ghost ms: set<Mode>, m: Mode)
      requires curLocksMask == MaskOf(ms)
      modifies this`curLocksMask
      ensures curLocksMask == MaskOf(ms + {m})
    {
      curLocksMask := curLocksMask | Bit(m);
    }

    method ClearBit(ghost ms: set<Mode>, m: Mode)
      requires curLocksMask == MaskOf(ms)
      modifies this`curLocksMask
      ensures curLocksMask == MaskOf(ms - {m})
    {
      MaskOfRemove(ms, m);
      curLocksMask := curLocksMask & !Bit(m);
    }

    method SetCount(ghost counts: map<Mode, int>, m: Mode, n: int)
      requires lockCounts.Length == MODE_COUNT && AllModes(counts)
      requires forall k: Mode :: lockCounts[Ord(k)] == counts[k]
      modifies lockCounts
      ensures forall k: Mode :: lockCounts[Ord(k)] == counts[m := n][k]
    {
      lockCounts[Ord(m)] := n;
    }

    /** Give up one lock: decrement the count and clear the bit of a mode nobody holds any more. */
    method Decrement(ghost s: State, m: Mode)
      requires Matches(s)
      modifies this`curLocksMask, lockCounts
      ensures Matches(Release(s, m))
    {
      SetCount(s.counts, m, Dec16(lockCounts[Ord(m)]));
      if lockCounts[Ord(m)] == 0 {
        ClearBit(s.mask, m);
      }
    }

    /** Count one more lock unless the count is full, in which case nothing changes. */
    method Increment(ghost s: State, h: Holder, m: Mode) returns (ok: bool)
      requires Matches(s) && 0 <= s.counts[m] <= 0xFFFF
      modifies this`curLocksMask, lockCounts
      ensures ok <==> Inc16(s.counts[m]) != 0
      ensures Matches(if ok then Acquire(s, h, m) else s)
    {
      SetCount(s.counts, m, Inc16(lockCounts[Ord(m)]));
      if lockCounts[Ord(m)] == 0 {
        SetCount(s.counts[m := Inc16(s.counts[m])], m, Dec16(lockCounts[Ord(m)]));
        return false;
      }
      SetBit(s.mask, m);
      return true;
    }

    /** The code after the wait loop. */
    method Finish(ghost s: State, h: Holder, oldMode: Mode, newMode: Mode, ghost w: Waiter) returns (ok: bool)
      requires Matches(s)
      requires w.prior == oldMode && w.wanted == newMode
      requires 0 <= GiveUpPrior(s, h, w).counts[newMode] <= 0xFFFF
      modifies `curLocksMask, `waitCount, `wakeSerial, lockCounts
      ensures Matches(Grant(s, h, w))
      ensures ok <==> Inc16(GiveUpPrior(s, h, w).counts[newMode]) != 0
    {
      if oldMode != Null {
        wakeSerial := Inc64(wakeSerial);
        Decrement(s.(wake := Inc64(s.wake), served := s.served + [h], held := s.held - {h}), oldMode);
      }
      ok := Increment(GiveUpPrior(s, h, w), h, newMode);
      if ok {
        waitCount := Dec16(waitCount);
      }
    }

    /**
     fusion_sixsem_upgrade up to its first sleep.  Waiting gives up the internal lock, so each later
     trip through the loop is a step of its own: Recheck.
     */
    method Upgrade(h: Holder, oldMode: Mode, asked: Mode) returns (r: Outcome)
      requires Valid() && Enabled(After(run), Request(h, oldMode, asked))
      modifies this, lockCounts
      ensures Valid() && run == old(run) + [Request(h, oldMode, asked)]
      ensures r == Result(old(run), Request(h, oldMode, asked))
    {
      var newMode := Convert(asked, oldMode);
      ghost var s := After(run);
      ghost var w := NewWaiter(s, oldMode, asked);
      RunGrows(run, Request(h, oldMode, asked));
      RoomAfterEnter(run, h, w);
      run := run + [Request(h, oldMode, asked)];
      waitCount := Inc16(waitCount);
      if waitCount == 0 {
        waitCount := Dec16(waitCount);
        return Again;
      }
      var serial := waitSerial;
      if oldMode != Null {
        waitSerial := Inc64(waitSerial);
      }
      var compatible := IsCompatible(Enter(s, h, oldMode), oldMode, newMode);
      if waitCount > 1 || SerialCompare(serial, wakeSerial) < 0 || !compatible {
        return Asleep;
      }
      var ok := Finish(Enter(s, h, oldMode), h, oldMode, newMode, w);
      return if ok then Granted else Again;
    }

    /** One wake-up of a sleeping request, spurious or not. */
    method Recheck(h: Holder, oldMode: Mode, newMode: Mode, serial: int) returns (r: Outcome)
      requires Valid() && Enabled(After(run), Step.Recheck(h))
      requires var w := After(run).waiters[h]; w.prior == oldMode && w.wanted == newMode && w.serial == serial
      modifies this, lockCounts
      ensures Valid() && run == old(run) + [Step.Recheck(h)]
      ensures r == Result(old(run), Step.Recheck(h))
    {
      ghost var s := After(run);
      RunGrows(run, Step.Recheck(h));
      RoomAfterWaking(run, h);
      var compatible := IsCompatible(s, oldMode, newMode);
      run := run + [Step.Recheck(h)];
      if SerialCompare(serial, wakeSerial) < 0 || !compatible {
        return Asleep;
      }
      var ok := Finish(s.(waiters := s.waiters - {h}), h, oldMode, newMode, s.waiters[h]);
      return if ok then Granted else Again;
    }

    method DownTrylock(h: Holder, mode: Mode) returns (gotLock: bool)
      requires Valid() && Enabled(After(run), TryLock(h, mode))
      modifies this, lockCounts
      ensures Valid() && run == old(run) + [TryLock(h, mode)]
      ensures gotLock == Result(old(run), TryLock(h, mode)).Granted?
    {
      ghost var s := After(run);
      RunGrows(run, TryLock(h, mode));
      CountsFit(run, mode);
      run := run + [TryLock(h, mode)];
      if waitCount > 0 {
        return false;
      }
      var compatible := IsCompatible(s, Null, mode);
      if waitSerial == wakeSerial && compatible {
        gotLock := Increment(s, h, mode);
        return gotLock;
      }
      return false;
    }

    method UpMode(h: Holder, mode: Mode)
      requires Valid() && Enabled(After(run), Up(h)) && After(run).held[h] == mode
      modifies this, lockCounts
      ensures Valid() && run == old(run) + [Up(h)]
    {
      ghost var s := After(run);
      RunGrows(run, Up(h));
      run := run + [Up(h)];
      Decrement(s.(held := s.held - {h}), mode);
    }
  }

  /** What a call returns, read off the state it leaves. */
  ghost function Result(before: seq<Step>, step: Step): Outcome
    requires Legal(before) && Enabled(After(before), step)
  {
    var s := Do(After(before), step);
    if step.h in s.waiters then Asleep
    else if step.TryLock? then (if step.h in s.held then Granted else Again)
    else if s.lost == After(before).lost && step.h in s.held
      && !(step.Request? && Inc16(After(before).waitCount) == 0) then Granted
    else Again
  }

  /**
   What the results mean: a request or a wake-up returns success exactly when its holder has the converted
   mode now, and -EAGAIN when the queue or the mode's count was full.
   */
  lemma {:induction false} ResultIs(run: seq<Step>, step: Step)
    requires Legal(run) && Enabled(After(run), step) && (step.Request? || step.Recheck?)
    ensures var s := After(run);
      var w := if step.Request? then NewWaiter(s, step.prior, step.mode) else s.waiters[step.h];
      var full := step.Request? && s.waitCount == 0xFFFF;
      && (Result(run, step) == Asleep <==> !full && !LetsThrough(s, step, step.h, w))
      && (Result(run, step) == Granted <==>
            !full && LetsThrough(s, step, step.h, w) && !Full(s.held, step.h, w.wanted))
      && (Result(run, step) == Granted ==> Do(s, step).held == s.held[step.h := w.wanted])
  {
    var s := After(run);
    RunKeepsInv(run);
    if step.Request? {
      RequestLeaves(run, step.h, step.prior, step.mode);
    } else {
      RecheckLeaves(run, step.h);
    }
  }

  lemma {:induction false} CountsFit(run: seq<Step>, m: Mode)
    requires Legal(run)
    ensures After(run).waitCount >= 0 && 0 <= After(run).counts[m] <= 0xFFFF
  {
    RunKeepsInv(run);
  }

  lemma {:induction false} RoomAfterEnter(run: seq<Step>, h: Holder, w: Waiter)
    requires Legal(run) && HoldsPrior(After(run).held, h, w.prior)
    ensures 0 <= GiveUpPrior(Enter(After(run), h, w.prior), h, w).counts[w.wanted] <= 0xFFFF
    ensures After(run).waitCount >= 0
  {
    RunKeepsInv(run);
    GiveUpPriorKeepsBooks(Enter(After(run), h, w.prior), h, w);
  }

  lemma {:induction false} RoomAfterWaking(run: seq<Step>, h: Holder)
    requires Legal(run) && h in After(run).waiters
    ensures var s := After(run);
      0 <= GiveUpPrior(s.(waiters := s.waiters - {h}), h, s.waiters[h]).counts[s.waiters[h].wanted] <= 0xFFFF
  {
    RunKeepsInv(run);
    var s := After(run);
    GiveUpPriorKeepsBooks(s.(waiters := s.waiters - {h}), h, s.waiters[h]);
  }
}
