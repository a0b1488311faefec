/**
 The lock as a transition system over an unbounded set of holders.  Each step is one critical
 section of the code: everything a call does between taking the internal spinlock and releasing
 it, or going to sleep on the condition variable.  A sleeping request may be re-evaluated at any time.
 */
module SixLockProtocol {
  import opened SixLockTables

  /** One claim on the lock.  A thread that calls `down` twice is two holders. */
  type Holder = nat

  /**
   A request asleep in the wait loop: the mode it holds meanwhile, the (converted) mode it wants, its
   64-bit serial, and the number of conversions that had been requested before it.
   */
  datatype Waiter = Waiter(prior: Mode, wanted: Mode, serial: int, ticket: nat)

  /**
   The first five components are the fields of the semaphore; the mask is kept here as the set of modes
   whose bit is set.  The others are history: who holds
   what, who sleeps, the conversions in the order they were asked for and in the order they got
   through, and how many granted requests were lost to a full lock count.
   */
  datatype State = State(
    mask: set<Mode>,
    counts: map<Mode, int>,
    waitCount: int,
    wake: int,
    wait: int,
    held: map<Holder, Mode>,
    waiters: map<Holder, Waiter>,
    asked: seq<Holder>,
    served: seq<Holder>,
    lost: nat)

  lemma {:induction false} ListedModes(counts: map<Mode, int>)
    requires counts == map[Null := 0, IS := 0, IX := 0, S := 0, SIX := 0, U := 0, X := 0]
    ensures forall m: Mode :: m in counts && counts[m] == 0
  {
    forall m: Mode
      ensures m in counts && counts[m] == 0
    {
      match m case Null => case IS => case IX => case S => case SIX => case U => case X =>
    }
  }

  function NoCounts(): (counts: map<Mode, int>)
    ensures forall m: Mode :: m in counts && counts[m] == 0
  {
    var counts := map[Null := 0, IS := 0, IX := 0, S := 0, SIX := 0, U := 0, X := 0];
    ListedModes(counts);
    counts
  }

  function Init(): (s: State)
    ensures AllModes(s.counts)
  {
    State({}, NoCounts(), 0, 0, 0, map[], map[], [], [], 0)
  }

  datatype Step =
    | Request(h: Holder, prior: Mode, mode: Mode)
    | Recheck(h: Holder)
    | TryLock(h: Holder, mode: Mode)
    | Up(h: Holder)

  predicate AllModes(counts: map<Mode, int>) {
    forall m: Mode :: m in counts
  }

  /** six_lock_is_compatible. */
  predicate Compatible(mask: set<Mode>, counts: map<Mode, int>, prior: Mode, wanted: Mode)
    requires AllModes(counts)
  {
    mask == {} ||
    var locks := if counts[prior] == 1 then mask - {prior} else mask;
    locks <= CompatSet(wanted)
  }

  /** The condition of the wait loop. */
  predicate MustWait(s: State, w: Waiter, first: bool)
    requires AllModes(s.counts)
  {
    (s.waitCount > 1 && first) || SerialCompare(w.serial, s.wake) < 0
    || !Compatible(s.mask, s.counts, w.prior, w.wanted)
  }

  /** 16-bit counters wrap. */
  function Dec16(n: int): int { if n == 0 then 0xFFFF else n - 1 }

  function Inc16(n: int): int { if n == 0xFFFF then 0 else n + 1 }

  /** Give up one lock of mode m. */
  function Release(s: State, m: Mode): (r: State)
    requires AllModes(s.counts)
  {
    var n := Dec16(s.counts[m]);
    s.(counts := s.counts[m := n], mask := if n == 0 then s.mask - {m} else s.mask)
  }

  /** Take one lock of mode m; there must be room for it. */
  function Acquire(s: State, h: Holder, m: Mode): (r: State)
    requires AllModes(s.counts)
  {
    s.(counts := s.counts[m := Inc16(s.counts[m])], mask := s.mask + {m}, held := s.held[h := m])
  }

  /** The part of the code before the wanted mode is counted: the prior mode is given up. */
  function GiveUpPrior(s: State, h: Holder, w: Waiter): (r: State)
    requires AllModes(s.counts)
  {
    if w.prior == Null then s
    else Release(s.(wake := Inc64(s.wake), served := s.served + [h], held := s.held - {h}), w.prior)
  }

  /** The code after the wait loop.  A full count loses the request, and the prior mode with it. */
  function Grant(s: State, h: Holder, w: Waiter): (r: State)
    requires AllModes(s.counts)
  {
    var s1 := GiveUpPrior(s, h, w);
    if Inc16(s1.counts[w.wanted]) == 0 then s1.(lost := s1.lost + 1)
    else Acquire(s1, h, w.wanted).(waitCount := Dec16(s1.waitCount))
  }

  /** Entering fusion_sixsem_upgrade: the request as it stands before the first test of the loop. */
  function Enter(s: State, h: Holder, prior: Mode): State {
    var s1 := s.(waitCount := Inc16(s.waitCount));
    if prior == Null then s1 else s1.(wait := Inc64(s.wait), asked := s.asked + [h])
  }

  function NewWaiter(s: State, prior: Mode, mode: Mode): Waiter {
    Waiter(prior, Convert(mode, prior), s.wait, |s.asked|)
  }

  /** A request up to its first sleep, or to its end if it need not sleep. */
  function Ask(s: State, h: Holder, w: Waiter): State
    requires AllModes(s.counts)
  {
    var s1 := Enter(s, h, w.prior);
    if Inc16(s.waitCount) == 0 then s
    else if MustWait(s1, w, true) then s1.(waiters := s.waiters[h := w])
    else Grant(s1, h, w)
  }

  /** What callers must respect: name only the mode really held, and do one thing at a time. */
  predicate Enabled(s: State, step: Step) {
    match step
    case Request(h, prior, _) =>
      h !in s.waiters && (if prior == Null then h !in s.held else h in s.held && s.held[h] == prior)
    case Recheck(h) => h in s.waiters
    case TryLock(h, _) => h !in s.waiters && h !in s.held
    case Up(h) => h !in s.waiters && h in s.held
  }

  /** May the trylock take the mode now? */
  predicate TryLockTest(s: State, mode: Mode)
    requires AllModes(s.counts)
  {
    s.waitCount == 0 && s.wait == s.wake && Compatible(s.mask, s.counts, Null, mode)
  }

  function Do(s: State, step: Step): (r: State)
    requires AllModes(s.counts) && Enabled(s, step)
    ensures AllModes(r.counts)
  {
    match step
    case Request(h, prior, mode) => Ask(s, h, NewWaiter(s, prior, mode))
    case Recheck(h) =>
      var w := s.waiters[h];
      if MustWait(s, w, false) then s else Grant(s.(waiters := s.waiters - {h}), h, w)
    case TryLock(h, mode) =>
      if TryLockTest(s, mode) && Inc16(s.counts[mode]) != 0 then Acquire(s, h, mode) else s
    case Up(h) =>
      Release(s.(held := s.held - {h}), s.held[h])
  }

  /** Which request does this step let through the wait loop, if any? */
  predicate LetsThrough(s: State, step: Step, h: Holder, w: Waiter)
    requires AllModes(s.counts)
  {
    match step
    case Request(g, prior, mode) =>
      g == h && w == NewWaiter(s, prior, mode) && Inc16(s.waitCount) != 0 && !MustWait(Enter(s, h, prior), w, true)
    case Recheck(g) => g == h && h in s.waiters && w == s.waiters[h] && !MustWait(s, w, false)
    case TryLock(g, mode) =>
      g == h && w == NewWaiter(s, Null, mode) && TryLockTest(s, mode)
    case Up(_) => false
  }

  // ---------------------------------------------------------------- the invariant

  ghost function HoldersOf(held: map<Holder, Mode>, m: Mode): set<Holder> {
    set h | h in held && held[h] == m
  }

  ghost function Converting(waiters: map<Holder, Waiter>): set<Holder> {
    set h | h in waiters && waiters[h].prior != Null
  }

  /** Counts and mask say exactly who holds what. */
  ghost predicate Books(s: State) {
    && AllModes(s.counts)
    && (forall m: Mode :: 0 <= s.counts[m] <= 0xFFFF && s.counts[m] == |HoldersOf(s.held, m)|)
    && (forall m: Mode :: m in s.mask <==> s.counts[m] > 0)
  }

  /** Every pair of holders is allowed by the table in at least one order. */
  ghost predicate Peaceful(held: map<Holder, Mode>) {
    forall g, h :: g in held && h in held && g != h ==> Coexist(held[g], held[h])
  }

  /** A request keeps its prior mode until it is granted. */
  ghost predicate HoldsPrior(held: map<Holder, Mode>, h: Holder, prior: Mode) {
    if prior == Null then h !in held else h in held && held[h] == prior
  }

  ghost predicate WaitersOk(waiters: map<Holder, Waiter>, held: map<Holder, Mode>, asked: nat) {
    forall h :: h in waiters ==> HoldsPrior(held, h, waiters[h].prior) && waiters[h].ticket <= asked
  }

  /** The wait count and the two logs agree with the sleeping requests. */
  ghost predicate Queue(s: State) {
    && s.waitCount == |s.waiters| + s.lost <= 0xFFFF
    && |s.served| + |Converting(s.waiters)| == |s.asked|
    && WaitersOk(s.waiters, s.held, |s.asked|)
  }

  /** The serials count the conversions asked for and let through. */
  ghost predicate Serials(s: State) {
    && s.wait == Serial(|s.asked|)
    && s.wake == Serial(|s.served|)
    && (forall h :: h in s.waiters ==> s.waiters[h].serial == Serial(s.waiters[h].ticket))
  }

  ghost predicate Inv(s: State) {
    Books(s) && Peaceful(s.held) && Queue(s) && Serials(s)
  }
}
