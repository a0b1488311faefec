/** Runs after which requests sleep for ever. */
module SixLockStarved {
  import opened SixLockTables
  import opened SixLockProtocol
  import opened SixLockRuns
  import opened SixLockStarvation

  // ---------------------------------------------------------------- passed

  /** Holder 1 asks for U while holder 0 holds it; holder 0 converts to X, and then releases it. */
  function Passing(): seq<Step> {
    [Request(0, Null, U)] + [Request(1, Null, U)] + [Request(0, U, X)] + [Recheck(0)] + [Up(0)]
  }

  /** Counts of a lock that one holder holds in mode m, or nobody. */
  ghost predicate OnlyHeld(s: State, held: map<Holder, Mode>, m: Mode) {
    && AllModes(s.counts) && (forall n: Mode :: s.counts[n] == if n == m && held != map[] then 1 else 0)
    && s.mask == (if held == map[] then {} else {m}) && s.held == held
  }

  /** Holder 0 has U, and holder 1 asks for U: it must wait. */
  lemma {:induction false} AsksForTaken(s: State)
    requires OnlyHeld(s, map[0 := U], U) && s.waitCount == 0 && s.waiters == map[] && s.wait == 0 && s.asked == []
    ensures Enabled(s, Request(1, Null, U))
    ensures Do(s, Request(1, Null, U)) == s.(waitCount := 1, waiters := map[1 := Waiter(Null, U, 0, 0)])
  {
    assert Convert(U, Null) == U;
    assert 0 in s.held && CompatSet(U) == {Null, S};
    assert U in s.mask;
    assert !Compatible(s.mask, s.counts, Null, U);
  }

  /** Holder 0 converts: it must let the waiting one go first, and sleeps too. */
  lemma {:induction false} AsksToConvert(s: State)
    requires OnlyHeld(s, map[0 := U], U) && s.waitCount == 1 && s.waiters == map[1 := Waiter(Null, U, 0, 0)]
    requires s.wait == 0 && s.asked == []
    ensures Enabled(s, Request(0, U, X))
    ensures Do(s, Request(0, U, X)) == s.(waitCount := 2, wait := 1, asked := [0],
                                          waiters := map[1 := Waiter(Null, U, 0, 0), 0 := Waiter(U, X, 0, 0)])
  {
    assert Convert(X, U) == X;
  }

  /** It wakes first, and passes. */
  lemma {:induction false} Converts(s: State)
    requires OnlyHeld(s, map[0 := U], U) && s.waitCount == 2 && s.wake == 0 && s.served == []
    requires s.waiters == map[1 := Waiter(Null, U, 0, 0), 0 := Waiter(U, X, 0, 0)]
    ensures Enabled(s, Recheck(0))
    ensures var t := Do(s, Recheck(0));
      OnlyHeld(t, map[0 := X], X) && t.waiters == map[1 := Waiter(Null, U, 0, 0)]
      && |t.served| == 1 && t.asked == s.asked
  {
    var w := s.waiters[0];
    assert Compatible(s.mask, s.counts, U, X);
    var s1 := s.(waiters := map[1 := Waiter(Null, U, 0, 0)]);
    assert s.waiters - {0} == s1.waiters;
    var t := GiveUpPrior(s1, 0, w);
    assert OnlyHeld(t, map[], U) && Do(s, Recheck(0)) == Acquire(t, 0, X).(waitCount := 1);
  }

  lemma {:induction false} PassingIsLegal()
    ensures Legal(Passing()) && Passed(After(Passing()), 1) && |After(Passing()).asked| == 1
    ensures After(Passing()).held == map[] && After(Passing()).mask == {} && After(Passing()).waiters.Keys == {1}
  {
    var a := [Request(0, Null, U)];
    var b := a + [Request(1, Null, U)];
    var c := b + [Request(0, U, X)];
    var d := c + [Recheck(0)];
    TakesFree();
    RunGrows([], Request(0, Null, U));
    assert [] + a == a;
    AsksForTaken(After(a));
    RunGrows(a, Request(1, Null, U));
    AsksToConvert(After(b));
    RunGrows(b, Request(0, U, X));
    Converts(After(c));
    RunGrows(c, Recheck(0));
    Frees(After(d));
    RunGrows(d, Up(0));
  }

  /** The lock is free, nobody holds it, and still holder 1 will sleep for ever. */
  lemma {:induction false} PassingIsReachable(run: seq<Step>)
    requires run == Passing()
    ensures Legal(run) && Passed(After(run), 1) && Starves(run, 1)
    ensures After(run).held == map[] && After(run).mask == {} && After(run).waiters.Keys == {1}
  {
    PassingIsLegal();
    StarvesIff(run, 1);
  }

  lemma {:induction false} TakesFree()
    ensures Enabled(Init(), Request(0, Null, U))
    ensures var s := Do(Init(), Request(0, Null, U));
      && OnlyHeld(s, map[0 := U], U) && s.waitCount == 0 && s.waiters == map[] && s.wait == 0 && s.wake == 0
      && s.asked == [] && s.served == []
  {
    assert Convert(U, Null) == U;
  }

  lemma {:induction false} Frees(s: State)
    requires OnlyHeld(s, map[0 := X], X) && 0 !in s.waiters
    ensures Enabled(s, Up(0))
    ensures var t := Do(s, Up(0));
      t.held == map[] && t.mask == {} && t.waiters == s.waiters && t.served == s.served && t.asked == s.asked
  {
  }

  // ---------------------------------------------------------------- blocked

  /** Two holders of S both convert to X: each waits for the other's S. */
  function Deadlock(): seq<Step> {
    Shared() + [Request(0, S, X)] + [Request(1, S, X)]
  }

  function Shared(): seq<Step> {
    [Request(0, Null, S)] + [Request(1, Null, S)]
  }

  /** The first n holders hold S. */
  ghost predicate BothHold(s: State, n: nat) {
    && AllModes(s.counts) && (forall m: Mode :: s.counts[m] == if m == S then n else 0)
    && s.mask == (if n == 0 then {} else {S}) && (forall h: Holder :: h in s.held <==> h < n)
    && (forall h :: h in s.held ==> s.held[h] == S)
  }

  lemma {:induction false} TakesS(s: State, n: nat)
    requires BothHold(s, n) && n < 2 && s.waitCount == 0 && s.wait == s.wake && s.waiters == map[]
    ensures Enabled(s, Request(n, Null, S))
    ensures var r := Do(s, Request(n, Null, S));
      && BothHold(r, n + 1) && r.waitCount == 0 && r.waiters == map[]
      && r.wait == s.wait && r.wake == s.wake && r.asked == s.asked && r.served == s.served
  {
    assert Convert(S, Null) == S;
    assert Compatible(s.mask, s.counts, Null, S);
  }

  lemma {:induction false} WantsX(s: State, h: Holder)
    requires BothHold(s, 2) && h < 2 && h !in s.waiters && s.waitCount == h
    ensures Enabled(s, Request(h, S, X))
    ensures var r := Do(s, Request(h, S, X));
      && BothHold(r, 2) && r.waitCount == h + 1 && r.waiters == s.waiters[h := Waiter(S, X, s.wait, |s.asked|)]
      && r.asked == s.asked + [h] && r.served == s.served
  {
    assert Convert(X, S) == X && CompatSet(X) == {Null};
    assert S in s.mask;
    assert !Compatible(s.mask, s.counts, S, X);
  }

  lemma {:induction false} SharedIsLegal()
    ensures Legal(Shared()) && Sharing(After(Shared()))
  {
    var a := [Request(0, Null, S)];
    TakesS(Init(), 0);
    RunGrows([], Request(0, Null, S));
    assert [] + a == a;
    TakesS(After(a), 1);
    RunGrows(a, Request(1, Null, S));
  }

  ghost predicate Sharing(s: State) {
    && BothHold(s, 2) && s.waitCount == 0 && s.waiters == map[] && s.wait == 0 == s.wake
    && s.asked == [] && s.served == []
  }

  lemma {:induction false} BothConvert(run: seq<Step>, all: seq<Step>)
    requires Legal(run) && Sharing(After(run)) && all == run + [Request(0, S, X)] + [Request(1, S, X)]
    ensures Legal(all) && After(all).asked == [0, 1] && After(all).served == []
    ensures After(all).waiters == map[0 := Waiter(S, X, 0, 0), 1 := Waiter(S, X, 1, 1)]
  {
    WantsX(After(run), 0);
    RunGrows(run, Request(0, S, X));
    WantsX(After(run + [Request(0, S, X)]), 1);
    RunGrows(run + [Request(0, S, X)], Request(1, S, X));
  }

  /** Nobody was passed, and still neither will ever get through. */
  lemma {:induction false} DeadlockIsReachable(run: seq<Step>, h: Holder)
    requires run == Deadlock() && h < 2
    ensures Legal(run) && h in After(run).waiters && !Passed(After(run), h) && Starves(run, h)
  {
    SharedIsLegal();
    BothConvert(Shared(), run);
    var s := After(run);
    assert CompatSet(X) == {Null};
    assert Ahead(s, 0, h) && Blocks(s, 0, 1);
    StarvesIff(run, h);
  }
}
