/** Runs that end where the lock does not do what it is for. */
module SixLockWitnesses {
  import opened Machine
  import opened SixLockTables
  import opened SixLockProtocol
  import opened SixLockRuns

  // ---------------------------------------------------------------- a full lock count

  /** n holders ask for IS, one after the other. */
  function Sharing(n: nat): seq<Step> {
    if n == 0 then [] else Sharing(n - 1) + [Request(n - 1, Null, IS)]
  }

  /** Holders 0 to n - 1 hold IS and nobody waits. */
  ghost predicate Shared(s: State, n: nat) {
    && AllModes(s.counts) && (forall m: Mode :: s.counts[m] == if m == IS then n else 0)
    && s.mask == (if n == 0 then {} else {IS})
    && s.waitCount == 0 && s.wait == s.wake && s.waiters == map[]
    && forall h: Holder :: h in s.held <==> h < n
  }

  lemma {:induction false} SharingGoesOn(s: State, n: nat)
    requires Shared(s, n) && n < 0xFFFF
    ensures Enabled(s, Request(n, Null, IS)) && Shared(Do(s, Request(n, Null, IS)), n + 1)
  {
    var step := Request(n, Null, IS);
    var w := NewWaiter(s, Null, IS);
    assert Convert(IS, Null) == IS;
    var s1 := Enter(s, n, Null);
    assert Compatible(s1.mask, s1.counts, Null, IS);
    assert Do(s, step) == Grant(s1, n, w);
  }

  ghost predicate SharedAfter(run: seq<Step>, n: nat) {
    Legal(run) && Shared(After(run), n)
  }

  lemma {:induction false} SharingNext(run: seq<Step>, n: nat, all: seq<Step>, m: nat)
    requires SharedAfter(run, n) && n < 0xFFFF && all == run + [Request(n, Null, IS)] && m == n + 1
    ensures SharedAfter(all, m)
  {
    SharingGoesOn(After(run), n);
    RunGrows(run, Request(n, Null, IS));
  }

  lemma {:induction false} NobodyShares()
    ensures SharedAfter([], 0)
  {
    assert After([]) == Init();
  }

  lemma {:induction false} SharingIsLegal(n: nat)
    requires n <= 0xFFFF
    ensures SharedAfter(Sharing(n), n)
  {
    if n == 0 {
      NobodyShares();
    } else {
      SharingIsLegal(n - 1);
      SharingNext(Sharing(n - 1), n - 1, Sharing(n), n);
    }
  }

  /** The request after the 65535th meets a full count: it is lost, nobody waits, and wait_count says that one does. */
  lemma {:induction false} OverflowIsReachable(n: nat)
    requires n == 0xFFFF
    ensures var step := Request(n, Null, IS);
            var run := Sharing(n) + [step];
      && Legal(Sharing(n)) && Enabled(After(Sharing(n)), step) && Overflows(After(Sharing(n)), step)
      && Legal(run) && After(run).waiters == map[] && After(run).waitCount == 1
  {
    SharingIsLegal(n);
    var s, step := After(Sharing(n)), Request(n, Null, IS);
    assert Convert(IS, Null) == IS;
    assert Compatible(s.mask, s.counts, Null, IS);
    RunGrows(Sharing(n), step);
  }

  // ---------------------------------------------------------------- serials that wrap

  /** Holders 0 and 1 take IS, and holder 0 converts it to IS n times. */
  function Converting0(n: nat): seq<Step> {
    if n == 0 then [Request(0, Null, IS), Request(1, Null, IS)] else Converting0(n - 1) + [Request(0, IS, IS)]
  }

  /** Holders 0 and 1 hold IS, nobody waits, and n conversions are done. */
  ghost predicate Converted(s: State, n: nat) {
    && AllModes(s.counts) && (forall m: Mode :: s.counts[m] == if m == IS then 2 else 0)
    && s.mask == {IS} && s.waitCount == 0 && s.waiters == map[] && s.held == map[0 := IS, 1 := IS]
    && s.wait == Serial(n) && s.wake == Serial(n) && |s.asked| == n && |s.served| == n
  }

  lemma {:induction false} ConvertingGoesOn(s: State, n: nat)
    requires Converted(s, n)
    ensures Enabled(s, Request(0, IS, IS)) && Converted(Do(s, Request(0, IS, IS)), n + 1)
  {
    var w := NewWaiter(s, IS, IS);
    assert Convert(IS, IS) == IS;
    var s1 := Enter(s, 0, IS);
    assert Compatible(s1.mask, s1.counts, IS, IS);
    var r := Grant(s1, 0, w);
    assert Do(s, Request(0, IS, IS)) == r;
    assert r.held == s.held;
  }

  lemma {:induction false} TwoSharers()
    ensures Legal(Converting0(0)) && Converted(After(Converting0(0)), 0)
  {
    var run := [Request(0, Null, IS)];
    SharingIsLegal(0);
    SharingGoesOn(Init(), 0);
    RunGrows([], Request(0, Null, IS));
    assert [] + [Request(0, Null, IS)] == run;
    SharingGoesOn(After(run), 1);
    RunGrows(run, Request(1, Null, IS));
    assert run + [Request(1, Null, IS)] == Converting0(0);
  }

  lemma {:induction false} ConvertingNext(run: seq<Step>, n: nat)
    requires Legal(run) && Converted(After(run), n)
    ensures Legal(run + [Request(0, IS, IS)]) && Converted(After(run + [Request(0, IS, IS)]), n + 1)
  {
    ConvertingGoesOn(After(run), n);
    RunGrows(run, Request(0, IS, IS));
  }

  lemma {:induction false} ConvertingIsLegal(n: nat)
    ensures Legal(Converting0(n)) && Converted(After(Converting0(n)), n)
  {
    if n == 0 {
      TwoSharers();
    } else {
      ConvertingIsLegal(n - 1);
      ConvertingNext(Converting0(n - 1), n - 1);
    }
  }

  /** Holder 0 asks for X and must wait for holder 1; holder 1 converts, and its serial is the first after the wrap. */
  function Overtaking(n: nat): seq<Step> {
    Converting0(n) + [Request(0, IS, X)] + [Request(1, IS, IS)]
  }

  ghost predicate Overtaken(s: State, n: nat) {
    && AllModes(s.counts) && (forall m: Mode :: s.counts[m] == if m == IS then 2 else 0)
    && s.mask == {IS} && s.held == map[0 := IS, 1 := IS]
    && s.waiters == map[0 := Waiter(IS, X, Serial(n), n), 1 := Waiter(IS, IS, Serial(n + 1), n + 1)]
    && s.wake == Serial(n) && |s.served| == n
  }

  lemma {:induction false} BothWait(s: State, n: nat)
    requires Converted(s, n)
    ensures Enabled(s, Request(0, IS, X))
    ensures var t := Do(s, Request(0, IS, X));
      Enabled(t, Request(1, IS, IS)) && Overtaken(Do(t, Request(1, IS, IS)), n)
  {
    assert Convert(X, IS) == X && Convert(IS, IS) == IS;
    var s1 := Enter(s, 0, IS);
    assert !Compatible(s1.mask, s1.counts, IS, X);
    var t := Do(s, Request(0, IS, X));
    assert t == s1.(waiters := s.waiters[0 := NewWaiter(s, IS, X)]);
    var t1 := Enter(t, 1, IS);
    assert Do(t, Request(1, IS, IS)) == t1.(waiters := t.waiters[1 := NewWaiter(t, IS, IS)]);
  }

  /**
   The bound of the order results is needed: once the serials wrap, a conversion is let through though
   the one asked for before it is still pending.
   */
  lemma {:induction false} OvertakingIsReachable(n: nat)
    requires n + 1 == U64
    ensures Legal(Overtaking(n)) && Enabled(After(Overtaking(n)), Recheck(1))
    ensures var s := After(Overtaking(n));
      1 in s.waiters && LetsThrough(s, Recheck(1), 1, s.waiters[1]) && !(s.waiters[1].ticket <= |s.served|)
  {
    ConvertingIsLegal(n);
    var run := Converting0(n);
    BothWait(After(run), n);
    RunGrows(run, Request(0, IS, X));
    RunGrows(run + [Request(0, IS, X)], Request(1, IS, IS));
    var s := After(Overtaking(n));
    SerialIsRemainder(n);
    SerialIsRemainder(n + 1);
    assert SerialCompare(Serial(n + 1), Serial(n)) == 1;
    assert Compatible(s.mask, s.counts, IS, IS);
  }
}
