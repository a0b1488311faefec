/**
 The lock-free push / take-all list.  Any number of threads push, splice and walk what they spliced;
 each load, store and compare-exchange on shared memory is a step of its own, interleaved arbitrarily.
 Memory is sequentially consistent.
 */
module AtomicList {
  import opened Sequences

  type Entry = nat
  type Thread = nat

  datatype Ptr = Nil | To(e: Entry)

  /**
   Where a thread is: before the load, the link or the compare-exchange of fusion_atomic_list_add;
   or in the for-each walk over a spliced list, about to move to n or in the body for pos with n
   already fetched.  A walk also records which splice it walks and the entries it has still to reach.
   */
  datatype Pc =
    | Load(entry: Entry)
    | Link(entry: Entry, cur: Ptr)
    | Cas(entry: Entry, cur: Ptr)
    | Move(n: Ptr, splice: nat, rest: seq<Entry>)
    | Body(pos: Entry, n: Ptr, splice: nat, rest: seq<Entry>)

  /**
   `head` and `next` are the shared memory.  The rest is history: the entries now on the list, newest
   first; every successful push in order; the entries each splice took; and the entries each walk has
   handed to its body.
   */
  datatype State = State(
    head: Ptr,
    next: map<Entry, Ptr>,
    pcs: map<Thread, Pc>,
    stack: seq<Entry>,
    pushed: seq<Entry>,
    splices: seq<seq<Entry>>,
    seen: map<nat, seq<Entry>>)

  function Init(): State {
    State(Nil, map[], map[], [], [], [], map[])
  }

  datatype Step =
    | Begin(t: Thread, entry: Entry)
    | Splice(t: Thread)
    | Run(t: Thread)

  /** The entries a thread alone may touch. */
  function Owns(pc: Pc): seq<Entry> {
    match pc
    case Move(_, _, rest) => rest
    case Body(pos, _, _, rest) => [pos] + rest
    case _ => [pc.entry]
  }

  /** On no list, not being pushed, not still to be walked: what a caller must ensure before a push. */
  ghost predicate Free(s: State, e: Entry) {
    e !in s.stack && forall t :: t in s.pcs ==> e !in Owns(s.pcs[t])
  }

  ghost predicate Enabled(s: State, step: Step) {
    match step
    case Begin(t, e) => t !in s.pcs && Free(s, e)
    case Splice(t) => t !in s.pcs
    case Run(t) => t in s.pcs
  }

  function LinkOf(next: map<Entry, Ptr>, e: Entry): Ptr {
    if e in next then next[e] else Nil
  }

  function Seen(s: State, b: nat): seq<Entry> {
    if b in s.seen then s.seen[b] else []
  }

  /** One step of a running thread. */
  function RunPc(s: State, t: Thread, pc: Pc): State {
    match pc
    case Load(e) => s.(pcs := s.pcs[t := Link(e, s.head)])
    case Link(e, cur) => s.(next := s.next[e := cur], pcs := s.pcs[t := Cas(e, cur)])
    case Cas(e, cur) =>
      if s.head == cur
      then s.(head := To(e), pcs := s.pcs - {t}, stack := [e] + s.stack, pushed := s.pushed + [e])
      else s.(pcs := s.pcs[t := Load(e)])
    case Move(Nil, _, _) => s.(pcs := s.pcs - {t})
    case Move(To(e), b, rest) =>
      s.(pcs := s.pcs[t := Body(e, LinkOf(s.next, e), b, if rest == [] then [] else rest[1..])])
    case Body(e, n, b, rest) => s.(pcs := s.pcs[t := Move(n, b, rest)], seen := s.seen[b := Seen(s, b) + [e]])
  }

  ghost function Do(s: State, step: Step): State
    requires Enabled(s, step)
  {
    match step
    case Begin(t, e) => s.(pcs := s.pcs[t := Load(e)])
    case Splice(t) =>
      s.(head := Nil, pcs := s.pcs[t := Move(s.head, |s.splices|, s.stack)], stack := [],
         splices := s.splices + [s.stack])
    case Run(t) => RunPc(s, t, s.pcs[t])
  }

  // ---------------------------------------------------------------- the invariant

  /** Following the links from p visits exactly xs and then ends. */
  ghost predicate Chain(next: map<Entry, Ptr>, p: Ptr, xs: seq<Entry>)
    decreases xs
  {
    if xs == [] then p == Nil
    else p == To(xs[0]) && xs[0] in next && Chain(next, next[xs[0]], xs[1..])
  }

  ghost predicate PcOk(next: map<Entry, Ptr>, pc: Pc) {
    && NoDup(Owns(pc))
    && (pc.Cas? ==> pc.entry in next && next[pc.entry] == pc.cur)
    && (pc.Move? ==> Chain(next, pc.n, pc.rest))
    && (pc.Body? ==> Chain(next, pc.n, pc.rest))
  }

  /** Every entry has one owner: the list, or one thread. */
  ghost predicate Apart(stack: seq<Entry>, pcs: map<Thread, Pc>) {
    && NoDup(stack)
    && (forall t, e :: t in pcs && e in Owns(pcs[t]) ==> e !in stack)
    && (forall t, u, e :: t in pcs && u in pcs && t != u && e in Owns(pcs[t]) ==> e !in Owns(pcs[u]))
  }

  ghost predicate PcsOk(next: map<Entry, Ptr>, pcs: map<Thread, Pc>) {
    forall t :: t in pcs ==> PcOk(next, pcs[t])
  }

  ghost predicate Shape(s: State) {
    Chain(s.next, s.head, s.stack) && PcsOk(s.next, s.pcs) && Apart(s.stack, s.pcs)
  }

  function Reversed(xs: seq<Entry>): (r: seq<Entry>)
    ensures |r| == |xs|
  {
    if xs == [] then [] else Reversed(xs[1..]) + [xs[0]]
  }

  /** All splices, each turned back into push order. */
  function InPushOrder(splices: seq<seq<Entry>>): seq<Entry> {
    if splices == [] then []
    else InPushOrder(splices[..|splices| - 1]) + Reversed(splices[|splices| - 1])
  }

  /** Nothing pushed is lost, duplicated or reordered. */
  ghost predicate Conserved(s: State) {
    s.pushed == InPushOrder(s.splices) + Reversed(s.stack)
  }

  /** Thread t walks splice b. */
  predicate Walker(pcs: map<Thread, Pc>, t: Thread, b: nat) {
    t in pcs && (pcs[t].Move? || pcs[t].Body?) && pcs[t].splice == b
  }

  /** A splice being walked has been seen up to where its only walker is; any other was seen whole. */
  ghost predicate Walked(s: State) {
    && (forall t, b: nat :: Walker(s.pcs, t, b) ==>
          b < |s.splices| && Seen(s, b) + Owns(s.pcs[t]) == s.splices[b])
    && (forall t, u, b: nat :: Walker(s.pcs, t, b) && Walker(s.pcs, u, b) ==> t == u)
    && (forall b: nat :: b < |s.splices| ==> Seen(s, b) == s.splices[b] || exists t :: Walker(s.pcs, t, b))
    && (forall b :: b in s.seen ==> b < |s.splices|)
  }

  ghost predicate Inv(s: State) {
    Shape(s) && Conserved(s) && Walked(s)
  }

  // ---------------------------------------------------------------- frames

  lemma {:induction false} ChainFrame(next: map<Entry, Ptr>, e: Entry, x: Ptr, p: Ptr, xs: seq<Entry>)
    requires Chain(next, p, xs) && e !in xs
    ensures Chain(next[e := x], p, xs)
    decreases xs
  {
    if xs != [] {
      ChainFrame(next, e, x, next[xs[0]], xs[1..]);
    }
  }

  /** Linking an entry that only t owns disturbs no chain. */
  lemma {:induction false} LinkKeepsOthers(next: map<Entry, Ptr>, pcs: map<Thread, Pc>, t: Thread, e: Entry, x: Ptr)
    requires PcsOk(next, pcs)
    requires forall u :: u in pcs && u != t ==> e !in Owns(pcs[u])
    ensures PcsOk(next[e := x], pcs - {t})
  {
    forall u | u in pcs && u != t
      ensures PcOk(next[e := x], pcs[u])
    {
      assert PcOk(next, pcs[u]);
      match pcs[u]
      case Move(n, _, rest) => ChainFrame(next, e, x, n, rest);
      case Body(pos, n, _, rest) =>
        assert forall y :: y in rest ==> y in Owns(pcs[u]);
        ChainFrame(next, e, x, n, rest);
      case _ => assert pcs[u].entry in Owns(pcs[u]);
    }
  }

  lemma {:induction false} FewerApart(stack: seq<Entry>, pcs: map<Thread, Pc>, t: Thread)
    requires Apart(stack, pcs)
    ensures Apart(stack, pcs - {t})
  {
  }

  /** Thread t may own anything that nobody else owns. */
  lemma {:induction false} OwnMore(stack: seq<Entry>, pcs: map<Thread, Pc>, t: Thread, pc: Pc)
    requires Apart(stack, pcs - {t})
    requires forall e :: e in Owns(pc) ==> e !in stack
    requires forall u, e :: u in pcs && u != t && e in Owns(pcs[u]) ==> e !in Owns(pc)
    ensures Apart(stack, pcs[t := pc])
  {
    var pcs' := pcs[t := pc];
    forall u, v, e | u in pcs' && v in pcs' && u != v && e in Owns(pcs'[u])
      ensures e !in Owns(pcs'[v])
    {
      assert u != t ==> u in pcs - {t} && (pcs - {t})[u] == pcs'[u];
      assert v != t ==> v in pcs - {t} && (pcs - {t})[v] == pcs'[v];
    }
    assert forall u :: u in pcs' && u != t ==> u in pcs - {t} && (pcs - {t})[u] == pcs'[u];
  }

  /** Thread t moves on and owns no more than before. */
  lemma {:induction false} OwnLess(stack: seq<Entry>, pcs: map<Thread, Pc>, t: Thread, pc: Pc)
    requires Apart(stack, pcs) && t in pcs
    requires forall e :: e in Owns(pc) ==> e in Owns(pcs[t])
    ensures Apart(stack, pcs[t := pc])
  {
    FewerApart(stack, pcs, t);
    OwnMore(stack, pcs, t, pc);
  }

  lemma {:induction false} SetPc(next: map<Entry, Ptr>, pcs: map<Thread, Pc>, t: Thread, pc: Pc)
    requires PcsOk(next, pcs - {t}) && PcOk(next, pc)
    ensures PcsOk(next, pcs[t := pc])
  {
    var pcs' := pcs[t := pc];
    forall u | u in pcs'
      ensures PcOk(next, pcs'[u])
    {
      if u != t {
        assert u in pcs - {t};
        assert PcOk(next, (pcs - {t})[u]);
      }
    }
  }

  // ---------------------------------------------------------------- every step

  lemma {:induction false} BeginKeepsShape(s: State, t: Thread, e: Entry)
    requires Shape(s) && Enabled(s, Begin(t, e))
    ensures Shape(Do(s, Begin(t, e)))
  {
    FewerApart(s.stack, s.pcs, t);
    OwnMore(s.stack, s.pcs, t, Load(e));
    SetPc(s.next, s.pcs, t, Load(e));
  }

  lemma {:induction false} SpliceKeepsShape(s: State, t: Thread)
    requires Shape(s) && Enabled(s, Splice(t))
    ensures Shape(Do(s, Splice(t)))
  {
    var pc := Move(s.head, |s.splices|, s.stack);
    assert Apart([], s.pcs - {t});
    OwnMore([], s.pcs, t, pc);
    SetPc(s.next, s.pcs, t, pc);
  }

  lemma {:induction false} LinkKeepsShape(s: State, t: Thread)
    requires Shape(s) && t in s.pcs && s.pcs[t].Link?
    ensures Shape(Do(s, Run(t)))
  {
    var e, cur := s.pcs[t].entry, s.pcs[t].cur;
    assert e in Owns(s.pcs[t]);
    ChainFrame(s.next, e, cur, s.head, s.stack);
    LinkKeepsOthers(s.next, s.pcs, t, e, cur);
    SetPc(s.next[e := cur], s.pcs, t, Cas(e, cur));
    OwnLess(s.stack, s.pcs, t, Cas(e, cur));
  }

  lemma {:induction false} PushApart(stack: seq<Entry>, pcs: map<Thread, Pc>, t: Thread, e: Entry)
    requires Apart(stack, pcs) && t in pcs && Owns(pcs[t]) == [e]
    ensures Apart([e] + stack, pcs - {t})
  {
    assert e in Owns(pcs[t]);
    var stack' := [e] + stack;
    assert forall i :: 0 < i < |stack'| ==> stack'[i] == stack[i - 1] && stack[i - 1] in stack;
    assert forall u, x :: u in pcs - {t} && x in Owns(pcs[u]) ==> x != e && x !in stack;
  }

  lemma {:induction false} CasKeepsShape(s: State, t: Thread)
    requires Shape(s) && t in s.pcs && s.pcs[t].Cas?
    ensures Shape(Do(s, Run(t)))
  {
    var e := s.pcs[t].entry;
    assert PcOk(s.next, s.pcs[t]);
    if s.head == s.pcs[t].cur {
      assert ([e] + s.stack)[1..] == s.stack;
      PushApart(s.stack, s.pcs, t, e);
    } else {
      SetPc(s.next, s.pcs, t, Load(e));
      OwnLess(s.stack, s.pcs, t, Load(e));
    }
  }

  lemma {:induction false} LoadKeepsShape(s: State, t: Thread)
    requires Shape(s) && t in s.pcs && s.pcs[t].Load?
    ensures Shape(Do(s, Run(t)))
  {
    SetPc(s.next, s.pcs, t, Link(s.pcs[t].entry, s.head));
    OwnLess(s.stack, s.pcs, t, Link(s.pcs[t].entry, s.head));
  }

  lemma {:induction false} MoveKeepsShape(s: State, t: Thread)
    requires Shape(s) && t in s.pcs && s.pcs[t].Move?
    ensures Shape(Do(s, Run(t)))
  {
    assert PcOk(s.next, s.pcs[t]);
    match s.pcs[t]
    case Move(Nil, _, _) => FewerApart(s.stack, s.pcs, t);
    case Move(To(e), b, rest) =>
      var pc := Body(e, LinkOf(s.next, e), b, rest[1..]);
      assert Owns(pc) == rest;
      SetPc(s.next, s.pcs, t, pc);
      OwnLess(s.stack, s.pcs, t, pc);
  }

  lemma {:induction false} BodyKeepsShape(s: State, t: Thread)
    requires Shape(s) && t in s.pcs && s.pcs[t].Body?
    ensures Shape(Do(s, Run(t)))
  {
    assert PcOk(s.next, s.pcs[t]);
    var pc := Move(s.pcs[t].n, s.pcs[t].splice, s.pcs[t].rest);
    assert forall i :: 0 <= i < |pc.rest| ==> pc.rest[i] == Owns(s.pcs[t])[i + 1];
    SetPc(s.next, s.pcs, t, pc);
    OwnLess(s.stack, s.pcs, t, pc);
  }

  lemma {:induction false} StepKeepsShape(s: State, step: Step)
    requires Shape(s) && Enabled(s, step)
    ensures Shape(Do(s, step))
  {
    match step
    case Begin(t, e) => BeginKeepsShape(s, t, e);
    case Splice(t) => SpliceKeepsShape(s, t);
    case Run(t) =>
      match s.pcs[t]
      case Load(_) => LoadKeepsShape(s, t);
      case Link(_, _) => LinkKeepsShape(s, t);
      case Cas(_, _) => CasKeepsShape(s, t);
      case Move(_, _, _) => MoveKeepsShape(s, t);
      case Body(_, _, _, _) => BodyKeepsShape(s, t);
  }

  // ---------------------------------------------------------------- conservation and the walks

  lemma {:induction false} ReversedPush(e: Entry, xs: seq<Entry>)
    ensures Reversed([e] + xs) == Reversed(xs) + [e]
  {
    assert ([e] + xs)[1..] == xs;
  }

  lemma {:induction false} InPushOrderMore(splices: seq<seq<Entry>>, stack: seq<Entry>)
    ensures InPushOrder(splices + [stack]) == InPushOrder(splices) + Reversed(stack)
  {
    assert (splices + [stack])[..|splices|] == splices;
  }

  /** What a running thread does to the history: a compare-exchange that succeeds pushes, nothing else does. */
  lemma {:induction false} RunLogs(s: State, t: Thread, pc: Pc)
    ensures var r := RunPc(s, t, pc);
      && r.splices == s.splices
      && (if pc.Cas? && s.head == pc.cur then r.stack == [pc.entry] + s.stack && r.pushed == s.pushed + [pc.entry]
          else r.stack == s.stack && r.pushed == s.pushed)
  {
    match pc
    case Move(To(e), b, rest) =>
    case _ =>
  }

  lemma {:induction false} RunKeepsConserved(s: State, t: Thread, pc: Pc)
    requires Conserved(s)
    ensures Conserved(RunPc(s, t, pc))
  {
    RunLogs(s, t, pc);
    if pc.Cas? {
      ReversedPush(pc.entry, s.stack);
      assert InPushOrder(s.splices) + (Reversed(s.stack) + [pc.entry]) == s.pushed + [pc.entry];
    }
  }

  lemma {:induction false} StepKeepsConserved(s: State, step: Step)
    requires Conserved(s) && Enabled(s, step)
    ensures Conserved(Do(s, step))
  {
    match step
    case Begin(_, _) =>
    case Splice(_) =>
      InPushOrderMore(s.splices, s.stack);
    case Run(t) =>
      RunKeepsConserved(s, t, s.pcs[t]);
  }

  lemma {:induction false} SamePcs(a: map<Thread, Pc>, b: map<Thread, Pc>, t: Thread)
    requires a - {t} == b - {t}
    ensures forall u :: u != t ==> (u in a <==> u in b) && (u in a ==> a[u] == b[u])
    ensures forall u, k: nat :: u != t ==> (Walker(a, u, k) <==> Walker(b, u, k))
  {
    forall u | u != t
      ensures (u in a <==> u in b) && (u in a ==> a[u] == b[u])
    {
      assert u in a <==> u in a - {t};
      assert u in b <==> u in b - {t};
      assert u in a ==> a[u] == (a - {t})[u];
      assert u in b ==> b[u] == (b - {t})[u];
    }
  }

  /** What a state says about splice b, given how its walkers compare with another state's. */
  lemma {:induction false} SpliceStays(s: State, r: State, b: nat)
    requires Walked(s) && b < |s.splices| && b < |r.splices| && r.splices[b] == s.splices[b]
    requires Seen(r, b) == Seen(s, b)
    requires forall u :: Walker(s.pcs, u, b) ==> Walker(r.pcs, u, b)
    ensures Seen(r, b) == r.splices[b] || exists u :: Walker(r.pcs, u, b)
  {
    if Seen(s, b) != s.splices[b] {
      var u :| Walker(s.pcs, u, b);
      assert Walker(r.pcs, u, b);
    }
  }

  /** A step by a thread that walks nothing before or after it. */
  lemma {:induction false} OtherStepKeepsWalked(s: State, t: Thread, r: State)
    requires Walked(s)
    requires forall b: nat :: !Walker(s.pcs, t, b) && !Walker(r.pcs, t, b)
    requires r.pcs - {t} == s.pcs - {t} && r.splices == s.splices && r.seen == s.seen
    ensures Walked(r)
  {
    SamePcs(s.pcs, r.pcs, t);
    assert forall u, b: nat :: Walker(r.pcs, u, b) <==> Walker(s.pcs, u, b);
    forall b: nat | b < |r.splices|
      ensures Seen(r, b) == r.splices[b] || exists u :: Walker(r.pcs, u, b)
    {
      SpliceStays(s, r, b);
    }
  }

  lemma {:induction false} SpliceKeepsWalked(s: State, t: Thread)
    requires Walked(s) && Enabled(s, Splice(t))
    ensures Walked(Do(s, Splice(t)))
  {
    var r := Do(s, Splice(t));
    assert r.pcs - {t} == s.pcs - {t};
    SamePcs(s.pcs, r.pcs, t);
    assert Walker(r.pcs, t, |s.splices|);
    assert forall b: nat :: !Walker(s.pcs, t, b);
    forall b: nat | b < |s.splices|
      ensures Seen(r, b) == r.splices[b] || exists u :: Walker(r.pcs, u, b)
    {
      SpliceStays(s, r, b);
    }
  }

  lemma {:induction false} WalkerStepKeepsWalked(s: State, t: Thread)
    requires Walked(s) && t in s.pcs && PcOk(s.next, s.pcs[t]) && (s.pcs[t].Move? || s.pcs[t].Body?)
    ensures Walked(Do(s, Run(t)))
  {
    var r := Do(s, Run(t));
    var k := s.pcs[t].splice;
    assert Walker(s.pcs, t, k);
    assert r.pcs - {t} == s.pcs - {t};
    SamePcs(s.pcs, r.pcs, t);
    StillToSee(s, t);
    assert forall u, b: nat :: Walker(r.pcs, u, b) ==> Walker(s.pcs, u, b);
    forall b: nat | b < |r.splices|
      ensures Seen(r, b) == r.splices[b] || exists u :: Walker(r.pcs, u, b)
    {
      if b == k {
        assert t in r.pcs ==> Walker(r.pcs, t, b);
      } else {
        assert !Walker(s.pcs, t, b);
        SpliceStays(s, r, b);
      }
    }
  }

  /** What a walker has seen and what it owns make up the same sequence before and after its step. */
  lemma {:induction false} StillToSee(s: State, t: Thread)
    requires t in s.pcs && PcOk(s.next, s.pcs[t]) && (s.pcs[t].Move? || s.pcs[t].Body?)
    ensures var r := RunPc(s, t, s.pcs[t]);
      var k := s.pcs[t].splice;
      && Seen(r, k) + (if t in r.pcs then Owns(r.pcs[t]) else []) == Seen(s, k) + Owns(s.pcs[t])
      && (t in r.pcs ==> Walker(r.pcs, t, k))
      && r.splices == s.splices && forall b: nat :: b != k ==> Seen(r, b) == Seen(s, b)
  {
  }

  lemma {:induction false} StepKeepsWalked(s: State, step: Step)
    requires Walked(s) && Enabled(s, step) && PcsOk(s.next, s.pcs)
    ensures Walked(Do(s, step))
  {
    var r := Do(s, step);
    assert step.Splice? || r.pcs - {step.t} == s.pcs - {step.t};
    match step
    case Begin(t, _) => OtherStepKeepsWalked(s, t, r);
    case Splice(t) => SpliceKeepsWalked(s, t);
    case Run(t) =>
      if s.pcs[t].Move? || s.pcs[t].Body? {
        WalkerStepKeepsWalked(s, t);
      } else {
        OtherStepKeepsWalked(s, t, r);
      }
  }

  // ---------------------------------------------------------------- runs

  ghost predicate Legal(steps: seq<Step>)
    decreases |steps|, 0
  {
    steps == [] || (
      var front := steps[..|steps| - 1];
      Legal(front) && Enabled(After(front), steps[|steps| - 1]))
  }

  /** The state after any interleaving of any number of threads. */
  ghost function After(steps: seq<Step>): State
    requires Legal(steps)
    decreases |steps|, 1
  {
    if steps == [] then Init() else Do(After(steps[..|steps| - 1]), steps[|steps| - 1])
  }

  lemma {:induction false} RunKeepsInv(steps: seq<Step>)
    requires Legal(steps)
    ensures Inv(After(steps))
  {
    if steps != [] {
      var s, step := After(steps[..|steps| - 1]), steps[|steps| - 1];
      RunKeepsInv(steps[..|steps| - 1]);
      StepKeepsShape(s, step);
      StepKeepsConserved(s, step);
      StepKeepsWalked(s, step);
    }
  }

  /** The shared list never grows a cycle: from its head the links visit distinct entries and end. */
  lemma {:induction false} ListStaysAcyclic(steps: seq<Step>)
    requires Legal(steps)
    ensures Chain(After(steps).next, After(steps).head, After(steps).stack) && NoDup(After(steps).stack)
  {
    RunKeepsInv(steps);
  }

  /**
   No push is lost and none is returned twice: the splices in order, each turned round, followed by what
   is found when the links are followed from the shared head, are exactly the successful pushes in order.
   */
  lemma {:induction false} NothingLostOrDuplicated(steps: seq<Step>)
    requires Legal(steps)
    ensures var s := After(steps);
      Chain(s.next, s.head, s.stack) && s.pushed == InPushOrder(s.splices) + Reversed(s.stack)
  {
    RunKeepsInv(steps);
  }

  /**
   Each splice is one stretch of the pushes, newest first: entry i of splice b is the push that many
   places before the end of its stretch.
   */
  lemma {:induction false} SpliceIsNewestFirst(steps: seq<Step>, b: nat, i: nat)
    requires Legal(steps) && b < |After(steps).splices| && i < |After(steps).splices[b]|
    ensures Stretch(After(steps).splices, After(steps).pushed, b, i)
  {
    NothingLostOrDuplicated(steps);
    StretchOfSplice(After(steps).splices, After(steps).pushed, b, i);
  }

  ghost predicate Stretch(splices: seq<seq<Entry>>, pushed: seq<Entry>, b: nat, i: nat)
    requires b < |splices| && i < |splices[b]|
  {
    var end := |InPushOrder(splices[..b + 1])|;
    i < end <= |pushed| && splices[b][i] == pushed[end - 1 - i]
  }

  lemma {:induction false} StretchOfSplice(splices: seq<seq<Entry>>, pushed: seq<Entry>, b: nat, i: nat)
    requires b < |splices| && i < |splices[b]|
    requires InPushOrder(splices) <= pushed
    ensures Stretch(splices, pushed, b, i)
  {
    var upTo := splices[..b + 1];
    PushOrderPrefix(splices, b + 1);
    assert InPushOrder(upTo) == InPushOrder(upTo[..b]) + Reversed(splices[b]);
    ReversedAt(splices[b], i);
  }

  lemma {:induction false} ReversedAt(xs: seq<Entry>, i: nat)
    requires i < |xs|
    ensures Reversed(xs)[|xs| - 1 - i] == xs[i]
  {
    if i > 0 {
      ReversedAt(xs[1..], i - 1);
    }
  }

  lemma {:induction false} PushOrderPrefix(splices: seq<seq<Entry>>, b: nat)
    requires b <= |splices|
    ensures InPushOrder(splices[..b]) <= InPushOrder(splices)
  {
    if b == |splices| {
      assert splices[..b] == splices;
    } else {
      var front := splices[..|splices| - 1];
      PushOrderPrefix(front, b);
      assert front[..b] == splices[..b];
    }
  }

  /**
   Every walk hands the entries of its splice to the body in list order, none skipped, even though a
   body may push its entry again at once; and a walk that ended has handed over all of them.
   */
  lemma {:induction false} WalkSeesItsSplice(steps: seq<Step>, b: nat)
    requires Legal(steps) && b < |After(steps).splices|
    ensures Seen(After(steps), b) <= After(steps).splices[b]
    ensures (forall t :: !Walker(After(steps).pcs, t, b)) ==> Seen(After(steps), b) == After(steps).splices[b]
  {
    RunKeepsInv(steps);
    var s := After(steps);
    if t :| Walker(s.pcs, t, b) {
      assert Seen(s, b) + Owns(s.pcs[t]) == s.splices[b];
    }
  }

  // ---------------------------------------------------------------- pushes and walks get there

  /** On the way through a push. */
  predicate Pushes(pc: Pc) {
    pc.Load? || pc.Link? || pc.Cas?
  }

  /** A step of a push: the thread still pushes its entry and nothing was pushed, or it is done and its entry was. */
  lemma {:induction false} PushGoesOn(s: State, t: Thread)
    requires t in s.pcs && Pushes(s.pcs[t])
    ensures var r, e := Do(s, Run(t)), s.pcs[t].entry;
      && r.pcs - {t} == s.pcs - {t} && r.splices == s.splices
      && if t in r.pcs then Pushes(r.pcs[t]) && r.pcs[t].entry == e && r.stack == s.stack && r.pushed == s.pushed
         else r.stack == [e] + s.stack && r.pushed == s.pushed + [e]
  {
    RunLogs(s, t, s.pcs[t]);
  }

  /** The entries that threads are still pushing. */
  ghost function InPush(pcs: map<Thread, Pc>): set<Entry> {
    set t | t in pcs && Pushes(pcs[t]) :: pcs[t].entry
  }

  /** The entries of all pushes that were begun, in order. */
  function Begun(steps: seq<Step>): seq<Entry> {
    if steps == [] then []
    else Begun(steps[..|steps| - 1]) + match steps[|steps| - 1] case Begin(_, e) => [e] case _ => []
  }

  /** The accounts of pushes: what was begun is pushed or still being pushed. */
  ghost predicate Accounted(begun: seq<Entry>, s: State) {
    multiset(begun) == multiset(s.pushed) + multiset(InPush(s.pcs))
  }

  lemma {:induction false} InPushWithout(pcs: map<Thread, Pc>, stack: seq<Entry>, t: Thread)
    requires Apart(stack, pcs) && t in pcs
    ensures InPush(pcs - {t}) == InPush(pcs) - if Pushes(pcs[t]) then {pcs[t].entry} else {}
  {
    forall u | u in pcs && u != t && Pushes(pcs[u]) && Pushes(pcs[t])
      ensures pcs[u].entry != pcs[t].entry
    {
      assert pcs[u].entry in Owns(pcs[u]) && pcs[t].entry in Owns(pcs[t]);
    }
    forall e | e in InPush(pcs) && (Pushes(pcs[t]) ==> e != pcs[t].entry)
      ensures e in InPush(pcs - {t})
    {
      var u :| u in pcs && Pushes(pcs[u]) && pcs[u].entry == e;
      assert u in pcs - {t} && (pcs - {t})[u] == pcs[u];
    }
  }

  lemma {:induction false} InPushWith(pcs: map<Thread, Pc>, t: Thread, pc: Pc)
    requires t !in pcs
    ensures InPush(pcs[t := pc]) == InPush(pcs) + if Pushes(pc) then {pc.entry} else {}
  {
    forall e | e in InPush(pcs)
      ensures e in InPush(pcs[t := pc])
    {
      var u :| u in pcs && Pushes(pcs[u]) && pcs[u].entry == e;
      assert u in pcs[t := pc] && pcs[t := pc][u] == pcs[u];
    }
    assert t in pcs[t := pc] && pcs[t := pc][t] == pc;
  }

  lemma {:induction false} OneMore(a: set<Entry>, e: Entry)
    requires e !in a
    ensures multiset(a + {e}) == multiset(a) + multiset{e}
  {
  }

  /** What a step of thread t may change about the entries being pushed. */
  lemma {:induction false} InPushAfter(pcs: map<Thread, Pc>, pcs': map<Thread, Pc>, t: Thread)
    requires pcs' - {t} == pcs - {t}
    ensures InPush(pcs') == InPush(pcs - {t}) + if t in pcs' && Pushes(pcs'[t]) then {pcs'[t].entry} else {}
  {
    if t in pcs' {
      assert pcs' == (pcs - {t})[t := pcs'[t]];
      InPushWith(pcs - {t}, t, pcs'[t]);
    } else {
      assert pcs' == pcs - {t};
    }
  }

  lemma {:induction false} WalkGoesOn(s: State, t: Thread)
    requires t in s.pcs && !Pushes(s.pcs[t])
    ensures var r := Do(s, Run(t));
      && r.pcs - {t} == s.pcs - {t} && r.pushed == s.pushed && r.stack == s.stack && r.head == s.head
      && (t in r.pcs ==> !Pushes(r.pcs[t]))
  {
  }

  lemma {:induction false} PushKeepsAccounts(begun: seq<Entry>, s: State, t: Thread)
    requires Shape(s) && t in s.pcs && Pushes(s.pcs[t]) && Accounted(begun, s)
    ensures Accounted(begun, Do(s, Run(t)))
  {
    var r, rest, e := Do(s, Run(t)), InPush(s.pcs - {t}), s.pcs[t].entry;
    PushGoesOn(s, t);
    InPushWithout(s.pcs, s.stack, t);
    InPushAfter(s.pcs, r.pcs, t);
    assert e in InPush(s.pcs);
    assert InPush(s.pcs) == rest + {e};
    OneMore(rest, e);
    if t !in r.pcs {
      assert multiset(r.pushed) == multiset(s.pushed) + multiset{e};
      assert InPush(r.pcs) == rest;
    }
  }

  lemma {:induction false} WalkKeepsAccounts(begun: seq<Entry>, s: State, t: Thread)
    requires Shape(s) && t in s.pcs && !Pushes(s.pcs[t]) && Accounted(begun, s)
    ensures Accounted(begun, Do(s, Run(t)))
  {
    WalkGoesOn(s, t);
    InPushWithout(s.pcs, s.stack, t);
    InPushAfter(s.pcs, Do(s, Run(t)).pcs, t);
  }

  lemma {:induction false} StepKeepsAccounts(begun: seq<Entry>, s: State, step: Step)
    requires Shape(s) && Enabled(s, step) && Accounted(begun, s)
    ensures Accounted(begun + if step.Begin? then [step.entry] else [], Do(s, step))
  {
    match step
    case Begin(t, e) =>
      InPushWith(s.pcs, t, Load(e));
      forall u | u in s.pcs && Pushes(s.pcs[u])
        ensures s.pcs[u].entry != e
      {
        assert s.pcs[u].entry in Owns(s.pcs[u]);
      }
      OneMore(InPush(s.pcs), e);
    case Splice(t) =>
      InPushWith(s.pcs, t, Move(s.head, |s.splices|, s.stack));
      assert begun + [] == begun;
    case Run(t) =>
      assert begun + [] == begun;
      if Pushes(s.pcs[t]) {
        PushKeepsAccounts(begun, s, t);
      } else {
        WalkKeepsAccounts(begun, s, t);
      }
  }

  /** Every push that was begun got through, once, or is still on its way: none is dropped. */
  lemma {:induction false} EveryPushCounts(steps: seq<Step>)
    requires Legal(steps)
    ensures Accounted(Begun(steps), After(steps))
  {
    if steps != [] {
      var front := steps[..|steps| - 1];
      EveryPushCounts(front);
      RunKeepsInv(front);
      StepKeepsAccounts(Begun(front), After(front), steps[|steps| - 1]);
    }
  }

  /** The state after n steps of t, with no other thread in between. */
  ghost function Alone(s: State, t: Thread, n: nat): State
    decreases n
  {
    if n == 0 || t !in s.pcs then s else Alone(Do(s, Run(t)), t, n - 1)
  }

  /** Steps a push needs if nobody interferes: a head loaded long ago costs one more round. */
  function PushLeft(head: Ptr, pc: Pc): nat
    requires Pushes(pc)
  {
    match pc
    case Load(_) => 3
    case Link(_, cur) => if cur == head then 2 else 5
    case Cas(_, cur) => if cur == head then 1 else 4
  }

  /** Left alone, a push gets through, wherever it stood: after at most five steps. */
  lemma {:induction false} PushEnds(s: State, t: Thread, n: nat)
    requires t in s.pcs && Pushes(s.pcs[t]) && PushLeft(s.head, s.pcs[t]) <= n
    ensures var r := Alone(s, t, n);
      t !in r.pcs && r.stack == [s.pcs[t].entry] + s.stack && r.pushed == s.pushed + [s.pcs[t].entry]
    decreases n
  {
    var r := Do(s, Run(t));
    PushGoesOn(s, t);
    if t in r.pcs {
      assert PushLeft(r.head, r.pcs[t]) < PushLeft(s.head, s.pcs[t]);
      PushEnds(r, t, n - 1);
    }
  }

  function WalkLeft(pc: Pc): nat
    requires !Pushes(pc)
  {
    if pc.Move? then 2 * |pc.rest| + 1 else 2 * |pc.rest| + 2
  }

  /** Left alone, a walk ends, and has handed over all that was left of its splice. */
  lemma {:induction false} WalkEnds(s: State, t: Thread, n: nat)
    requires t in s.pcs && !Pushes(s.pcs[t]) && PcOk(s.next, s.pcs[t]) && WalkLeft(s.pcs[t]) <= n
    ensures var r, b := Alone(s, t, n), s.pcs[t].splice;
      t !in r.pcs && Seen(r, b) == Seen(s, b) + Owns(s.pcs[t])
    decreases n
  {
    var r := Do(s, Run(t));
    StillToSee(s, t);
    if t in r.pcs {
      WalkStepOk(s, t);
      WalkEnds(r, t, n - 1);
    }
  }

  lemma {:induction false} WalkStepOk(s: State, t: Thread)
    requires t in s.pcs && !Pushes(s.pcs[t]) && PcOk(s.next, s.pcs[t])
    ensures var r := Do(s, Run(t));
      t in r.pcs ==>
        && !Pushes(r.pcs[t]) && PcOk(r.next, r.pcs[t])
        && WalkLeft(r.pcs[t]) < WalkLeft(s.pcs[t]) && r.pcs[t].splice == s.pcs[t].splice
  {
    match s.pcs[t]
    case Move(To(e), b, rest) =>
      assert [e] + rest[1..] == rest;
    case Move(Nil, _, _) =>
    case Body(pos, n, b, rest) =>
      assert forall i :: 0 <= i < |rest| ==> rest[i] == Owns(s.pcs[t])[i + 1];
  }

  /** A splice takes the whole list, and its walk hands over all of it, newest first. */
  lemma {:induction false} SpliceTakesAll(steps: seq<Step>, t: Thread, n: nat)
    requires Legal(steps) && Enabled(After(steps), Splice(t)) && n == 2 * |After(steps).stack| + 1
    ensures var s := After(steps);
      var r := Do(s, Splice(t));
      r.head == Nil && r.stack == [] && Seen(Alone(r, t, n), |s.splices|) == s.stack && t !in Alone(r, t, n).pcs
  {
    var s := After(steps);
    var r := Do(s, Splice(t));
    RunKeepsInv(steps);
    SpliceKeepsShape(s, t);
    assert Chain(r.next, r.head, []);
    assert PcOk(r.next, r.pcs[t]);
    WalkEnds(r, t, n);
    assert Seen(r, |s.splices|) == [];
  }
}
