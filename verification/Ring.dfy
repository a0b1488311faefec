/** Intrusive circular lists: next and prev pointers rewritten in place. */
module Ring {
  import opened Sequences

  type Pointers = map<int, int>

  // ---------------------------------------------------------------- linked sequences

  /** The i-th and the next element of q point at each other. */
  ghost predicate PairAt(next: Pointers, prev: Pointers, q: seq<int>, i: nat)
    requires i + 1 < |q|
  {
    q[i] in next && next[q[i]] == q[i + 1] && q[i + 1] in prev && prev[q[i + 1]] == q[i]
  }

  ghost predicate Pairs(next: Pointers, prev: Pointers, q: seq<int>) {
    forall i :: 0 <= i < |q| - 1 ==> PairAt(next, prev, q, i)
  }

  ghost predicate Linked(next: Pointers, prev: Pointers, a: int, b: int) {
    a in next && next[a] == b && b in prev && prev[b] == a
  }

  ghost predicate SameAt(a: Pointers, b: Pointers, x: int) {
    (x in a <==> x in b) && (x in a ==> a[x] == b[x])
  }

  lemma {:induction false} PairsFrame(next: Pointers, prev: Pointers, next': Pointers, prev': Pointers, q: seq<int>)
    requires Pairs(next, prev, q) && q != []
    requires forall x :: x in q[..|q| - 1] ==> SameAt(next, next', x)
    requires forall x :: x in q[1..] ==> SameAt(prev, prev', x)
    ensures Pairs(next', prev', q)
  {
    forall i | 0 <= i < |q| - 1
      ensures PairAt(next', prev', q, i)
    {
      assert PairAt(next, prev, q, i);
      assert q[..|q| - 1][i] in q[..|q| - 1] && q[1..][i] in q[1..];
      assert SameAt(next, next', q[i]) && SameAt(prev, prev', q[i + 1]);
    }
  }

  lemma {:induction false} PairsPart(next: Pointers, prev: Pointers, q: seq<int>, i: nat, j: nat)
    requires Pairs(next, prev, q) && i <= j <= |q|
    ensures Pairs(next, prev, q[i..j])
  {
    var r := q[i..j];
    forall k | 0 <= k < |r| - 1
      ensures PairAt(next, prev, r, k)
    {
      assert PairAt(next, prev, q, i + k);
    }
  }

  lemma {:induction false} PairsJoin(next: Pointers, prev: Pointers, a: seq<int>, b: seq<int>)
    requires Pairs(next, prev, a) && Pairs(next, prev, b) && a != [] && b != []
    requires Linked(next, prev, a[|a| - 1], b[0])
    ensures Pairs(next, prev, a + b)
  {
    var r := a + b;
    forall k | 0 <= k < |r| - 1
      ensures PairAt(next, prev, r, k)
    {
      if k < |a| - 1 {
        assert PairAt(next, prev, a, k);
      } else if k >= |a| {
        assert PairAt(next, prev, b, k - |a|);
      }
    }
  }

  // ---------------------------------------------------------------- rings

  function Round(l: int, es: seq<int>): (q: seq<int>)
    ensures |q| == |es| + 2
  {
    [l] + es + [l]
  }

  /** The list l holds es, in order. */
  ghost predicate Ring(next: Pointers, prev: Pointers, l: int, es: seq<int>) {
    Pairs(next, prev, Round(l, es)) && l !in es && NoDup(es)
  }

  ghost predicate Apart(l: int, es: seq<int>, r: int, fs: seq<int>) {
    l != r && l !in fs && r !in es && forall x :: x in es ==> x !in fs
  }

  /** Pointers of entries outside s are the same. */
  ghost predicate Only(a: Pointers, b: Pointers, s: set<int>) {
    forall x :: x !in s ==> SameAt(a, b, x)
  }

  function Entries(l: int, es: seq<int>): set<int> {
    {l} + set x | x in es
  }

  /** A change of other entries leaves a ring as it is. */
  lemma {:induction false} RingFrame(next: Pointers, prev: Pointers, next': Pointers, prev': Pointers, s: set<int>,
                                     l: int, es: seq<int>)
    requires Ring(next, prev, l, es) && Only(next, next', s) && Only(prev, prev', s) && s !! Entries(l, es)
    ensures Ring(next', prev', l, es)
  {
    forall x | x in Round(l, es)
      ensures SameAt(next, next', x) && SameAt(prev, prev', x)
    {
      assert x in Entries(l, es);
    }
    PairsFrame(next, prev, next', prev', Round(l, es));
  }

  lemma {:induction false} Neighbours(next: Pointers, prev: Pointers, l: int, es: seq<int>, k: nat)
    requires Ring(next, prev, l, es) && k <= |es|
    ensures var q := Round(l, es); Linked(next, prev, q[k], q[k + 1])
  {
    assert PairAt(next, prev, Round(l, es), k);
  }

  /** The two parts of a round, cut behind position k. */
  lemma {:induction false} Cut(next: Pointers, prev: Pointers, l: int, es: seq<int>, k: nat)
    requires Ring(next, prev, l, es) && k <= |es|
    ensures Pairs(next, prev, [l] + es[..k]) && Pairs(next, prev, es[k..] + [l])
    ensures Round(l, es)[k] == ([l] + es[..k])[k] && Round(l, es)[k + 1] == (es[k..] + [l])[0]
  {
    var q := Round(l, es);
    PairsPart(next, prev, q, 0, k + 1);
    PairsPart(next, prev, q, k + 1, |q|);
    assert q[0..k + 1] == [l] + es[..k];
    assert q[k + 1..|q|] == es[k..] + [l];
  }

  /** A front part keeps its pairs when only the next pointer of its end and prev pointers elsewhere change. */
  lemma {:induction false} FrontFrame(next: Pointers, prev: Pointers, next': Pointers, prev': Pointers, l: int,
                                      es: seq<int>, s: set<int>, t: set<int>)
    requires Pairs(next, prev, [l] + es) && Only(next, next', s) && Only(prev, prev', t)
    requires forall i :: 0 <= i < |es| ==> ([l] + es)[i] !in s
    requires forall x :: x in es ==> x !in t
    ensures Pairs(next', prev', [l] + es)
  {
    assert ([l] + es)[1..] == es;
    PairsFrame(next, prev, next', prev', [l] + es);
  }

  lemma {:induction false} BackFrame(next: Pointers, prev: Pointers, next': Pointers, prev': Pointers, l: int,
                                     es: seq<int>, s: set<int>, t: set<int>)
    requires Pairs(next, prev, es + [l]) && Only(next, next', s) && Only(prev, prev', t)
    requires forall x :: x in es ==> x !in s
    requires forall i :: 0 < i <= |es| ==> (es + [l])[i] !in t
    ensures Pairs(next', prev', es + [l])
  {
    assert (es + [l])[..|es|] == es;
    PairsFrame(next, prev, next', prev', es + [l]);
  }

  /** Putting e between positions k and k + 1. */
  lemma {:induction false} Insert(next: Pointers, prev: Pointers, l: int, es: seq<int>, k: nat, e: int)
    requires Ring(next, prev, l, es) && k <= |es| && e !in es && e != l
    ensures var p, n := Round(l, es)[k], Round(l, es)[k + 1];
      Ring(next[e := n][p := e], prev[n := e][e := p], l, es[..k] + [e] + es[k..])
  {
    var p, n := Round(l, es)[k], Round(l, es)[k + 1];
    var next', prev' := next[e := n][p := e], prev[n := e][e := p];
    var a, b := es[..k], es[k..];
    Cut(next, prev, l, es, k);
    FrontFrame(next, prev, next', prev', l, a, {e, p}, {e, n});
    BackFrame(next, prev, next', prev', l, b, {e, p}, {e, n});
    PairsJoin(next', prev', [l] + a, [e]);
    PairsJoin(next', prev', [l] + a + [e], b + [l]);
    assert Round(l, a + [e] + b) == [l] + a + [e] + (b + [l]);
  }

  /** Taking the element at position k out. */
  lemma {:induction false} Remove(next: Pointers, prev: Pointers, l: int, es: seq<int>, k: nat)
    requires Ring(next, prev, l, es) && k < |es|
    ensures var p, n := Round(l, es)[k], Round(l, es)[k + 2];
      Ring(next[p := n], prev[n := p], l, es[..k] + es[k + 1..])
  {
    var p, n := Round(l, es)[k], Round(l, es)[k + 2];
    var next', prev' := next[p := n], prev[n := p];
    var a, b := es[..k], es[k + 1..];
    Cut(next, prev, l, es, k);
    Cut(next, prev, l, es, k + 1);
    FrontFrame(next, prev, next', prev', l, a, {p}, {n});
    BackFrame(next, prev, next', prev', l, b, {p}, {n});
    PairsJoin(next', prev', [l] + a, b + [l]);
    assert Round(l, a + b) == [l] + a + (b + [l]);
  }

  /** Putting a whole list between positions k and k + 1. */
  lemma {:induction false} InsertAll(next: Pointers, prev: Pointers, src: int, a: seq<int>, l: int, es: seq<int>,
                                     k: nat)
    requires Ring(next, prev, src, a) && Ring(next, prev, l, es) && Apart(src, a, l, es) && a != [] && k <= |es|
    ensures var p, n := Round(l, es)[k], Round(l, es)[k + 1];
      Ring(next[a[|a| - 1] := n][p := a[0]], prev[n := a[|a| - 1]][a[0] := p], l, es[..k] + a + es[k..])
  {
    var p, n, first, last := Round(l, es)[k], Round(l, es)[k + 1], a[0], a[|a| - 1];
    var next', prev' := next[last := n][p := first], prev[n := last][first := p];
    var b, c := es[..k], es[k..];
    InRound(l, es, k);
    InRound(l, es, k + 1);
    assert first in a && last in a;
    Cut(next, prev, l, es, k);
    FrontFrame(next, prev, next', prev', l, b, {last, p}, {first, n});
    BackFrame(next, prev, next', prev', l, c, {last, p}, {first, n});
    PairsPart(next, prev, Round(src, a), 1, |a| + 1);
    assert Round(src, a)[1..|a| + 1] == a;
    assert forall i :: 0 <= i < |a| ==> a[i] in a;
    PairsFrame(next, prev, next', prev', a);
    PairsJoin(next', prev', [l] + b, a);
    PairsJoin(next', prev', [l] + b + a, c + [l]);
    RoundOf(l, b, a, c);
    ApartDiffer(src, a, l, es);
    NoDupInsert(es, k, a);
  }

  lemma {:induction false} RoundOf(l: int, b: seq<int>, a: seq<int>, c: seq<int>)
    ensures Round(l, b + a + c) == [l] + b + a + (c + [l])
  {
  }

  lemma {:induction false} NoDupInsert(es: seq<int>, k: nat, a: seq<int>)
    requires NoDup(es) && NoDup(a) && k <= |es| && Different(a, es)
    ensures NoDup(es[..k] + a + es[k..])
  {
    var r := es[..k] + a + es[k..];
    forall i, j | 0 <= i < j < |r|
      ensures r[i] != r[j]
    {
      var p, q := if i < k then i else i - |a|, if j < k then j else j - |a|;
      var x := if k <= i < k + |a| then a[i - k] else es[p];
      var y := if k <= j < k + |a| then a[j - k] else es[q];
      assert r[i] == x && r[j] == y && x != y;
    }
  }

  ghost predicate Different(a: seq<int>, b: seq<int>) {
    forall i, j :: 0 <= i < |a| && 0 <= j < |b| ==> a[i] != b[j]
  }

  lemma {:induction false} ApartDiffer(l: int, es: seq<int>, r: int, fs: seq<int>)
    requires Apart(l, es, r, fs)
    ensures Different(es, fs)
  {
    forall i, j | 0 <= i < |es| && 0 <= j < |fs|
      ensures es[i] != fs[j]
    {
      assert es[i] in es && fs[j] in fs;
    }
  }

  // ---------------------------------------------------------------- the operations

  /** The memory of list entries.  Pointer 0 is NULL. */
  class Lists {
    var next: Pointers
    var prev: Pointers

    constructor ()
    {
      next, prev := map[], map[];
    }

    ghost predicate Holds(l: int, es: seq<int>)
      reads this
    {
      Ring(next, prev, l, es)
    }

    /** fusion_init_list and fusion_init_list_entry. */
    method Init(e: int)
      modifies this
      ensures next == old(next)[e := e] && prev == old(prev)[e := e] && Holds(e, [])
    {
      next := next[e := e];
      prev := prev[e := e];
      assert PairAt(next, prev, Round(e, []), 0);
    }

    /** fusion_list_add: e between p and n, which are neighbours at position k of the ring l. */
    method Add(e: int, p: int, n: int, ghost l: int, ghost es: seq<int>, ghost k: nat)
      requires Holds(l, es) && k <= |es| && p == Round(l, es)[k] && n == Round(l, es)[k + 1] && e !in es && e != l
      modifies this
      ensures Holds(l, es[..k] + [e] + es[k..])
      ensures Only(old(next), next, {e} + Entries(l, es))
      ensures Only(old(prev), prev, {e} + Entries(l, es))
    {
      Insert(next, prev, l, es, k, e);
      InRound(l, es, k);
      InRound(l, es, k + 1);
      prev := prev[n := e];
      next := next[e := n];
      prev := prev[e := p];
      next := next[p := e];
    }

    /** fusion_list_add_head. */
    method AddHead(e: int, l: int, ghost es: seq<int>)
      requires Holds(l, es) && e !in es && e != l
      modifies this
      ensures Holds(l, [e] + es)
      ensures Only(old(next), next, {e} + Entries(l, es))
      ensures Only(old(prev), prev, {e} + Entries(l, es))
    {
      Neighbours(next, prev, l, es, 0);
      Add(e, l, next[l], l, es, 0);
      assert es[..0] + [e] + es[0..] == [e] + es;
    }

    /** fusion_list_add_tail. */
    method AddTail(e: int, l: int, ghost es: seq<int>)
      requires Holds(l, es) && e !in es && e != l
      modifies this
      ensures Holds(l, es + [e])
      ensures Only(old(next), next, {e} + Entries(l, es))
      ensures Only(old(prev), prev, {e} + Entries(l, es))
    {
      Neighbours(next, prev, l, es, |es|);
      Add(e, prev[l], l, l, es, |es|);
      assert es[..|es|] + [e] + es[|es|..] == es + [e];
    }

    /** __fusion_list_del of the element at position k: the others stay, in order. */
    method Unlink(e: int, ghost l: int, ghost es: seq<int>, ghost k: nat)
      requires Holds(l, es) && k < |es| && e == es[k] && 0 !in Round(l, es)
      modifies this
      ensures Holds(l, es[..k] + es[k + 1..])
      ensures Only(old(next), next, Entries(l, es) - {e})
      ensures Only(old(prev), prev, Entries(l, es) - {e})
    {
      Neighbours(next, prev, l, es, k);
      Neighbours(next, prev, l, es, k + 1);
      Remove(next, prev, l, es, k);
      InRound(l, es, k);
      InRound(l, es, k + 2);
      if next[e] != 0 && prev[e] != 0 {
        var n, p := next[e], prev[e];
        prev := prev[n := p];
        next := next[p := n];
      }
    }

    /** __fusion_list_del of an element that is on no list. */
    method UnlinkAlone(e: int)
      requires Holds(e, [])
      modifies this
      ensures next == old(next) && prev == old(prev)
    {
      Neighbours(next, prev, e, [], 0);
      if next[e] != 0 && prev[e] != 0 {
        prev := prev[next[e] := prev[e]];
        next := next[prev[e] := next[e]];
      }
    }

    /** fusion_list_del. */
    method Del(e: int, ghost l: int, ghost es: seq<int>, ghost k: nat)
      requires Holds(l, es) && k < |es| && e == es[k] && 0 !in Round(l, es)
      modifies this
      ensures Holds(l, es[..k] + es[k + 1..]) && Holds(e, [])
      ensures Only(old(next), next, Entries(l, es))
      ensures Only(old(prev), prev, Entries(l, es))
    {
      Unlink(e, l, es, k);
      ghost var n, p := next, prev;
      Init(e);
      GoneIsOut(l, es, k);
      RingFrame(n, p, next, prev, {e}, l, es[..k] + es[k + 1..]);
    }

    /** fusion_list_move_head of an element of the same list. */
    method MoveHead(e: int, l: int, ghost es: seq<int>, ghost k: nat)
      requires Holds(l, es) && k < |es| && e == es[k] && 0 !in Round(l, es)
      modifies this
      ensures Holds(l, [e] + es[..k] + es[k + 1..])
      ensures Only(old(next), next, Entries(l, es))
      ensures Only(old(prev), prev, Entries(l, es))
    {
      Unlink(e, l, es, k);
      GoneIsOut(l, es, k);
      AddHead(e, l, es[..k] + es[k + 1..]);
      assert [e] + (es[..k] + es[k + 1..]) == [e] + es[..k] + es[k + 1..];
    }

    /** fusion_list_move_tail of an element of the same list. */
    method MoveTail(e: int, l: int, ghost es: seq<int>, ghost k: nat)
      requires Holds(l, es) && k < |es| && e == es[k] && 0 !in Round(l, es)
      modifies this
      ensures Holds(l, es[..k] + es[k + 1..] + [e])
      ensures Only(old(next), next, Entries(l, es))
      ensures Only(old(prev), prev, Entries(l, es))
    {
      Unlink(e, l, es, k);
      GoneIsOut(l, es, k);
      AddTail(e, l, es[..k] + es[k + 1..]);
    }

    /** fusion_list_move_head of an element of another list r. */
    method MoveHeadFrom(e: int, l: int, ghost es: seq<int>, ghost r: int, ghost fs: seq<int>, ghost k: nat)
      requires Holds(l, es) && Holds(r, fs) && Apart(l, es, r, fs) && k < |fs| && e == fs[k] && 0 !in Round(r, fs)
      modifies this
      ensures Holds(l, [e] + es) && Holds(r, fs[..k] + fs[k + 1..])
      ensures Only(old(next), next, Entries(l, es) + Entries(r, fs))
      ensures Only(old(prev), prev, Entries(l, es) + Entries(r, fs))
    {
      ghost var n, p := next, prev;
      Unlink(e, r, fs, k);
      GoneIsOut(r, fs, k);
      ApartSets(l, es, r, fs);
      RingFrame(n, p, next, prev, Entries(r, fs), l, es);
      ghost var n', p' := next, prev;
      AddHead(e, l, es);
      RingFrame(n', p', next, prev, {e} + Entries(l, es), r, fs[..k] + fs[k + 1..]);
    }

    /** fusion_list_move_tail of an element of another list r. */
    method MoveTailFrom(e: int, l: int, ghost es: seq<int>, ghost r: int, ghost fs: seq<int>, ghost k: nat)
      requires Holds(l, es) && Holds(r, fs) && Apart(l, es, r, fs) && k < |fs| && e == fs[k] && 0 !in Round(r, fs)
      modifies this
      ensures Holds(l, es + [e]) && Holds(r, fs[..k] + fs[k + 1..])
      ensures Only(old(next), next, Entries(l, es) + Entries(r, fs))
      ensures Only(old(prev), prev, Entries(l, es) + Entries(r, fs))
    {
      ghost var n, p := next, prev;
      Unlink(e, r, fs, k);
      GoneIsOut(r, fs, k);
      ApartSets(l, es, r, fs);
      RingFrame(n, p, next, prev, Entries(r, fs), l, es);
      ghost var n', p' := next, prev;
      AddTail(e, l, es);
      RingFrame(n', p', next, prev, {e} + Entries(l, es), r, fs[..k] + fs[k + 1..]);
    }

    /** fusion_list_move_head of an element that is on no list. */
    method MoveHeadAlone(e: int, l: int, ghost es: seq<int>)
      requires Holds(l, es) && Holds(e, []) && e != l && e !in es
      modifies this
      ensures Holds(l, [e] + es)
      ensures Only(old(next), next, {e} + Entries(l, es))
      ensures Only(old(prev), prev, {e} + Entries(l, es))
    {
      UnlinkAlone(e);
      AddHead(e, l, es);
    }

    /** fusion_list_move_tail of an element that is on no list. */
    method MoveTailAlone(e: int, l: int, ghost es: seq<int>)
      requires Holds(l, es) && Holds(e, []) && e != l && e !in es
      modifies this
      ensures Holds(l, es + [e])
      ensures Only(old(next), next, {e} + Entries(l, es))
      ensures Only(old(prev), prev, {e} + Entries(l, es))
    {
      UnlinkAlone(e);
      AddTail(e, l, es);
    }

    /** fusion_list_add_list: the elements of src go in front of those of dst, and src is empty. */
    method AddList(src: int, dst: int, ghost a: seq<int>, ghost b: seq<int>)
      requires Holds(src, a) && Holds(dst, b) && Apart(src, a, dst, b)
      modifies this
      ensures Holds(dst, a + b) && Holds(src, [])
      ensures Only(old(next), next, Entries(src, a) + Entries(dst, b))
      ensures Only(old(prev), prev, Entries(src, a) + Entries(dst, b))
    {
      Ends(next, prev, src, a);
      if next[src] == src {
        assert a + b == b;
        return;
      }
      Ends(next, prev, dst, b);
      InsertAll(next, prev, src, a, dst, b, 0);
      assert b[..0] + a + b[0..] == a + b;
      var newHead, oldHead := next[src], next[dst];
      prev := prev[oldHead := prev[src]];
      next := next[prev[src] := oldHead];
      prev := prev[newHead := dst];
      next := next[dst := newHead];
      Emptied(src, dst, a, b, a + b);
    }

    /** Emptying a list whose elements were moved. */
    method Emptied(src: int, dst: int, ghost a: seq<int>, ghost b: seq<int>, ghost all: seq<int>)
      requires Holds(dst, all) && src !in Entries(dst, all)
      modifies this
      ensures Holds(dst, all) && Holds(src, [])
      ensures Only(old(next), next, {src})
      ensures Only(old(prev), prev, {src})
    {
      ghost var n, p := next, prev;
      Init(src);
      RingFrame(n, p, next, prev, {src}, dst, all);
    }

    /** __fusion_list_splice. */
    method SpliceBetween(list: int, prv: int, nxt: int, ghost a: seq<int>, ghost l: int, ghost b: seq<int>,
                         ghost k: nat)
      requires Holds(list, a) && Holds(l, b) && Apart(list, a, l, b) && a != [] && k <= |b|
      requires prv == Round(l, b)[k] && nxt == Round(l, b)[k + 1]
      modifies this
      ensures Holds(l, b[..k] + a + b[k..])
      ensures Only(old(next), next, Entries(list, a) + Entries(l, b))
      ensures Only(old(prev), prev, Entries(list, a) + Entries(l, b))
    {
      Ends(next, prev, list, a);
      InsertAll(next, prev, list, a, l, b, k);
      InRound(l, b, k);
      InRound(l, b, k + 1);
      var first, last := next[list], prev[list];
      prev := prev[first := prv];
      next := next[prv := first];
      next := next[last := nxt];
      prev := prev[nxt := last];
      assert next == old(next)[last := nxt][prv := first] && prev == old(prev)[nxt := last][first := prv];
    }

    /** fusion_list_splice. */
    method Splice(list: int, head: int, ghost a: seq<int>, ghost b: seq<int>)
      requires Holds(list, a) && Holds(head, b) && Apart(list, a, head, b)
      modifies this
      ensures Holds(head, a + b) && Holds(list, [])
      ensures Only(old(next), next, Entries(list, a) + Entries(head, b))
      ensures Only(old(prev), prev, Entries(list, a) + Entries(head, b))
    {
      Ends(next, prev, list, a);
      Ends(next, prev, head, b);
      assert b[..0] + a + b[0..] == a + b;
      if next[list] != list {
        SpliceBetween(list, head, next[head], a, head, b, 0);
        Emptied(list, head, a, b, a + b);
      } else {
        assert a + b == b;
      }
    }

    /** fusion_list_splice_tail. */
    method SpliceTail(list: int, head: int, ghost a: seq<int>, ghost b: seq<int>)
      requires Holds(list, a) && Holds(head, b) && Apart(list, a, head, b)
      modifies this
      ensures Holds(head, b + a) && Holds(list, [])
      ensures Only(old(next), next, Entries(list, a) + Entries(head, b))
      ensures Only(old(prev), prev, Entries(list, a) + Entries(head, b))
    {
      Ends(next, prev, list, a);
      Ends(next, prev, head, b);
      assert b[..|b|] + a + b[|b|..] == b + a;
      if next[list] != list {
        SpliceBetween(list, prev[head], head, a, head, b, |b|);
        Emptied(list, head, a, b, b + a);
      } else {
        assert b + a == b;
      }
    }

    /** fusion_list_pop_head: the first element, off the list, or NULL. */
    method PopHead(l: int, ghost es: seq<int>) returns (e: int)
      requires Holds(l, es) && 0 !in Round(l, es)
      modifies this
      ensures if es == [] then e == 0 && next == old(next) && prev == old(prev)
              else e == es[0] && Holds(l, es[1..]) && Holds(e, [])
    {
      Neighbours(next, prev, l, es, 0);
      e := 0;
      if next[l] != l {
        e := next[l];
        assert es != [];
        Del(e, l, es, 0);
        assert es[..0] + es[1..] == es[1..];
      }
    }
  }

  /** What the head of a list points at. */
  lemma {:induction false} Ends(next: Pointers, prev: Pointers, l: int, es: seq<int>)
    requires Ring(next, prev, l, es)
    ensures l in next && l in prev && next[l] == Round(l, es)[1] && prev[l] == Round(l, es)[|es|]
    ensures next[l] == l <==> es == []
    ensures es != [] ==> next[l] == es[0] && prev[l] == es[|es| - 1]
  {
    Neighbours(next, prev, l, es, 0);
    Neighbours(next, prev, l, es, |es|);
    InRound(l, es, 1);
    InRound(l, es, |es|);
    assert es != [] ==> es[0] in es;
  }

  lemma {:induction false} InRound(l: int, es: seq<int>, k: nat)
    requires k < |es| + 2
    ensures Round(l, es)[k] in Entries(l, es)
    ensures 0 < k <= |es| ==> Round(l, es)[k] == es[k - 1]
  {
  }

  lemma {:induction false} GoneIsOut(l: int, es: seq<int>, k: nat)
    requires l !in es && NoDup(es) && k < |es|
    ensures es[k] !in es[..k] + es[k + 1..] && es[k] != l
    ensures Entries(l, es[..k] + es[k + 1..]) == Entries(l, es) - {es[k]}
  {
    var rest := es[..k] + es[k + 1..];
    forall i | 0 <= i < |rest|
      ensures rest[i] != es[k] && rest[i] in es
    {
      assert rest[i] == es[if i < k then i else i + 1];
    }
    forall x | x in Entries(l, es) - {es[k]}
      ensures x in Entries(l, rest)
    {
      if x != l {
        var i :| 0 <= i < |es| && es[i] == x;
        assert rest[if i < k then i else i - 1] == x;
      }
    }
  }

  lemma {:induction false} ApartSets(l: int, es: seq<int>, r: int, fs: seq<int>)
    requires Apart(l, es, r, fs)
    ensures Entries(l, es) !! Entries(r, fs)
  {
    forall x | x in Entries(l, es)
      ensures x !in Entries(r, fs)
    {
      assert x == l || x in es;
    }
  }
}
