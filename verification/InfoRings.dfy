/** The children of info directories as intrusive circular lists. */
module InfoRings {
  import opened Sequences
  import opened InfoForest
  import R = Ring

  /** The address of a directory's list head.  A node's own list entry has the address of the node. */
  function HeadOf(dir: int): int {
    -dir
  }

  /** The list of a directory holds its children, in order; a leaf has none. */
  ghost predicate ListOf(next: R.Pointers, prev: R.Pointers, m: Memory, p: int)
    requires p in m
  {
    if m[p].dir then R.Ring(next, prev, HeadOf(p), m[p].kids) else m[p].kids == []
  }

  /** Children know their parent. */
  ghost predicate Knows(m: Memory, p: int)
    requires p in m
  {
    forall x :: x in m[p].kids ==> x in m && m[x].parent == p
  }

  ghost predicate Rings(next: R.Pointers, prev: R.Pointers, m: Memory) {
    && (forall p :: p in m ==> p > 0)
    && (forall p :: p in m ==> ListOf(next, prev, m, p))
    && (forall p :: p in m ==> Knows(m, p))
  }

  /** Entries of one directory's list. */
  function EntriesOf(m: Memory, p: int): set<int>
    requires p in m
  {
    R.Entries(HeadOf(p), m[p].kids)
  }

  /** Lists of different directories share no entry. */
  lemma {:induction false} ListsApart(next: R.Pointers, prev: R.Pointers, m: Memory, p: int, q: int)
    requires Rings(next, prev, m) && p in m && q in m && p != q
    ensures EntriesOf(m, p) !! EntriesOf(m, q)
  {
    forall x | x in EntriesOf(m, p)
      ensures x !in EntriesOf(m, q)
    {
      assert Knows(m, p) && Knows(m, q);
      assert x == HeadOf(p) || x in m[p].kids;
      assert x == HeadOf(q) || x in m[q].kids || x !in EntriesOf(m, q);
    }
  }

  /** Other directories' lists are not touched. */
  lemma {:induction false} OtherLists(next: R.Pointers, prev: R.Pointers, next': R.Pointers, prev': R.Pointers,
                                      m: Memory, m': Memory, p: int, s: set<int>)
    requires p in m && p in m' && m'[p].dir == m[p].dir && m'[p].kids == m[p].kids && ListOf(next, prev, m, p)
    requires R.Only(next, next', s) && R.Only(prev, prev', s) && s !! EntriesOf(m, p)
    ensures ListOf(next', prev', m', p)
  {
    if m[p].dir {
      R.RingFrame(next, prev, next', prev', s, HeadOf(p), m[p].kids);
    }
  }

  /** What the list says about a directory's children. */
  lemma {:induction false} ListFacts(next: R.Pointers, prev: R.Pointers, m: Memory, p: int)
    requires Rings(next, prev, m) && p in m && m[p].dir
    ensures var kids, l := m[p].kids, HeadOf(p);
      && R.Ring(next, prev, l, kids) && NoDup(kids) && 0 !in R.Round(l, kids) && l !in kids
      && l in next && (next[l] == l <==> kids == []) && (kids != [] ==> next[l] == kids[0])
    ensures forall x :: x in m[p].kids ==> x > 0
  {
    assert ListOf(next, prev, m, p) && Knows(m, p);
    R.Ends(next, prev, HeadOf(p), m[p].kids);
    assert forall x :: x in R.Round(HeadOf(p), m[p].kids) ==> x == HeadOf(p) || x in m[p].kids;
  }

  // ---------------------------------------------------------------- inserting

  /** Memory with a new node behind the children of q. */
  function Grafted(m: Memory, q: int, x: int, name: string, dir: bool): Memory
    requires q in m
  {
    m[q := m[q].(kids := m[q].kids + [x])][x := Node(q, name, dir, [])]
  }

  /** The new entry at the tail of its parent's list keeps all lists. */
  lemma {:induction false} GraftKeepsRings(next: R.Pointers, prev: R.Pointers, next': R.Pointers, prev': R.Pointers,
                                           m: Memory, q: int, x: int, name: string, dir: bool)
    requires Rings(next, prev, m) && q in m && m[q].dir && x !in m && x > 0
    requires R.Only(next, next', {x, HeadOf(x)} + EntriesOf(m, q))
    requires R.Only(prev, prev', {x, HeadOf(x)} + EntriesOf(m, q))
    requires R.Ring(next', prev', HeadOf(q), m[q].kids + [x]) && (dir ==> R.Ring(next', prev', HeadOf(x), []))
    ensures Rings(next', prev', Grafted(m, q, x, name, dir))
  {
    var m' := Grafted(m, q, x, name, dir);
    forall p | p in m'
      ensures ListOf(next', prev', m', p)
    {
      if p != x && p != q {
        ListsApart(next, prev, m, p, q);
        OtherLists(next, prev, next', prev', m, m', p, {x, HeadOf(x)} + EntriesOf(m, q));
      }
    }
    forall p | p in m'
      ensures Knows(m', p)
    {
      if p != x {
        assert Knows(m, p);
      }
    }
  }

  // ---------------------------------------------------------------- deleting

  lemma {:induction false} WithoutAt(kids: seq<int>, k: nat)
    requires NoDup(kids) && k < |kids|
    ensures Without(kids, kids[k]) == kids[..k] + kids[k + 1..]
  {
    if k == 0 {
      WithoutAbsent(kids[1..], kids[0]);
    } else {
      assert kids[1..][k - 1] == kids[k] && kids[0] != kids[k];
      WithoutAt(kids[1..], k - 1);
      assert kids[..k] == [kids[0]] + kids[1..][..k - 1];
      assert kids[1..][k..] == kids[k + 1..];
    }
  }

  lemma {:induction false} WithoutInside(s: seq<int>, x: int)
    ensures x !in Without(s, x) && forall y :: y in Without(s, x) ==> y in s
  {
    if s != [] {
      WithoutInside(s[1..], x);
    }
  }

  /** Taking a node off its parent's list and freeing it keeps all lists. */
  lemma {:induction false} FreeKeepsRings(next: R.Pointers, prev: R.Pointers, next': R.Pointers, prev': R.Pointers,
                                          m: Memory, m': Memory, p: int, x: int)
    requires Rings(next, prev, m) && p in m && x in m && p != x && x in m[p].kids
    requires m' == m[p := m[p].(kids := Without(m[p].kids, x))] - {x}
    requires R.Only(next, next', EntriesOf(m, p)) && R.Only(prev, prev', EntriesOf(m, p))
    requires R.Ring(next', prev', HeadOf(p), Without(m[p].kids, x))
    ensures Rings(next', prev', m')
  {
    WithoutInside(m[p].kids, x);
    assert Knows(m, p);
    forall q | q in m'
      ensures ListOf(next', prev', m', q)
    {
      if q == p {
        assert ListOf(next, prev, m, p);
      } else {
        ListsApart(next, prev, m, q, p);
        OtherLists(next, prev, next', prev', m, m', q, EntriesOf(m, p));
      }
    }
    forall q | q in m'
      ensures Knows(m', q)
    {
      assert Knows(m, q);
    }
  }

  // ---------------------------------------------------------------- walking

  /** The list behind an entry; entry 0 stands for the head of the list. */
  function Behind(kids: seq<int>, entry: int): seq<int> {
    if entry == 0 || kids == [] then kids else if kids[0] == entry then kids[1..] else Behind(kids[1..], entry)
  }

  function NextEntry(kids: seq<int>, entry: int): int {
    if Behind(kids, entry) == [] then 0 else Behind(kids, entry)[0]
  }

  lemma {:induction false} BehindNext(kids: seq<int>, entry: int, x: int, r: seq<int>)
    requires NoDup(kids) && 0 !in kids && Behind(kids, entry) == [x] + r
    ensures x != 0 && Behind(kids, x) == r && NextEntry(kids, entry) == x
  {
    if entry == 0 || kids == [] {
      assert kids[1..] == r;
    } else if kids[0] == entry {
      assert kids[1..] == [x] + r && kids[1] == x;
      assert x != kids[0];
      assert kids[1..][1..] == r;
    } else {
      BehindNext(kids[1..], entry, x, r);
      assert x in kids[1..] by {
        BehindInside(kids[1..], entry);
      }
      assert kids[0] != x;
    }
  }

  lemma {:induction false} BehindInside(kids: seq<int>, entry: int)
    ensures forall x :: x in Behind(kids, entry) ==> x in kids
  {
    if entry != 0 && kids != [] && kids[0] != entry {
      BehindInside(kids[1..], entry);
    }
  }

  /** The address of an entry of the list l, 0 standing for its head. */
  function AddressOf(l: int, entry: int): int {
    if entry == 0 then l else entry
  }

  lemma {:induction false} BehindAt(kids: seq<int>, k: nat)
    requires NoDup(kids) && k < |kids| && kids[k] != 0
    ensures Behind(kids, kids[k]) == kids[k + 1..]
  {
    if k > 0 {
      assert kids[0] != kids[k] && kids[1..][k - 1] == kids[k];
      BehindAt(kids[1..], k - 1);
      assert kids[1..][k..] == kids[k + 1..];
    }
  }

  /** entry->next is the next entry, or the head behind the last one. */
  lemma {:induction false} NextIs(next: R.Pointers, prev: R.Pointers, m: Memory, p: int, entry: int)
    requires Rings(next, prev, m) && p in m && m[p].dir && (entry == 0 || entry in m[p].kids)
    ensures var l := HeadOf(p);
      AddressOf(l, entry) in next && next[AddressOf(l, entry)] == AddressOf(l, NextEntry(m[p].kids, entry))
  {
    ListFacts(next, prev, m, p);
    var kids, l := m[p].kids, HeadOf(p);
    if entry == 0 {
      R.Neighbours(next, prev, l, kids, 0);
      R.InRound(l, kids, 1);
    } else {
      var k :| 0 <= k < |kids| && kids[k] == entry;
      BehindAt(kids, k);
      R.Neighbours(next, prev, l, kids, k + 1);
      R.InRound(l, kids, k + 1);
      if k + 1 < |kids| {
        R.InRound(l, kids, k + 2);
        assert kids[k + 1] in kids;
      }
    }
  }
}
