/** The info tree as a value, and what it means for memory to hold one. */
module InfoForest {
  import opened Sequences

  /** A list of siblings: the first one, its children, and the others. */
  datatype Forest = Nil | Cons(ptr: int, name: string, dir: bool, kids: Forest, rest: Forest)

  /** A node in memory.  Pointer 0 is NULL. */
  datatype Node = Node(parent: int, name: string, dir: bool, kids: seq<int>)

  type Memory = map<int, Node>

  function Ptrs(f: Forest): seq<int> {
    if f.Nil? then [] else [f.ptr] + Ptrs(f.rest)
  }

  function Set(f: Forest): set<int> {
    if f.Nil? then {} else {f.ptr} + Set(f.kids) + Set(f.rest)
  }

  /** Children before their parent, siblings in order: the order of a recursive delete. */
  function Post(f: Forest): seq<int> {
    if f.Nil? then [] else Post(f.kids) + [f.ptr] + Post(f.rest)
  }

  /** Every node has a pointer of its own; only directories have children. */
  ghost predicate Proper(f: Forest) {
    f.Cons? ==>
      && f.ptr != 0 && f.ptr !in Set(f.kids) && f.ptr !in Set(f.rest) && Set(f.kids) !! Set(f.rest)
      && (!f.dir ==> f.kids == Nil)
      && Proper(f.kids) && Proper(f.rest)
  }

  /** Memory holds the forest as children of `parent`. */
  ghost predicate Holds(m: Memory, f: Forest, parent: int) {
    f.Cons? ==>
      && f.ptr in m && m[f.ptr] == Node(parent, f.name, f.dir, Ptrs(f.kids))
      && Holds(m, f.kids, f.ptr) && Holds(m, f.rest, parent)
  }

  ghost predicate Agree(m: Memory, m': Memory, s: set<int>) {
    forall x :: x in s ==> (x in m <==> x in m') && (x in m ==> m[x] == m'[x])
  }

  lemma {:induction false} HoldsFrame(m: Memory, m': Memory, f: Forest, parent: int)
    requires Holds(m, f, parent) && Agree(m, m', Set(f))
    ensures Holds(m', f, parent)
  {
    if f.Cons? {
      HoldsFrame(m, m', f.kids, f.ptr);
      HoldsFrame(m, m', f.rest, parent);
    }
  }

  lemma {:induction false} PtrsInSet(f: Forest, x: int)
    requires x in Ptrs(f)
    ensures x in Set(f)
  {
    if x != f.ptr {
      PtrsInSet(f.rest, x);
    }
  }

  lemma {:induction false} HeldPtrs(m: Memory, f: Forest, parent: int)
    requires Holds(m, f, parent)
    ensures Set(f) <= m.Keys
  {
    if f.Cons? {
      HeldPtrs(m, f.kids, f.ptr);
      HeldPtrs(m, f.rest, parent);
    }
  }

  // ---------------------------------------------------------------- post-order

  lemma {:induction false} PostElements(f: Forest)
    ensures Elements(Post(f)) == Set(f)
  {
    if f.Cons? {
      PostElements(f.kids);
      PostElements(f.rest);
      assert Elements(Post(f)) == Elements(Post(f.kids)) + {f.ptr} + Elements(Post(f.rest));
    }
  }

  /** Post-order names every node of the forest once. */
  lemma {:induction false} PostOnce(f: Forest)
    requires Proper(f)
    ensures NoDup(Post(f)) && Elements(Post(f)) == Set(f)
  {
    PostElements(f);
    if f.Cons? {
      PostOnce(f.kids);
      PostOnce(f.rest);
      NoDupJoin(Post(f.kids), [f.ptr]);
      NoDupJoin(Post(f.kids) + [f.ptr], Post(f.rest));
    }
  }

  /** x is a node of the forest, and y is one of its descendants. */
  ghost predicate Above(f: Forest, x: int, y: int) {
    f.Cons? && ((f.ptr == x && y in Set(f.kids)) || Above(f.kids, x, y) || Above(f.rest, x, y))
  }

  /** In post-order every descendant comes before its ancestors. */
  lemma {:induction false} PostBelowFirst(f: Forest, x: int, y: int) returns (i: nat, j: nat)
    requires Above(f, x, y)
    ensures i < j < |Post(f)| && Post(f)[i] == y && Post(f)[j] == x
  {
    if f.ptr == x && y in Set(f.kids) {
      PostElements(f.kids);
      assert y in Elements(Post(f.kids));
      i :| 0 <= i < |Post(f.kids)| && Post(f.kids)[i] == y;
      j := |Post(f.kids)|;
    } else if Above(f.kids, x, y) {
      i, j := PostBelowFirst(f.kids, x, y);
    } else {
      i, j := PostBelowFirst(f.rest, x, y);
      i, j := i + |Post(f.kids)| + 1, j + |Post(f.kids)| + 1;
    }
  }

  /** x is in a subtree of some sibling list that comes before the one y is in. */
  ghost predicate LeftOf(f: Forest, x: int, y: int) {
    f.Cons? && ((x in Set(f.kids) + {f.ptr} && y in Set(f.rest)) || LeftOf(f.kids, x, y) || LeftOf(f.rest, x, y))
  }

  /** In post-order siblings, with all that is below them, come in the order of their list. */
  lemma {:induction false} PostLeftFirst(f: Forest, x: int, y: int) returns (i: nat, j: nat)
    requires LeftOf(f, x, y)
    ensures i < j < |Post(f)| && Post(f)[i] == x && Post(f)[j] == y
  {
    var n := |Post(f.kids)|;
    if x in Set(f.kids) + {f.ptr} && y in Set(f.rest) {
      if x == f.ptr {
        i := n;
      } else {
        i := PostAt(f.kids, x);
      }
      j := PostAt(f.rest, y);
      j := n + 1 + j;
    } else if LeftOf(f.kids, x, y) {
      i, j := PostLeftFirst(f.kids, x, y);
    } else {
      i, j := PostLeftFirst(f.rest, x, y);
      i, j := i + n + 1, j + n + 1;
    }
  }

  lemma {:induction false} PostAt(f: Forest, x: int) returns (i: nat)
    requires x in Set(f)
    ensures i < |Post(f)| && Post(f)[i] == x
  {
    PostElements(f);
    assert x in Elements(Post(f));
    i :| 0 <= i < |Post(f)| && Post(f)[i] == x;
  }

  // ---------------------------------------------------------------- lists without an element

  function Without(s: seq<int>, x: int): seq<int> {
    if s == [] then [] else if s[0] == x then Without(s[1..], x) else [s[0]] + Without(s[1..], x)
  }

  lemma {:induction false} WithoutAbsent(s: seq<int>, x: int)
    requires x !in s
    ensures Without(s, x) == s
  {
    if s != [] {
      WithoutAbsent(s[1..], x);
    }
  }

  // ---------------------------------------------------------------- subtrees

  /** The children of node x. */
  function Below(f: Forest, x: int): Forest {
    if f.Nil? then Nil else if f.ptr == x then f.kids
    else if x in Set(f.kids) then Below(f.kids, x) else Below(f.rest, x)
  }

  /** The parent of node x. */
  function ParentOf(f: Forest, top: int, x: int): int {
    if f.Nil? then 0 else if f.ptr == x then top
    else if x in Set(f.kids) then ParentOf(f.kids, f.ptr, x) else ParentOf(f.rest, top, x)
  }

  /** The forest without the subtree of x. */
  function Prune(f: Forest, x: int): Forest {
    if f.Nil? then Nil else if f.ptr == x then f.rest
    else Cons(f.ptr, f.name, f.dir, Prune(f.kids, x), Prune(f.rest, x))
  }

  lemma {:induction false} BelowIsHeld(m: Memory, f: Forest, top: int, x: int)
    requires Proper(f) && Holds(m, f, top) && x in Set(f)
    ensures x in m && m[x].parent == ParentOf(f, top, x) && m[x].kids == Ptrs(Below(f, x))
    ensures Holds(m, Below(f, x), x) && Proper(Below(f, x)) && x !in Set(Below(f, x)) && x != 0
    ensures !m[x].dir ==> Below(f, x) == Nil
  {
    if f.ptr != x {
      if x in Set(f.kids) {
        BelowIsHeld(m, f.kids, f.ptr, x);
      } else {
        BelowIsHeld(m, f.rest, top, x);
      }
    }
  }

  lemma {:induction false} BelowInside(f: Forest, top: int, x: int)
    requires Proper(f) && x in Set(f) && top !in Set(f)
    ensures Set(Below(f, x)) <= Set(f)
    ensures ParentOf(f, top, x) in Set(f) + {top}
    ensures ParentOf(f, top, x) !in Set(Below(f, x)) + {x}
    ensures ParentOf(f, top, x) == top <==> x in Ptrs(f)
  {
    if f.ptr == x {
    } else if x in Set(f.kids) {
      BelowInside(f.kids, f.ptr, x);
      if x in Ptrs(f.rest) {
        PtrsInSet(f.rest, x);
      }
    } else {
      BelowInside(f.rest, top, x);
    }
  }

  lemma {:induction false} PruneAbsent(f: Forest, x: int)
    requires x !in Set(f)
    ensures Prune(f, x) == f
  {
    if f.Cons? {
      PruneAbsent(f.kids, x);
      PruneAbsent(f.rest, x);
    }
  }

  /** Pruning takes away x and what is below it, and nothing else. */
  lemma {:induction false} PruneSet(f: Forest, x: int)
    requires Proper(f) && x in Set(f)
    ensures Proper(Prune(f, x))
    ensures Set(Prune(f, x)) == Set(f) - Set(Below(f, x)) - {x}
  {
    if f.ptr == x {
    } else if x in Set(f.kids) {
      PruneSet(f.kids, x);
      PruneAbsent(f.rest, x);
      BelowInside(f.kids, f.ptr, x);
    } else {
      PruneSet(f.rest, x);
      PruneAbsent(f.kids, x);
      BelowInside(f.rest, f.ptr, x);
    }
  }

  lemma {:induction false} PrunePtrs(f: Forest, x: int)
    requires Proper(f)
    ensures Ptrs(Prune(f, x)) == Without(Ptrs(f), x)
  {
    if f.Cons? {
      assert Ptrs(f)[1..] == Ptrs(f.rest);
      PrunePtrs(f.rest, x);
      if f.ptr == x {
        if x in Ptrs(f.rest) {
          PtrsInSet(f.rest, x);
        }
        WithoutAbsent(Ptrs(f.rest), x);
      }
    }
  }

  /** What a delete of x leaves in memory: x and everything below it gone, x off its parent's list. */
  ghost predicate Deleted(m: Memory, m': Memory, gone: set<int>, x: int, parent: int) {
    && (forall y :: y in m && y !in gone && y != parent ==> y in m' && m'[y] == m[y])
    && (parent in m ==> parent in m' && m'[parent] == m[parent].(kids := Without(m[parent].kids, x)))
    && m'.Keys == m.Keys - gone
  }

  /** A memory that held the forest and from which x was deleted holds the pruned forest. */
  lemma {:induction false} DeletedHolds(m: Memory, m': Memory, f: Forest, top: int, x: int, gone: set<int>, parent: int)
    requires Proper(f) && Holds(m, f, top) && top !in Set(f) && Deleted(m, m', gone, x, parent)
    requires parent !in gone && x in gone
    requires if x in Set(f) then gone == Set(Below(f, x)) + {x} && parent == ParentOf(f, top, x)
             else gone !! Set(f) && parent !in Set(f)
    ensures Holds(m', Prune(f, x), top)
  {
    if f.Cons? {
      HeldPtrs(m, f, top);
      if x !in Set(f) {
        PruneAbsent(f, x);
        HoldsFrame(m, m', f, top);
      } else if f.ptr == x {
        HoldsFrame(m, m', f.rest, top);
      } else {
        BelowInside(f, top, x);
        PrunePtrs(f.kids, x);
        if x in Set(f.kids) {
          BelowInside(f.kids, f.ptr, x);
        } else {
          BelowInside(f.rest, top, x);
        }
        DeletedNode(m, m', f, top, x, gone, parent);
        DeletedHolds(m, m', f.kids, f.ptr, x, gone, parent);
        DeletedHolds(m, m', f.rest, top, x, gone, parent);
      }
    }
  }

  lemma {:induction false} DeletedNode(m: Memory, m': Memory, f: Forest, top: int, x: int, gone: set<int>, parent: int)
    requires Proper(f) && Holds(m, f, top) && top !in Set(f) && Deleted(m, m', gone, x, parent)
    requires f.Cons? && x in Set(f) && f.ptr != x && gone == Set(Below(f, x)) + {x} && parent == ParentOf(f, top, x)
    ensures f.ptr in m' && m'[f.ptr] == Node(top, f.name, f.dir, Ptrs(Prune(f.kids, x)))
  {
    PrunePtrs(f.kids, x);
    if x in Set(f.kids) {
      BelowInside(f.kids, f.ptr, x);
      if parent != f.ptr {
        WithoutAbsent(Ptrs(f.kids), x);
      }
    } else {
      BelowInside(f.rest, top, x);
      if x in Ptrs(f.kids) {
        PtrsInSet(f.kids, x);
      }
      WithoutAbsent(Ptrs(f.kids), x);
    }
  }
}
