/** Inserting into and deleting from the info tree, in place and without recursion. */
module InfoTree {
  import opened InfoForest
  import opened InfoNames
  import opened InfoRings
  import opened Machine

  // ---------------------------------------------------------------- where a delete stands

  /** Directories entered and not yet freed, innermost first, each with the children it still has to delete. */
  datatype Stack = Empty | Push(ptr: int, todo: Forest, below: Stack)

  /** What is still to be freed, in order. */
  function Work(s: Stack): seq<int> {
    if s.Empty? then [] else Post(s.todo) + [s.ptr] + Work(s.below)
  }

  function Members(s: Stack): set<int> {
    if s.Empty? then {} else {s.ptr} + Set(s.todo) + Members(s.below)
  }

  ghost predicate ProperStack(s: Stack) {
    s.Push? ==>
      && s.ptr != 0 && s.ptr !in Set(s.todo) && s.ptr !in Members(s.below) && Set(s.todo) !! Members(s.below)
      && Proper(s.todo) && ProperStack(s.below)
  }

  /** The node a directory of the stack hangs off. */
  function Under(s: Stack, stop: int): int {
    if s.Empty? then stop else s.ptr
  }

  /** Memory holds the stack: the list of a directory is what was entered from it and what is left of it. */
  ghost predicate HoldsStack(m: Memory, s: Stack, stop: int, entered: seq<int>) {
    s.Push? ==>
      && s.ptr in m && m[s.ptr].dir && m[s.ptr].parent == Under(s.below, stop)
      && m[s.ptr].kids == entered + Ptrs(s.todo)
      && Holds(m, s.todo, s.ptr) && HoldsStack(m, s.below, stop, [s.ptr])
  }

  lemma {:induction false} StackFrame(m: Memory, m': Memory, s: Stack, stop: int, entered: seq<int>)
    requires HoldsStack(m, s, stop, entered) && Agree(m, m', Members(s))
    ensures HoldsStack(m', s, stop, entered)
  {
    if s.Push? {
      HoldsFrame(m, m', s.todo, s.ptr);
      StackFrame(m, m', s.below, stop, [s.ptr]);
    }
  }

  /** Steps the loop needs at most. */
  function Nodes(f: Forest): nat {
    if f.Nil? then 0 else 1 + Nodes(f.kids) + Nodes(f.rest)
  }

  function Steps(s: Stack): nat {
    if s.Empty? then 0 else 1 + 2 * Nodes(s.todo) + Steps(s.below)
  }

  // ---------------------------------------------------------------- unlinking and freeing, as functions

  /** Memory without node x, which hung off `parent`. */
  function Freed(m: Memory, x: int, parent: int): Memory
    requires parent in m
  {
    m[parent := m[parent].(kids := Without(m[parent].kids, x))] - {x}
  }

  /** Freeing the first child of the innermost directory, a leaf. */
  lemma {:induction false} FreeLeaf(m: Memory, s: Stack, stop: int)
    requires s.Push? && s.todo.Cons? && !s.todo.dir && ProperStack(s) && HoldsStack(m, s, stop, [])
    ensures m[s.ptr].kids[0] == s.todo.ptr && m[s.todo.ptr].parent == s.ptr && s.ptr in m
    ensures var s' := Push(s.ptr, s.todo.rest, s.below);
      && HoldsStack(Freed(m, s.todo.ptr, s.ptr), s', stop, []) && ProperStack(s')
      && Work(s) == [s.todo.ptr] + Work(s') && Steps(s') < Steps(s)
  {
    var c, r := s.todo.ptr, s.todo.rest;
    var m' := Freed(m, c, s.ptr);
    if c in Ptrs(r) {
      PtrsInSet(r, c);
    }
    WithoutAbsent(Ptrs(r), c);
    assert m[s.ptr].kids[1..] == Ptrs(r);
    assert Post(s.todo) == [c] + Post(r);
    HoldsFrame(m, m', r, s.ptr);
    StackFrame(m, m', s.below, stop, [s.ptr]);
  }

  /** Moving down into the first child, a directory. */
  lemma {:induction false} MoveDown(m: Memory, s: Stack, stop: int)
    requires s.Push? && s.todo.Cons? && s.todo.dir && ProperStack(s) && HoldsStack(m, s, stop, [])
    ensures m[s.ptr].kids[0] == s.todo.ptr
    ensures var s' := Push(s.todo.ptr, s.todo.kids, Push(s.ptr, s.todo.rest, s.below));
      && HoldsStack(m, s', stop, []) && ProperStack(s')
      && Work(s) == Work(s') && Steps(s') < Steps(s)
  {
    var s' := Push(s.todo.ptr, s.todo.kids, Push(s.ptr, s.todo.rest, s.below));
    assert m[s.ptr].kids == [s.todo.ptr] + Ptrs(s.todo.rest);
    assert Work(s) == Post(s.todo.kids) + [s.todo.ptr] + Post(s.todo.rest) + [s.ptr] + Work(s.below);
    assert Work(s') == Post(s.todo.kids) + [s.todo.ptr] + (Post(s.todo.rest) + [s.ptr] + Work(s.below));
  }

  /** Freeing the innermost directory, which is empty, and moving up. */
  lemma {:induction false} MoveUp(m: Memory, s: Stack, stop: int)
    requires s.Push? && s.todo.Nil? && ProperStack(s) && HoldsStack(m, s, stop, []) && stop in m && stop !in Members(s)
    ensures m[s.ptr].parent == Under(s.below, stop) && Under(s.below, stop) in m
    ensures HoldsStack(Freed(m, s.ptr, Under(s.below, stop)), s.below, stop, []) && ProperStack(s.below)
    ensures Work(s) == [s.ptr] + Work(s.below) && Steps(s.below) < Steps(s)
  {
    var m' := Freed(m, s.ptr, Under(s.below, stop));
    var b := s.below;
    if b.Push? {
      if s.ptr in Ptrs(b.todo) {
        PtrsInSet(b.todo, s.ptr);
      }
      WithoutAbsent(Ptrs(b.todo), s.ptr);
      assert m[b.ptr].kids[1..] == Ptrs(b.todo);
      HoldsFrame(m, m', b.todo, b.ptr);
      StackFrame(m, m', b.below, stop, [b.ptr]);
    }
  }

  // ---------------------------------------------------------------- whole trees

  /** Memory holds a whole tree. */
  ghost predicate Whole(m: Memory, f: Forest, root: int) {
    && root != 0 && root in m && m[root] == Node(0, "", true, Ptrs(f))
    && Holds(m, f, root) && Proper(f) && root !in Set(f)
    && m.Keys == Set(f) + {root}
  }

  function Head(f: Forest): int {
    if f.Nil? then 0 else f.ptr
  }

  /** The children of a node of the tree, the root included. */
  function KidsOf(f: Forest, root: int, q: int): Forest {
    if q == root then f else Below(f, q)
  }

  /** The tree with a leaf behind the children of q. */
  function Grown(f: Forest, root: int, q: int, g: Forest): Forest {
    if q == root then Append(f, g) else Graft(f, q, g)
  }

  lemma {:induction false} KidsHeld(m: Memory, f: Forest, root: int, q: int)
    requires Whole(m, f, root) && q in m
    ensures m[q].kids == Ptrs(KidsOf(f, root, q)) && Holds(m, KidsOf(f, root, q), q) && Proper(KidsOf(f, root, q))
    ensures q !in Set(KidsOf(f, root, q)) && Set(KidsOf(f, root, q)) <= Set(f) && q != 0
    ensures !m[q].dir ==> KidsOf(f, root, q) == Nil
  {
    if q != root {
      BelowIsHeld(m, f, root, q);
      BelowInside(f, root, q);
    }
  }

  lemma {:induction false} HeadNotNull(m: Memory, f: Forest, top: int, name: string)
    requires Proper(f) && Holds(m, f, top)
    ensures Head(Lookup(f, name)) == 0 <==> Lookup(f, name).Nil?
  {
    LookupHeld(m, f, top, name);
  }

  lemma {:induction false} GrownHeld(m: Memory, f: Forest, root: int, q: int, g: Forest)
    requires Whole(m, f, root) && q in m && m[q].dir
    requires g.Cons? && g.rest == Nil && g.kids == Nil && g.ptr !in m && g.ptr != 0
    ensures Whole(Grafted(m, q, g.ptr, g.name, g.dir), Grown(f, root, q, g), root)
  {
    var m' := Grafted(m, q, g.ptr, g.name, g.dir);
    if q == root {
      HoldsFrame(m, m', f, root);
      AppendHeld(m', f, g, root);
      AppendLeaf(f, g);
    } else {
      GraftHeld(m, f, root, q, g);
      GraftLeaf(f, q, g);
      GraftProper(f, q, g, m, root);
    }
  }

  /**
   Inserting keeps sibling names distinct exactly when no sibling has the name.  For a real parent the
   insert made sure of it; below the root nobody looks.
   */
  lemma {:induction false} GrownUniqueIff(m: Memory, f: Forest, root: int, q: int, g: Forest)
    requires Whole(m, f, root) && q in m && Unique(f)
    requires g.Cons? && g.rest == Nil && g.kids == Nil
    ensures Unique(Grown(f, root, q, g)) <==> g.name !in Names(KidsOf(f, root, q))
  {
    if q == root {
      AppendLeaf(f, g);
    } else {
      GraftLeaf(f, q, g);
    }
  }

  /** A second "a" below NULL: nobody has looked, and two siblings share the name. */
  lemma {:induction false} TwoOfAName()
    ensures var m := map[1 := Node(0, "", true, [2]), 2 := Node(1, "a", false, [])];
            var f, g := Cons(2, "a", false, Nil, Nil), Cons(3, "a", false, Nil, Nil);
      && Whole(m, f, 1) && Unique(f)
      && Whole(Grafted(m, 1, 3, "a", false), Grown(f, 1, 1, g), 1) && !Unique(Grown(f, 1, 1, g))
  {
    var m := map[1 := Node(0, "", true, [2]), 2 := Node(1, "a", false, [])];
    var f, g := Cons(2, "a", false, Nil, Nil), Cons(3, "a", false, Nil, Nil);
    assert Ptrs(f) == [2] && Names(f) == ["a"];
    GrownHeld(m, f, 1, 1, g);
    GrownUniqueIff(m, f, 1, 1, g);
    assert "a" in Names(f);
  }

  // ---------------------------------------------------------------- the tree object

  /** The children of a node are what hangs off it. */
  ghost predicate KidsAre(m: Memory, p: int, f: Forest) {
    p in m && m[p].kids == Ptrs(f) && Holds(m, f, p)
  }

  class Info {
    const root: int
    const lists: R.Lists         // the list entries of nodes and the list heads of directories
    var nodes: Memory            // `kids` tells what a directory's list holds; the code follows the list
    ghost var tree: Forest       // what hangs off the root
    ghost var freed: seq<int>

    constructor (root: int)
      requires root > 0
      ensures Valid() && fresh(lists) && tree == Nil && freed == [] && this.root == root
    {
      this.root := root;
      lists := new R.Lists();
      nodes := map[root := Node(0, "", true, [])];
      tree, freed := Nil, [];
      new;
      lists.Init(HeadOf(root));
    }

    ghost predicate Listed()
      reads this, lists
    {
      Rings(lists.next, lists.prev, nodes)
    }

    ghost predicate Valid()
      reads this, lists
    {
      Whole(nodes, tree, root) && Listed()
    }

    /** kfio_info_lookup_node: the first child of that name, or NULL. */
    method LookupNode(parent: int, name: string, ghost f: Forest) returns (r: int)
      requires Listed() && KidsAre(nodes, parent, f) && nodes[parent].dir
      ensures r == Head(Lookup(f, name))
    {
      ghost var g, at := f, 0;
      NextIs(lists.next, lists.prev, nodes, parent, 0);
      ListFacts(lists.next, lists.prev, nodes, parent);
      var entry := lists.next[HeadOf(parent)];
      while entry != HeadOf(parent)
        invariant entry == AddressOf(HeadOf(parent), Head(g)) && Behind(nodes[parent].kids, at) == Ptrs(g)
        invariant Holds(nodes, g, parent) && Lookup(g, name) == Lookup(f, name)
        decreases g
      {
        BehindNext(nodes[parent].kids, at, g.ptr, Ptrs(g.rest));
        BehindInside(nodes[parent].kids, at);
        var nodep := entry;
        if nodes[nodep].name == name {
          return nodep;
        }
        at := nodep;
        NextIs(lists.next, lists.prev, nodes, parent, at);
        entry := lists.next[entry];
        g := g.rest;
      }
      return 0;
    }

    /**
     kfio_info_insert_node.  The node's list entry, and its list head if it is a directory, are set up
     here too; the original does so when it allocates the node.  A node of the same name is only looked
     for below a real parent, not below the root that NULL stands for.  `backend` is what the OS backend
     answers.
     */
    method InsertNode(parent: int, x: int, name: string, dir: bool, backend: int) returns (rc: int)
      requires Valid() && x !in nodes && x > 0 && (parent != 0 ==> parent in nodes && nodes[parent].dir)
      modifies `nodes, `tree, lists
      ensures Valid()
      ensures rc == if parent != 0 && name in Names(KidsOf(old(tree), root, parent)) then EEXIST else backend
      ensures rc == 0 ==>
        tree == Grown(old(tree), root, if parent == 0 then root else parent, Cons(x, name, dir, Nil, Nil))
      ensures rc != 0 ==> tree == old(tree) && nodes == old(nodes)
    {
      KidsHeld(nodes, tree, root, if parent == 0 then root else parent);
      if parent != 0 {
        var twin := LookupNode(parent, name, KidsOf(tree, root, parent));
        LookupFails(KidsOf(tree, root, parent), name);
        HeadNotNull(nodes, KidsOf(tree, root, parent), parent, name);
        if twin != 0 {
          return EEXIST;
        }
      }
      rc := backend;
      if rc != 0 {
        return;
      }
      var p := if parent == 0 then root else parent;
      GrownHeld(nodes, tree, root, p, Cons(x, name, dir, Nil, Nil));
      LinkIn(p, x, name, dir);
      nodes := Grafted(nodes, p, x, name, dir);
      tree := Grown(tree, root, p, Cons(x, name, dir, Nil, Nil));
    }

    /** The new node's entry goes to the tail of its parent's list. */
    method LinkIn(p: int, x: int, name: string, dir: bool)
      requires Listed() && p in nodes && nodes[p].dir && x !in nodes && x > 0
      modifies lists
      ensures Rings(lists.next, lists.prev, Grafted(nodes, p, x, name, dir))
    {
      ghost var kids, n0, p0 := nodes[p].kids, lists.next, lists.prev;
      ListFacts(n0, p0, nodes, p);
      lists.Init(x);
      if dir {
        lists.Init(HeadOf(x));
      }
      R.RingFrame(n0, p0, lists.next, lists.prev, {x, HeadOf(x)}, HeadOf(p), kids);
      ghost var n1, p1 := lists.next, lists.prev;
      lists.AddTail(x, HeadOf(p), kids);
      if dir {
        R.RingFrame(n1, p1, lists.next, lists.prev, {x} + R.Entries(HeadOf(p), kids), HeadOf(x), []);
      }
      GraftKeepsRings(n0, p0, lists.next, lists.prev, nodes, p, x, name, dir);
    }

    /** kfio_info_unlink_node and kfio_info_free_node.  Only memory that is there can be freed. */
    method UnlinkAndFree(x: int)
      requires Listed() && x in nodes && nodes[x].parent != 0
      requires nodes[x].parent in nodes && nodes[x].parent != x && x in nodes[nodes[x].parent].kids
      modifies `nodes, `freed, lists
      ensures Listed() && nodes == Freed(old(nodes), x, old(nodes)[x].parent)
      ensures freed == old(freed) + [x]
    {
      var p := nodes[x].parent;
      if p != 0 {
        Unlink(x, p);
        nodes := nodes[p := nodes[p].(kids := Without(nodes[p].kids, x))];
      }
      nodes := nodes - {x};
      freed := freed + [x];
    }

    method Unlink(x: int, p: int)
      requires Listed() && p in nodes && x in nodes && p != x && x in nodes[p].kids
      modifies lists
      ensures Rings(lists.next, lists.prev, Freed(nodes, x, p))
    {
      ghost var kids, n0, p0 := nodes[p].kids, lists.next, lists.prev;
      assert ListOf(n0, p0, nodes, p);
      ListFacts(n0, p0, nodes, p);
      ghost var k :| 0 <= k < |kids| && kids[k] == x;
      WithoutAt(kids, k);
      lists.Del(x, HeadOf(p), kids, k);
      FreeKeepsRings(n0, p0, lists.next, lists.prev, nodes, Freed(nodes, x, p), p, x);
    }

    /**
     kfio_info_remove_node on a node that is not the root.  The nodes below it and it itself are freed
     in post-order, each once; it leaves its parent's list; the tree is the pruned one.
     */
    method RemoveNode(target: int)
      requires Valid() && target in Set(tree)
      modifies `nodes, `freed, `tree, lists
      ensures Valid() && tree == Prune(old(tree), target)
      ensures freed == old(freed) + Post(Below(old(tree), target)) + [target]
    {
      ghost var m, f, stop := nodes, Below(tree, target), ParentOf(tree, root, target);
      TargetFacts(nodes, tree, root, target);
      if nodes[target].dir {
        RemoveDir(target, f, stop);
      } else {
        assert Post(f) == [] && Set(f) + {target} == {target};
        UnlinkAndFree(target);
      }
      TreeAfter(m, nodes, tree, root, target);
      tree := Prune(tree, target);
    }

    /** The case of a directory: two nested loops that go down to first children and back up. */
    method RemoveDir(target: int, ghost f: Forest, ghost stop: int)
      requires Listed() && KidsAre(nodes, target, f) && nodes[target].dir && nodes[target].parent == stop
      requires Proper(f) && target !in Set(f) && target != 0
      requires stop in nodes && stop != 0 && stop !in Set(f) + {target} && target in nodes[stop].kids
      modifies `nodes, `freed, lists
      ensures Listed() && freed == old(freed) + Post(f) + [target]
      ensures Deleted(old(nodes), nodes, Set(f) + {target}, target, stop)
    {
      ghost var m, log := nodes, freed;
      var parent, end := target, nodes[target].parent;
      ghost var s := Push(target, f, Empty);
      StartsDeleting(m, log, f, target, stop);
      while parent != end
        invariant parent == Under(s, stop) && Deleting(nodes, freed, s, stop, target, m, log, f) && Listed()
        decreases Steps(s)
      {
        ghost var steps := Steps(s);
        var empty := ListEmpty(parent);
        while !empty
          invariant s.Push? && parent == s.ptr && Deleting(nodes, freed, s, stop, target, m, log, f) && Listed()
          invariant Steps(s) <= steps && empty == (nodes[parent].kids == [])
          decreases Steps(s)
        {
          ListFacts(lists.next, lists.prev, nodes, parent);
          var child := lists.next[HeadOf(parent)];
          if nodes[child].dir {
            GoesDown(nodes, freed, s, stop, target, m, log, f);
            parent := child;
            s := Push(s.todo.ptr, s.todo.kids, Push(s.ptr, s.todo.rest, s.below));
          } else {
            FreesLeaf(nodes, freed, s, stop, target, m, log, f);
            UnlinkAndFree(child);
            s := Push(s.ptr, s.todo.rest, s.below);
          }
          empty := ListEmpty(parent);
        }
        var child := parent;
        GoesUp(nodes, freed, s, stop, target, m, log, f);
        parent := nodes[parent].parent;
        UnlinkAndFree(child);
        s := s.below;
      }
    }

    /** fusion_list_empty on a directory's list. */
    method ListEmpty(dir: int) returns (empty: bool)
      requires Listed() && dir in nodes && nodes[dir].dir
      ensures empty == (nodes[dir].kids == [])
    {
      ListFacts(lists.next, lists.prev, nodes, dir);
      empty := lists.next[HeadOf(dir)] == HeadOf(dir);
    }
  }

  // ---------------------------------------------------------------- the steps of the delete loop

  /** The outermost directory of a stack. */
  function Last(s: Stack): int
    requires s.Push?
  {
    if s.below.Empty? then s.ptr else Last(s.below)
  }

  /** Where the delete of `dir`, with f below it, stands: m and log are memory and freed nodes before it. */
  ghost predicate Deleting(nodes: Memory, freed: seq<int>, s: Stack, stop: int, dir: int, m: Memory, log: seq<int>,
                           f: Forest) {
    && ProperStack(s) && HoldsStack(nodes, s, stop, []) && (s.Push? ==> Last(s) == dir)
    && freed + Work(s) == log + Post(f) + [dir]
    && Kept(nodes, s, stop, dir, m, f)
  }

  /** Memory outside what is deleted. */
  ghost predicate Kept(nodes: Memory, s: Stack, stop: int, dir: int, m: Memory, f: Forest) {
    && stop in nodes && stop in m && stop != 0 && stop !in Set(f) + {dir}
    && Members(s) <= Set(f) + {dir}
    && nodes.Keys == m.Keys - (Set(f) + {dir}) + Members(s)
    && (forall y :: y in m && y !in Set(f) + {dir} && y != stop ==> y in nodes && nodes[y] == m[y])
    && dir in m[stop].kids
    && nodes[stop] == if s.Push? then m[stop] else m[stop].(kids := Without(m[stop].kids, dir))
  }

  lemma {:induction false} StartsDeleting(m: Memory, log: seq<int>, f: Forest, dir: int, stop: int)
    requires dir in m && m[dir].dir && m[dir].parent == stop && m[dir].kids == Ptrs(f)
    requires Holds(m, f, dir) && Proper(f) && dir !in Set(f) && dir != 0
    requires stop in m && stop != 0 && stop !in Set(f) + {dir} && dir in m[stop].kids
    ensures Deleting(m, log, Push(dir, f, Empty), stop, dir, m, log, f)
  {
    HeldPtrs(m, f, dir);
    assert Work(Push(dir, f, Empty)) == Post(f) + [dir] + [];
    assert [] + Ptrs(f) == Ptrs(f);
  }

  lemma {:induction false} GoesDown(nodes: Memory, freed: seq<int>, s: Stack, stop: int, dir: int, m: Memory,
                                    log: seq<int>, f: Forest)
    requires Deleting(nodes, freed, s, stop, dir, m, log, f) && s.Push? && s.todo.Cons? && s.todo.dir
    ensures var s' := Push(s.todo.ptr, s.todo.kids, Push(s.ptr, s.todo.rest, s.below));
      Deleting(nodes, freed, s', stop, dir, m, log, f) && Steps(s') < Steps(s)
  {
    MoveDown(nodes, s, stop);
    var s' := Push(s.todo.ptr, s.todo.kids, Push(s.ptr, s.todo.rest, s.below));
    assert Members(s') == Members(s);
  }

  lemma {:induction false} FreesLeaf(nodes: Memory, freed: seq<int>, s: Stack, stop: int, dir: int, m: Memory,
                                     log: seq<int>, f: Forest)
    requires Deleting(nodes, freed, s, stop, dir, m, log, f) && s.Push? && s.todo.Cons? && !s.todo.dir
    ensures s.todo.ptr in nodes && s.ptr in nodes && nodes[s.todo.ptr].parent == s.ptr != 0
    ensures s.todo.ptr != s.ptr && s.todo.ptr in nodes[s.ptr].kids
    ensures var s' := Push(s.ptr, s.todo.rest, s.below);
      Deleting(Freed(nodes, s.todo.ptr, s.ptr), freed + [s.todo.ptr], s', stop, dir, m, log, f) && Steps(s') < Steps(s)
  {
    FreeLeaf(nodes, s, stop);
    var s' := Push(s.ptr, s.todo.rest, s.below);
    assert freed + [s.todo.ptr] + Work(s') == freed + ([s.todo.ptr] + Work(s'));
    assert Members(s) == Members(s') + {s.todo.ptr};
    assert s.todo.ptr !in Members(s');
  }

  /** The innermost directory is on the list of the node it hangs off. */
  lemma {:induction false} OnParentsList(nodes: Memory, s: Stack, stop: int, dir: int, m: Memory, f: Forest)
    requires s.Push? && ProperStack(s) && HoldsStack(nodes, s, stop, []) && Last(s) == dir
    requires Kept(nodes, s, stop, dir, m, f)
    ensures var q := Under(s.below, stop);
      q != 0 && q in nodes && q != s.ptr && s.ptr in nodes[q].kids
  {
    if s.below.Push? {
      assert HoldsStack(nodes, s.below, stop, [s.ptr]) && ProperStack(s.below);
      assert nodes[s.below.ptr].kids[0] == s.ptr;
    }
  }

  lemma {:induction false} GoesUp(nodes: Memory, freed: seq<int>, s: Stack, stop: int, dir: int, m: Memory,
                                  log: seq<int>, f: Forest)
    requires Deleting(nodes, freed, s, stop, dir, m, log, f) && s.Push? && s.todo.Nil?
    ensures s.ptr in nodes && nodes[s.ptr].parent == Under(s.below, stop) != 0 && Under(s.below, stop) in nodes
    ensures Under(s.below, stop) != s.ptr && s.ptr in nodes[Under(s.below, stop)].kids
    ensures Deleting(Freed(nodes, s.ptr, Under(s.below, stop)), freed + [s.ptr], s.below, stop, dir, m, log, f)
    ensures Steps(s.below) < Steps(s)
  {
    MoveUp(nodes, s, stop);
    OnParentsList(nodes, s, stop, dir, m, f);
    assert freed + [s.ptr] + Work(s.below) == freed + ([s.ptr] + Work(s.below));
    assert Members(s) == Members(s.below) + {s.ptr};
  }

  /** A node is on its parent's list. */
  lemma {:induction false} InParentsList(m: Memory, f: Forest, top: int, x: int)
    requires Proper(f) && Holds(m, f, top) && x in Set(f) && top !in Set(f)
    ensures x in Ptrs(f) || (ParentOf(f, top, x) in m && x in m[ParentOf(f, top, x)].kids)
    ensures x in Ptrs(f) ==> ParentOf(f, top, x) == top
  {
    BelowInside(f, top, x);
    if f.ptr != x {
      if x in Set(f.kids) {
        InParentsList(m, f.kids, f.ptr, x);
      } else {
        InParentsList(m, f.rest, top, x);
      }
    }
  }

  lemma {:induction false} TargetFacts(m: Memory, f: Forest, root: int, x: int)
    requires Whole(m, f, root) && x in Set(f)
    ensures var b, p := Below(f, x), ParentOf(f, root, x);
      && x in m && x != 0 && m[x].parent == p && m[x].kids == Ptrs(b) && (!m[x].dir ==> b == Nil)
      && Holds(m, b, x) && Proper(b) && x !in Set(b)
      && p in m && p != 0 && p !in Set(b) + {x} && x in m[p].kids
  {
    BelowIsHeld(m, f, root, x);
    BelowInside(f, root, x);
    InParentsList(m, f, root, x);
    if ParentOf(f, root, x) in Set(f) {
      BelowIsHeld(m, f, root, ParentOf(f, root, x));
    }
  }

  /** After the delete memory holds the pruned tree. */
  lemma {:induction false} TreeAfter(m: Memory, m': Memory, f: Forest, root: int, x: int)
    requires Whole(m, f, root) && x in Set(f)
    requires Deleted(m, m', Set(Below(f, x)) + {x}, x, ParentOf(f, root, x))
    ensures Whole(m', Prune(f, x), root)
  {
    TargetFacts(m, f, root, x);
    BelowInside(f, root, x);
    DeletedHolds(m, m', f, root, x, Set(Below(f, x)) + {x}, ParentOf(f, root, x));
    PruneSet(f, x);
    PrunePtrs(f, x);
    if ParentOf(f, root, x) != root {
      WithoutAbsent(Ptrs(f), x);
    }
  }
}
