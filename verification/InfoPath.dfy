/** Printing the path of a node and finding the node of a path, over character buffers. */
module InfoPath {
  import opened InfoForest
  import opened InfoNames
  import opened InfoTree
  import opened Machine

  /** The buffer holds a string of n characters. */
  ghost predicate CString(s: seq<char>, n: nat) {
    n < |s| && s[n] == '\0' && '\0' !in s[..n]
  }

  // ---------------------------------------------------------------- finding

  lemma {:induction false} WordEnds(s: string, p: nat, q: nat)
    requires p <= q <= |s| && (q < |s| ==> s[q] == '.') && '.' !in s[p..q]
    ensures Word(s[p..]) == q - p
  {
    assert s[p..] == s[p..q] + s[q..];
    WordOf(s[p..q], s[q..]);
  }

  /** One component further. */
  lemma {:induction false} FirstComponent(s: string, p: nat, q: nat)
    requires p < q <= |s| && (q < |s| ==> s[q] == '.') && '.' !in s[p..q]
    ensures Components(s[p..]) == [s[p..q]] + Components(s[q..])
  {
    WordEnds(s, p, q);
    assert s[p..][0] == s[p..q][0];
    assert s[p..][..q - p] == s[p..q] && s[p..][q - p..] == s[q..];
  }

  /** The string that starts at p, as strcmp reads it. */
  method StringAt(a: array<char>, p: nat, ghost q: nat) returns (s: string)
    requires p <= q < a.Length && a[q] == '\0' && forall k :: p <= k < q ==> a[k] != '\0'
    ensures s == a[p..q]
  {
    s := [];
    var i := p;
    while a[i] != '\0'
      invariant p <= i <= q && s == a[p..i]
      decreases q - i
    {
      assert a[p..i + 1] == a[p..i] + [a[i]];
      s := s + [a[i]];
      i := i + 1;
    }
  }

  /** Node x is in memory with the children f. */
  ghost predicate At(m: Memory, f: Forest, x: int) {
    x in m && m[x].kids == Ptrs(f) && Holds(m, f, x) && Proper(f) && (!m[x].dir ==> f == Nil)
  }

  lemma {:induction false} ChildAt(m: Memory, f: Forest, x: int, name: string)
    requires At(m, f, x) && Lookup(f, name).Cons?
    ensures At(m, Lookup(f, name).kids, Lookup(f, name).ptr) && Lookup(f, name).ptr != 0
  {
    LookupHeld(m, f, x, name);
  }

  method SkipSeparators(a: array<char>, from: nat, ghost n: nat) returns (p: nat)
    requires from <= n && CString(a[..], n)
    ensures from <= p <= n && a[p] != '.' && Components(a[..n][p..]) == Components(a[..n][from..])
  {
    p := from;
    while a[p] == '.'
      invariant from <= p <= n && Components(a[..n][p..]) == Components(a[..n][from..])
      decreases n - p
    {
      p := p + 1;
    }
  }

  method WordEnd(a: array<char>, p: nat, ghost n: nat) returns (q: nat)
    requires p <= n && CString(a[..], n)
    ensures p <= q <= n && '.' !in a[p..q] && (q < n ==> a[q] == '.')
  {
    q := p;
    while a[q] != '\0' && a[q] != '.'
      invariant p <= q <= n && '.' !in a[p..q]
      decreases n - q
    {
      assert q < n;
      assert a[p..q + 1] == a[p..q] + [a[q]];
      q := q + 1;
    }
    assert q < n ==> a[q] in a[..n];
  }

  /** The child a component names, with the separator behind the component overwritten meanwhile. */
  method Descend(info: Info, nodep: int, ghost f: Forest, a: array<char>, p: nat, q: nat, ghost n: nat)
    returns (child: int, ghost f': Forest)
    requires info.Listed() && At(info.nodes, f, nodep) && CString(a[..], n) && p <= q <= n
    modifies a
    ensures a[..] == old(a[..])
    ensures var g := Lookup(f, old(a[p..q]));
      if g.Nil? then child == 0 else child == g.ptr != 0 && f' == g.kids && At(info.nodes, f', child)
  {
    ghost var g, name := Lookup(f, a[p..q]), a[p..q];
    f' := Nil;
    if g.Cons? {
      ChildAt(info.nodes, f, nodep, name);
      f' := g.kids;
    }
    assert forall k :: p <= k < q ==> a[k] == a[..n][k];
    var orig := a[q];
    a[q] := '\0';
    assert a[p..q] == name;
    if info.nodes[nodep].dir {
      var word := StringAt(a, p, q);
      child := info.LookupNode(nodep, word, f);
    } else {
      child := 0;
    }
    a[q] := orig;
  }

  /**
   kfio_info_find_node.  The node whose path the components of the string are, or NULL if there is none;
   the separators that are overwritten on the way are put back.
   */
  method FindNode(info: Info, top: int, a: array<char>, ghost n: nat) returns (nodep: int)
    requires info.Valid() && (top == 0 || top in info.nodes) && CString(a[..], n)
    modifies a
    ensures a[..] == old(a[..])
    ensures nodep == if top == 0 then 0 else Resolve(KidsOf(info.tree, info.root, top), top, Components(a[..n]))
    ensures top != 0 ==> Named(KidsOf(info.tree, info.root, top), top, Components(a[..n]), nodep)
  {
    nodep := top;
    if top == 0 {
      return;
    }
    ghost var s, all := a[..n], a[..];
    ghost var f := KidsOf(info.tree, info.root, top);
    ghost var goal := Resolve(f, top, Components(s));
    KidsHeld(info.nodes, info.tree, info.root, top);
    ResolveNames(f, top, Components(s));
    var p := 0;
    assert s[0..] == s;
    while nodep != 0
      invariant 0 <= p <= n && a[..] == all
      invariant nodep == 0 ==> goal == 0
      invariant nodep != 0 ==> At(info.nodes, f, nodep) && goal == Resolve(f, nodep, Components(s[p..]))
      decreases nodep != 0, n - p
    {
      assert a[..n] == s;
      p := SkipSeparators(a, p, n);
      var q := WordEnd(a, p, n);
      if p == q {
        assert p == n && s[p..] == "";
        return;
      }
      assert s[p..q] == a[p..q];
      FirstComponent(s, p, q);
      nodep, f := Descend(info, nodep, f, a, p, q, n);
      p := q;
    }
  }

  // ---------------------------------------------------------------- printing

  /** The names from below top down to x. */
  ghost function PathFrom(f: Forest, top: int, x: int): seq<string> {
    if x == top then [] else PathTo(f, x)
  }

  lemma {:induction false} PathFromClimbs(m: Memory, f: Forest, top: int, x: int)
    requires Proper(f) && Holds(m, f, top) && x in Set(f) && top !in Set(f)
    ensures x in m && m[x].parent in Set(f) + {top}
    ensures PathFrom(f, top, x) == PathFrom(f, top, m[x].parent) + [m[x].name]
  {
    PathClimbs(m, f, top, x);
  }

  /** The printed path of a node is that of its parent, its name, and a separator. */
  lemma {:induction false} PrintedClimbs(m: Memory, f: Forest, top: int, x: int)
    requires Proper(f) && Holds(m, f, top) && x in Set(f) && top !in Set(f)
    ensures x in m && m[x].parent in Set(f) + {top}
    ensures |PathFrom(f, top, x)| == |PathFrom(f, top, m[x].parent)| + 1
    ensures Printed(f, top, x) == Printed(f, top, m[x].parent) + (m[x].name + ".")
  {
    PathFromClimbs(m, f, top, x);
    DotsAppend(PathFrom(f, top, m[x].parent), m[x].name);
  }

  ghost function Printed(f: Forest, top: int, x: int): string {
    Dots(PathFrom(f, top, x))
  }

  /** kfio_memcpy of a name into the buffer. */
  method Put(a: array<char>, at: nat, name: string)
    requires at + |name| <= a.Length
    modifies a
    ensures forall k :: 0 <= k < |name| ==> a[at + k] == name[k]
    ensures forall k :: 0 <= k < at || at + |name| <= k < a.Length ==> a[k] == old(a[k])
  {
    for i := 0 to |name|
      invariant forall k :: 0 <= k < i ==> a[at + k] == name[k]
      invariant forall k :: 0 <= k < at || at + |name| <= k < a.Length ==> a[k] == old(a[k])
    {
      a[at + i] := name[i];
    }
  }

  /** kfio_memmove of n characters to the front of the buffer. */
  method MoveToFront(a: array<char>, from: nat, n: nat)
    requires from + n <= a.Length
    modifies a
    ensures a[..n] == old(a[from..from + n])
  {
    for i := 0 to n
      invariant a[..i] == old(a[from..from + i]) && forall k :: from + i <= k < a.Length ==> a[k] == old(a[k])
    {
      a[i] := a[from + i];
    }
  }

  /**
   kfio_info_node_pathname.  Prints from the right end of the buffer leftwards while climbing, then
   moves the path to the front.  It fails exactly when the components and one separator each do not fit.
   */
  method Pathname(info: Info, top: int, node: int, a: array<char>, len: nat) returns (r: int)
    requires info.Valid() && top in info.nodes && node in Set(KidsOf(info.tree, info.root, top)) + {top}
    requires len <= a.Length && a.Length > 0
    modifies a
    ensures var path := PathFrom(KidsOf(info.tree, info.root, top), top, node);
      if |Dots(path)| > len then r == EINVAL
      else 0 <= r < a.Length && r == |Join(path)| && a[..r] == Join(path) && a[r] == '\0'
  {
    ghost var f := KidsOf(info.tree, info.root, top);
    ghost var total, printed := Printed(f, top, node), "";
    KidsHeld(info.nodes, info.tree, info.root, top);
    var nodep, cur := node, len;
    while nodep != top
      invariant nodep in Set(f) + {top} && Printed(f, top, nodep) + printed == total
      invariant 0 <= cur && cur + |printed| == len && a[cur..len] == printed
      decreases |PathFrom(f, top, nodep)|
    {
      PrintedClimbs(info.nodes, f, top, nodep);
      var name := info.nodes[nodep].name;
      if cur < |name| + 1 {
        return EINVAL;
      }
      var at := cur - (|name| + 1);
      PutComponent(a, at, name, cur, len);
      cur := at;
      nodep := info.nodes[nodep].parent;
      printed := name + "." + printed;
    }
    r := Finish(a, cur, len, PathFrom(f, top, node));
  }

  /** A name and the separator behind it, in front of what was printed already. */
  method PutComponent(a: array<char>, at: nat, name: string, cur: nat, len: nat)
    requires at + |name| + 1 == cur <= len <= a.Length
    modifies a
    ensures a[at..len] == name + "." + old(a[cur..len])
  {
    var mid := at + |name|;
    ghost var right := a[cur..len];
    Put(a, at, name);
    a[mid] := '.';
    assert a[at..mid] == name && a[cur..len] == right;
    assert a[at..len] == a[at..mid] + [a[mid]] + a[cur..len];
  }

  /** Trim the last separator, move the path to the front, end the string. */
  method Finish(a: array<char>, cur: nat, len: nat, ghost path: seq<string>) returns (sln: nat)
    requires cur <= len <= a.Length && a.Length > 0 && a[cur..len] == Dots(path)
    modifies a
    ensures sln < a.Length && sln == |Join(path)| && a[..sln] == Join(path) && a[sln] == '\0'
  {
    sln := len - cur;
    if sln > 0 {
      sln := sln - 1;
    }
    assert Join(path) == a[cur..len][..sln];
    if cur > 0 {
      MoveToFront(a, cur, sln);
    }
    a[sln] := '\0';
  }

  // ---------------------------------------------------------------- the round trip

  lemma {:induction false} JoinNoNul(names: seq<string>)
    requires forall i :: 0 <= i < |names| ==> '\0' !in names[i]
    ensures '\0' !in Dots(names) && '\0' !in Join(names)
  {
    if names != [] {
      JoinNoNul(names[1..]);
    }
  }

  /** Print the path of a node and look it up again: the node, and the string as it was printed. */
  method PrintAndFind(info: Info, top: int, node: int, a: array<char>, len: nat) returns (r: int, found: int)
    requires info.Valid() && Unique(info.tree) && GoodNames(info.tree)
    requires top in info.nodes && node in Set(KidsOf(info.tree, info.root, top)) + {top}
    requires len <= a.Length && a.Length > 0
    modifies a
    ensures var path := PathFrom(KidsOf(info.tree, info.root, top), top, node);
      |Dots(path)| <= len ==> found == node && r == |Join(path)| && r < a.Length && a[..r] == Join(path)
  {
    ghost var f := KidsOf(info.tree, info.root, top);
    ghost var path := PathFrom(f, top, node);
    r := Pathname(info, top, node, a, len);
    found := 0;
    if r >= 0 {
      KidsHeld(info.nodes, info.tree, info.root, top);
      KidsNamed(info.tree, info.root, top);
      if node != top {
        PathGood(f, node);
        PathRoundTrip(f, top, node);
      }
      JoinNoNul(path);
      ghost var shown := a[..r];
      found := FindNode(info, top, a, r);
      assert a[..r] == shown;
    }
  }

  lemma {:induction false} KidsNamed(f: Forest, root: int, x: int)
    requires Unique(f) && GoodNames(f)
    ensures Unique(KidsOf(f, root, x)) && GoodNames(KidsOf(f, root, x))
  {
    if x != root {
      BelowNamed(f, x);
    }
  }

  lemma {:induction false} BelowNamed(f: Forest, x: int)
    requires Unique(f) && GoodNames(f)
    ensures Unique(Below(f, x)) && GoodNames(Below(f, x))
  {
    if f.Cons? {
      BelowNamed(f.kids, x);
      BelowNamed(f.rest, x);
    }
  }
}
