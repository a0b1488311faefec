/** Names in the info tree: insertion, paths, and how a path finds its node. */
module InfoNames {
  import opened InfoForest
  import opened InfoRings

  // ---------------------------------------------------------------- siblings

  function Names(f: Forest): seq<string> {
    if f.Nil? then [] else [f.name] + Names(f.rest)
  }

  /** No two siblings share a name. */
  ghost predicate Unique(f: Forest) {
    f.Cons? ==> f.name !in Names(f.rest) && Unique(f.kids) && Unique(f.rest)
  }

  /** Names are not empty and hold neither the separator nor the end of a string. */
  predicate GoodName(name: string) {
    name != "" && '.' !in name && '\0' !in name
  }

  ghost predicate GoodNames(f: Forest) {
    f.Cons? ==> GoodName(f.name) && GoodNames(f.kids) && GoodNames(f.rest)
  }

  /** The list from the first sibling of that name on. */
  function Lookup(f: Forest, name: string): Forest {
    if f.Nil? || f.name == name then f else Lookup(f.rest, name)
  }

  lemma {:induction false} LookupFails(f: Forest, name: string)
    ensures Lookup(f, name).Nil? <==> name !in Names(f)
  {
    if f.Cons? {
      LookupFails(f.rest, name);
    }
  }

  /** A lookup gives the first sibling of that name: those before it have other names. */
  lemma {:induction false} LookupIsFirst(f: Forest, name: string) returns (k: nat)
    requires Lookup(f, name).Cons?
    ensures k < |Ptrs(f)| == |Names(f)| && Names(f)[k] == name && name !in Names(f)[..k]
    ensures Ptrs(f)[k] == Lookup(f, name).ptr && Ptrs(f)[k..] == Ptrs(Lookup(f, name))
  {
    if f.name == name {
      k := 0;
      SameCount(f);
    } else {
      k := LookupIsFirst(f.rest, name);
      assert Names(f)[1..] == Names(f.rest) && Ptrs(f)[1..] == Ptrs(f.rest);
      k := k + 1;
      assert Names(f)[..k] == [f.name] + Names(f.rest)[..k - 1];
      assert Ptrs(f)[k..] == Ptrs(f.rest)[k - 1..];
    }
  }

  lemma {:induction false} SameCount(f: Forest)
    ensures |Ptrs(f)| == |Names(f)|
  {
    if f.Cons? {
      SameCount(f.rest);
    }
  }

  lemma {:induction false} LookupHeld(m: Memory, f: Forest, top: int, name: string)
    requires Holds(m, f, top) && Proper(f)
    ensures Holds(m, Lookup(f, name), top) && Proper(Lookup(f, name))
    ensures Lookup(f, name).Cons? ==> Lookup(f, name).ptr in Set(f)
    ensures Set(Lookup(f, name)) <= Set(f)
  {
    if f.Cons? {
      LookupHeld(m, f.rest, top, name);
    }
  }

  // ---------------------------------------------------------------- insertion

  function Append(f: Forest, g: Forest): Forest {
    if f.Nil? then g else f.(rest := Append(f.rest, g))
  }

  /** The forest with g behind the children of node q. */
  function Graft(f: Forest, q: int, g: Forest): Forest {
    if f.Nil? then Nil
    else if f.ptr == q then f.(kids := Append(f.kids, g))
    else f.(kids := Graft(f.kids, q, g), rest := Graft(f.rest, q, g))
  }

  lemma {:induction false} AppendLeaf(f: Forest, g: Forest)
    requires g.Cons? && g.rest == Nil && g.kids == Nil
    ensures Names(Append(f, g)) == Names(f) + [g.name] && Ptrs(Append(f, g)) == Ptrs(f) + [g.ptr]
    ensures Set(Append(f, g)) == Set(f) + {g.ptr}
    ensures Unique(Append(f, g)) <==> Unique(f) && g.name !in Names(f)
    ensures Proper(f) && g.ptr != 0 && g.ptr !in Set(f) ==> Proper(Append(f, g))
  {
    if f.Cons? {
      AppendLeaf(f.rest, g);
    }
  }

  lemma {:induction false} AppendHeld(m: Memory, f: Forest, g: Forest, top: int)
    requires Holds(m, f, top) && Holds(m, g, top)
    ensures Holds(m, Append(f, g), top)
  {
    if f.Cons? {
      AppendHeld(m, f.rest, g, top);
    }
  }

  lemma {:induction false} GraftAbsent(f: Forest, q: int, g: Forest)
    requires q !in Set(f)
    ensures Graft(f, q, g) == f
  {
    if f.Cons? {
      GraftAbsent(f.kids, q, g);
      GraftAbsent(f.rest, q, g);
    }
  }

  lemma {:induction false} GraftLeaf(f: Forest, q: int, g: Forest)
    requires g.Cons? && g.rest == Nil && g.kids == Nil && Proper(f) && q in Set(f)
    ensures Names(Graft(f, q, g)) == Names(f) && Ptrs(Graft(f, q, g)) == Ptrs(f)
    ensures Set(Graft(f, q, g)) == Set(f) + {g.ptr}
    ensures Unique(Graft(f, q, g)) <==> Unique(f) && g.name !in Names(Below(f, q))
  {
    if f.ptr == q {
      AppendLeaf(f.kids, g);
    } else if q in Set(f.kids) {
      GraftLeaf(f.kids, q, g);
      GraftAbsent(f.rest, q, g);
    } else {
      GraftLeaf(f.rest, q, g);
      GraftAbsent(f.kids, q, g);
    }
  }

  lemma {:induction false} GraftProper(f: Forest, q: int, g: Forest, m: Memory, top: int)
    requires g.Cons? && g.rest == Nil && g.kids == Nil && Proper(f) && q in Set(f) && g.ptr != 0 && g.ptr !in Set(f)
    requires Holds(m, f, top) && q in m && m[q].dir
    ensures Proper(Graft(f, q, g))
  {
    if f.ptr == q {
      AppendLeaf(f.kids, g);
    } else if q in Set(f.kids) {
      GraftProper(f.kids, q, g, m, f.ptr);
      GraftAbsent(f.rest, q, g);
      GraftLeaf(f.kids, q, g);
    } else {
      GraftProper(f.rest, q, g, m, top);
      GraftAbsent(f.kids, q, g);
      GraftLeaf(f.rest, q, g);
    }
  }

  lemma {:induction false} GraftHeld(m: Memory, f: Forest, top: int, q: int, g: Forest)
    requires g.Cons? && g.rest == Nil && g.kids == Nil && Proper(f) && Holds(m, f, top)
    requires q in m && g.ptr !in m
    ensures Holds(Grafted(m, q, g.ptr, g.name, g.dir), Graft(f, q, g), top)
  {
    var m' := Grafted(m, q, g.ptr, g.name, g.dir);
    if f.Cons? {
      HeldPtrs(m, f, top);
      if f.ptr == q {
        HoldsFrame(m, m', f.kids, q);
        HoldsFrame(m, m', f.rest, top);
        AppendHeld(m', f.kids, g, q);
        AppendLeaf(f.kids, g);
      } else {
        GraftHeld(m, f.kids, f.ptr, q, g);
        GraftHeld(m, f.rest, top, q, g);
        if q in Set(f.kids) {
          GraftLeaf(f.kids, q, g);
        } else {
          GraftAbsent(f.kids, q, g);
        }
      }
    }
  }

  // ---------------------------------------------------------------- paths

  /** The names from a child of the top down to node x. */
  function PathTo(f: Forest, x: int): seq<string> {
    if f.Nil? then [] else if f.ptr == x then [f.name]
    else if x in Set(f.kids) then [f.name] + PathTo(f.kids, x) else PathTo(f.rest, x)
  }

  /** The node some names lead to, or NULL. */
  function Resolve(f: Forest, top: int, names: seq<string>): int
    decreases |names|
  {
    if names == [] then top
    else
      var g := Lookup(f, names[0]);
      if g.Nil? then 0 else Resolve(g.kids, g.ptr, names[1..])
  }

  /** Climbing from x to its parent takes one name off the path. */
  lemma {:induction false} PathClimbs(m: Memory, f: Forest, top: int, x: int)
    requires Proper(f) && Holds(m, f, top) && x in Set(f) && top !in Set(f)
    ensures x in m && m[x].parent in Set(f) + {top}
    ensures PathTo(f, x) == (if m[x].parent == top then [] else PathTo(f, m[x].parent)) + [m[x].name]
  {
    BelowIsHeld(m, f, top, x);
    BelowInside(f, top, x);
    if f.ptr == x {
    } else if x in Set(f.kids) {
      PathClimbs(m, f.kids, f.ptr, x);
    } else {
      PathClimbs(m, f.rest, top, x);
    }
  }

  lemma {:induction false} LookupFinds(f: Forest, x: int)
    requires Proper(f) && Unique(f) && x in Set(f)
    ensures PathTo(f, x) != []
    ensures var g := Lookup(f, PathTo(f, x)[0]);
      && g.Cons? && (g.ptr == x || x in Set(g.kids)) && Proper(g.kids) && Unique(g.kids)
      && PathTo(f, x)[1..] == (if g.ptr == x then [] else PathTo(g.kids, x))
  {
    if f.ptr != x && x !in Set(f.kids) {
      LookupFinds(f.rest, x);
      var name := PathTo(f, x)[0];
      LookupFails(f.rest, name);
    }
  }

  /** In a tree with unique sibling names the path of a node leads to it. */
  lemma {:induction false} ResolvePath(f: Forest, top: int, x: int)
    requires Proper(f) && Unique(f) && x in Set(f)
    ensures Resolve(f, top, PathTo(f, x)) == x
    decreases |PathTo(f, x)|
  {
    LookupFinds(f, x);
    var g := Lookup(f, PathTo(f, x)[0]);
    if g.ptr != x {
      ResolvePath(g.kids, g.ptr, x);
    }
  }

  /** The path of a node at or below the first sibling of some name begins there. */
  lemma {:induction false} PathVia(f: Forest, name: string, x: int)
    requires Proper(f) && Lookup(f, name).Cons?
    requires x == Lookup(f, name).ptr || x in Set(Lookup(f, name).kids)
    ensures var g := Lookup(f, name);
      x in Set(f) && g.name == name && PathTo(f, x) == [name] + if x == g.ptr then [] else PathTo(g.kids, x)
  {
    if f.name != name {
      PathVia(f.rest, name, x);
    }
  }

  lemma {:induction false} LookupProper(f: Forest, name: string)
    requires Proper(f)
    ensures Proper(Lookup(f, name)) && (Lookup(f, name).Cons? ==> Lookup(f, name).ptr !in Set(Lookup(f, name).kids))
  {
    if f.Cons? {
      LookupProper(f.rest, name);
    }
  }

  /** What some names resolve to is a node with this path. */
  lemma {:induction false} ResolvesToPath(f: Forest, top: int, names: seq<string>)
    requires Proper(f) && names != [] && Resolve(f, top, names) != 0
    ensures Resolve(f, top, names) in Set(f) && PathTo(f, Resolve(f, top, names)) == names
    decreases |names|
  {
    var g, rest, x := Lookup(f, names[0]), names[1..], Resolve(f, top, names);
    LookupProper(f, names[0]);
    assert g.Cons?;
    if rest != [] {
      ResolvesToPath(g.kids, g.ptr, rest);
    }
    PathVia(f, names[0], x);
    assert names == [names[0]] + rest;
  }

  /** With unique sibling names, names resolve to a node if and only if they are its path, and else to NULL. */
  lemma {:induction false} ResolveIff(f: Forest, top: int, names: seq<string>, x: int)
    requires Proper(f) && Unique(f) && names != []
    ensures x != 0 ==> (Resolve(f, top, names) == x <==> x in Set(f) && PathTo(f, x) == names)
    ensures Resolve(f, top, names) == 0 ==> !(x in Set(f) && PathTo(f, x) == names)
  {
    if Resolve(f, top, names) != 0 {
      ResolvesToPath(f, top, names);
    }
    if x in Set(f) && PathTo(f, x) == names {
      ResolvePath(f, top, x);
      NoNull(f, x);
    }
  }

  /** x is what some names name below f, `top` being what no names name. */
  ghost predicate Named(f: Forest, top: int, names: seq<string>, x: int) {
    if names == [] then x == top
    else if x == 0 then Unique(f) ==> forall y :: y in Set(f) ==> PathTo(f, y) != names
    else x in Set(f) && PathTo(f, x) == names
  }

  lemma {:induction false} ResolveNames(f: Forest, top: int, names: seq<string>)
    requires Proper(f)
    ensures Named(f, top, names, Resolve(f, top, names))
  {
    if names != [] {
      if Resolve(f, top, names) != 0 {
        ResolvesToPath(f, top, names);
      } else if Unique(f) {
        forall y | y in Set(f)
          ensures PathTo(f, y) != names
        {
          ResolveIff(f, top, names, y);
        }
      }
    }
  }

  lemma {:induction false} NoNull(f: Forest, x: int)
    requires Proper(f) && x in Set(f)
    ensures x != 0
  {
    if f.ptr != x {
      if x in Set(f.kids) {
        NoNull(f.kids, x);
      } else {
        NoNull(f.rest, x);
      }
    }
  }

  lemma {:induction false} PathGood(f: Forest, x: int)
    requires GoodNames(f) && x in Set(f)
    ensures forall i :: 0 <= i < |PathTo(f, x)| ==> GoodName(PathTo(f, x)[i])
  {
    if f.ptr != x {
      if x in Set(f.kids) {
        PathGood(f.kids, x);
      } else {
        PathGood(f.rest, x);
      }
    }
  }

  // ---------------------------------------------------------------- paths as strings

  /** Every name followed by a separator. */
  function Dots(names: seq<string>): string {
    if names == [] then "" else names[0] + "." + Dots(names[1..])
  }

  /** The names with separators between them. */
  function Join(names: seq<string>): string {
    var s := Dots(names);
    if s == "" then "" else s[..|s| - 1]
  }

  function SkipDots(s: string): (t: string)
    ensures |t| <= |s| && (t == "" || t[0] != '.')
  {
    if s != "" && s[0] == '.' then SkipDots(s[1..]) else s
  }

  /** The length of the first component. */
  function Word(s: string): (n: nat)
    ensures n <= |s| && (s != "" && s[0] != '.' ==> n > 0)
  {
    if s == "" || s[0] == '.' then 0 else 1 + Word(s[1..])
  }

  /** A path cut at its separators; empty components do not count. */
  function Components(s: string): seq<string>
    decreases |s|
  {
    var t := SkipDots(s);
    if t == "" then [] else [t[..Word(t)]] + Components(t[Word(t)..])
  }

  lemma {:induction false} DotsAppend(names: seq<string>, name: string)
    ensures Dots(names + [name]) == Dots(names) + name + "."
  {
    if names != [] {
      DotsAppend(names[1..], name);
      assert (names + [name])[1..] == names[1..] + [name];
    }
  }

  lemma {:induction false} WordOf(name: string, rest: string)
    requires '.' !in name && (rest == "" || rest[0] == '.')
    ensures Word(name + rest) == |name|
  {
    if name == "" {
      assert name + rest == rest;
    } else {
      assert (name + rest)[1..] == name[1..] + rest;
      WordOf(name[1..], rest);
    }
  }

  /** A separator cuts a string in two, each cut for itself. */
  lemma {:induction false} ComponentsSplit(a: string, b: string)
    ensures Components(a + "." + b) == Components(a) + Components(b)
    decreases |a|
  {
    if a == "" {
      assert a + "." + b == "." + b;
      assert ("." + b)[1..] == b;
    } else if a[0] == '.' {
      assert (a + "." + b)[1..] == a[1..] + "." + b;
      ComponentsSplit(a[1..], b);
    } else {
      var n, s := Word(a), a + "." + b;
      WordBefore(a, b);
      ComponentsSplit(a[n..], b);
      assert s[..n] == a[..n] && s[n..] == a[n..] + "." + b;
    }
  }

  lemma {:induction false} WordBefore(a: string, b: string)
    ensures Word(a + "." + b) == Word(a)
  {
    if a != "" && a[0] != '.' {
      assert (a + "." + b)[1..] == a[1..] + "." + b;
      WordBefore(a[1..], b);
    }
  }

  /** A string without separators is one component, unless it is empty. */
  lemma {:induction false} ComponentsWord(s: string)
    requires '.' !in s
    ensures Components(s) == if s == "" then [] else [s]
  {
    WordOf(s, "");
    assert s + "" == s;
  }

  lemma {:induction false} DotsEnd(names: seq<string>)
    requires names != []
    ensures Dots(names) != "" && Dots(names) == Join(names) + "."
  {
    if |names| == 1 {
      assert Dots(names) == names[0] + "." + "";
    } else {
      DotsEnd(names[1..]);
      assert Dots(names) == names[0] + "." + Dots(names[1..]);
    }
  }

  /** The joined names begin with the first one; a separator and the others joined follow. */
  lemma {:induction false} JoinOf(names: seq<string>)
    requires names != []
    ensures Join(names) == names[0] + if |names| == 1 then "" else "." + Join(names[1..])
  {
    if |names| == 1 {
      assert Dots(names) == names[0] + "." + "";
    } else {
      DotsEnd(names[1..]);
      assert Dots(names) == (names[0] + "." + Join(names[1..])) + ".";
    }
  }

  /** The first component of a string, and the rest. */
  lemma {:induction false} ComponentsOf(name: string, rest: string)
    requires GoodName(name) && (rest == "" || rest[0] == '.')
    ensures Components(name + rest) == [name] + Components(rest)
  {
    WordOf(name, rest);
    assert SkipDots(name + rest) == name + rest;
    assert (name + rest)[..|name|] == name && (name + rest)[|name|..] == rest;
  }

  /** Cutting undoes joining. */
  lemma {:induction false} ComponentsOfJoin(names: seq<string>)
    requires forall i :: 0 <= i < |names| ==> GoodName(names[i])
    ensures Components(Join(names)) == names
  {
    if names != [] {
      var rest := if |names| == 1 then "" else "." + Join(names[1..]);
      JoinOf(names);
      ComponentsOf(names[0], rest);
      ComponentsOfJoin(names[1..]);
      assert rest != "" ==> rest[1..] == Join(names[1..]);
      assert Components(rest) == names[1..];
    }
  }

  /** The round trip: the joined path of a node resolves to that node. */
  lemma {:induction false} PathRoundTrip(f: Forest, top: int, x: int)
    requires Proper(f) && Unique(f) && GoodNames(f) && x in Set(f)
    ensures Resolve(f, top, Components(Join(PathTo(f, x)))) == x
  {
    PathGood(f, x);
    ComponentsOfJoin(PathTo(f, x));
    ResolvePath(f, top, x);
  }
}
