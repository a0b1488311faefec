/** What a listing of the info tree contains. */
module InfoListing {
  import opened Sequences
  import opened InfoForest
  import opened InfoNames

  const PATH_SIZE: nat := 256

  /** A leaf, and the names that lead to it. */
  datatype Line = Line(ptr: int, path: seq<string>)

  function Text(lines: seq<Line>): string {
    if lines == [] then "" else Join(lines[0].path) + "\0" + Text(lines[1..])
  }

  /** The recursive listing below a directory whose printed path, with its last separator, is `prefix`. */
  function Listing(f: Forest, prefix: string): string {
    if f.Nil? then ""
    else if !f.dir then prefix + f.name + "\0" + Listing(f.rest, prefix)
    else if |prefix| + |f.name| + 1 >= PATH_SIZE then Listing(f.rest, prefix)
    else Listing(f.kids, prefix + f.name + ".") + Listing(f.rest, prefix)
  }

  /** The leaves it names, below the directory that `up` leads to. */
  function Lines(f: Forest, up: seq<string>): seq<Line> {
    if f.Nil? then []
    else if !f.dir then [Line(f.ptr, up + [f.name])] + Lines(f.rest, up)
    else if |Dots(up + [f.name])| >= PATH_SIZE then Lines(f.rest, up)
    else Lines(f.kids, up + [f.name]) + Lines(f.rest, up)
  }

  lemma {:induction false} TextJoin(a: seq<Line>, b: seq<Line>)
    ensures Text(a + b) == Text(a) + Text(b)
  {
    if a == [] {
      assert a + b == b;
    } else {
      assert (a + b)[1..] == a[1..] + b;
      TextJoin(a[1..], b);
      assert Join(a[0].path) + "\0" + (Text(a[1..]) + Text(b)) == Join(a[0].path) + "\0" + Text(a[1..]) + Text(b);
    }
  }

  lemma {:induction false} JoinLast(up: seq<string>, name: string)
    ensures Join(up + [name]) == Dots(up) + name
  {
    DotsAppend(up, name);
  }

  /** The listing is the NUL-terminated paths of those leaves, one after the other. */
  lemma {:induction false} ListingIsPaths(f: Forest, up: seq<string>)
    ensures Listing(f, Dots(up)) == Text(Lines(f, up))
  {
    if f.Cons? {
      ListingIsPaths(f.rest, up);
      DotsAppend(up, f.name);
      if !f.dir {
        JoinLast(up, f.name);
        assert Lines(f, up)[1..] == Lines(f.rest, up);
      } else if |Dots(up + [f.name])| < PATH_SIZE {
        ListingIsPaths(f.kids, up + [f.name]);
        TextJoin(Lines(f.kids, up + [f.name]), Lines(f.rest, up));
      }
    }
  }

  // ---------------------------------------------------------------- which leaves

  ghost predicate LeafOf(f: Forest, x: int) {
    f.Cons? && ((f.ptr == x && !f.dir) || LeafOf(f.kids, x) || LeafOf(f.rest, x))
  }

  lemma {:induction false} LeafInside(f: Forest, x: int)
    requires LeafOf(f, x)
    ensures x in Set(f)
  {
    if LeafOf(f.kids, x) {
      LeafInside(f.kids, x);
    } else if LeafOf(f.rest, x) {
      LeafInside(f.rest, x);
    }
  }

  /** The path of the directory a node is in. */
  function DirOf(f: Forest, x: int): seq<string> {
    var p := PathTo(f, x);
    if p == [] then [] else p[..|p| - 1]
  }

  function Listed(lines: seq<Line>): set<int> {
    set i | 0 <= i < |lines| :: lines[i].ptr
  }

  lemma {:induction false} ListedJoin(a: seq<Line>, b: seq<Line>)
    ensures Listed(a + b) == Listed(a) + Listed(b)
  {
    forall x | x in Listed(a) + Listed(b)
      ensures x in Listed(a + b)
    {
      if x in Listed(a) {
        var i :| 0 <= i < |a| && a[i].ptr == x;
        assert (a + b)[i].ptr == x;
      } else {
        var i :| 0 <= i < |b| && b[i].ptr == x;
        assert (a + b)[|a| + i].ptr == x;
      }
    }
  }

  lemma {:induction false} ListedOne(l: Line)
    ensures Listed([l]) == {l.ptr}
  {
    assert [l][0].ptr in Listed([l]);
  }

  lemma {:induction false} DotsGrow(up: seq<string>, more: seq<string>)
    ensures |Dots(up)| <= |Dots(up + more)|
  {
    if more == [] {
      assert up + more == up;
    } else {
      var front, last := more[..|more| - 1], more[|more| - 1];
      DotsGrow(up, front);
      DotsAppend(up + front, last);
      assert up + more == up + front + [last];
    }
  }

  /** Listed are exactly the leaves whose directory has a printed path that fits the path buffer. */
  lemma {:induction false} ListedIff(f: Forest, up: seq<string>, x: int)
    requires Proper(f) && |Dots(up)| < PATH_SIZE
    ensures x in Listed(Lines(f, up)) <==> LeafOf(f, x) && |Dots(up + DirOf(f, x))| < PATH_SIZE
  {
    if f.Cons? {
      var sub := up + [f.name];
      ListedIff(f.rest, up, x);
      if LeafOf(f.kids, x) {
        LeafInside(f.kids, x);
      }
      if LeafOf(f.rest, x) {
        LeafInside(f.rest, x);
      }
      if !f.dir {
        ListedOne(Line(f.ptr, sub));
        ListedJoin([Line(f.ptr, sub)], Lines(f.rest, up));
        if f.ptr == x {
          assert up + DirOf(f, x) == up;
        }
      } else {
        if x in Set(f.kids) {
          InsideDir(f, up, x);
        }
        if |Dots(sub)| < PATH_SIZE {
          ListedIff(f.kids, sub, x);
          ListedJoin(Lines(f.kids, sub), Lines(f.rest, up));
        } else if LeafOf(f.kids, x) {
          DotsGrow(sub, DirOf(f.kids, x));
        }
        if x in Listed(Lines(f.rest, up)) {
          LeafInside(f.rest, x);
        }
      }
    }
  }

  lemma {:induction false} InsideDir(f: Forest, up: seq<string>, x: int)
    requires f.Cons? && Proper(f) && x in Set(f.kids)
    ensures PathTo(f.kids, x) != [] && up + DirOf(f, x) == up + [f.name] + DirOf(f.kids, x)
  {
    PathNotEmpty(f.kids, x);
    assert PathTo(f, x) == [f.name] + PathTo(f.kids, x);
  }

  lemma {:induction false} PathNotEmpty(f: Forest, x: int)
    requires x in Set(f)
    ensures PathTo(f, x) != []
  {
    if f.ptr != x && x !in Set(f.kids) {
      PathNotEmpty(f.rest, x);
    }
  }

  /** The elements of s that are in a, in their order. */
  function Keep(s: seq<int>, a: set<int>): seq<int> {
    if s == [] then [] else (if s[0] in a then [s[0]] else []) + Keep(s[1..], a)
  }

  lemma {:induction false} KeepJoin(s: seq<int>, t: seq<int>, a: set<int>)
    ensures Keep(s + t, a) == Keep(s, a) + Keep(t, a)
  {
    if s == [] {
      assert s + t == t;
    } else {
      var first := if s[0] in a then [s[0]] else [];
      assert (s + t)[0] == s[0] && (s + t)[1..] == s[1..] + t;
      KeepJoin(s[1..], t, a);
      assert Keep(s + t, a) == first + (Keep(s[1..], a) + Keep(t, a));
    }
  }

  lemma {:induction false} KeepSame(s: seq<int>, a: set<int>, b: set<int>)
    requires forall i :: 0 <= i < |s| ==> (s[i] in a <==> s[i] in b)
    ensures Keep(s, a) == Keep(s, b)
  {
    if s != [] {
      KeepSame(s[1..], a, b);
    }
  }

  lemma {:induction false} KeepNone(s: seq<int>, a: set<int>)
    requires forall i :: 0 <= i < |s| ==> s[i] !in a
    ensures Keep(s, a) == []
  {
    if s != [] {
      KeepNone(s[1..], a);
    }
  }

  function Leaves(lines: seq<Line>): seq<int> {
    if lines == [] then [] else [lines[0].ptr] + Leaves(lines[1..])
  }

  lemma {:induction false} LeavesJoin(a: seq<Line>, b: seq<Line>)
    ensures Leaves(a + b) == Leaves(a) + Leaves(b)
  {
    if a == [] {
      assert a + b == b;
    } else {
      assert (a + b)[1..] == a[1..] + b;
      LeavesJoin(a[1..], b);
    }
  }

  lemma {:induction false} ListedInside(f: Forest, up: seq<string>)
    requires Proper(f)
    ensures Listed(Lines(f, up)) <= Set(f)
  {
    forall x | x in Listed(Lines(f, up))
      ensures x in Set(f)
    {
      var i :| 0 <= i < |Lines(f, up)| && Lines(f, up)[i].ptr == x;
      LinePaths(f, up, i);
    }
  }

  lemma {:induction false} InPost(f: Forest, i: nat)
    requires i < |Post(f)|
    ensures Post(f)[i] in Set(f)
  {
    PostElements(f);
    assert Post(f)[i] in Elements(Post(f));
  }

  lemma {:induction false} KeepPost(f: Forest, a: set<int>)
    requires f.Cons?
    ensures Keep(Post(f), a) == Keep(Post(f.kids), a) + (if f.ptr in a then [f.ptr] else []) + Keep(Post(f.rest), a)
  {
    KeepJoin(Post(f.kids) + [f.ptr], Post(f.rest), a);
    KeepJoin(Post(f.kids), [f.ptr], a);
  }

  /** In the others of a list only what is listed there matters. */
  lemma {:induction false} KeepRest(f: Forest, up: seq<string>, all: set<int>, inside: set<int>)
    requires f.Cons? && Proper(f) && all == inside + Listed(Lines(f.rest, up)) && inside <= Set(f.kids) + {f.ptr}
    ensures Keep(Post(f.rest), all) == Keep(Post(f.rest), Listed(Lines(f.rest, up)))
  {
    forall i | 0 <= i < |Post(f.rest)|
      ensures Post(f.rest)[i] in Set(f.rest)
    {
      InPost(f.rest, i);
    }
    KeepSame(Post(f.rest), all, Listed(Lines(f.rest, up)));
  }

  lemma {:induction false} KeepKids(f: Forest, up: seq<string>, all: set<int>, inside: set<int>)
    requires f.Cons? && Proper(f) && all == inside + Listed(Lines(f.rest, up)) && inside <= Set(f.kids)
    ensures Keep(Post(f.kids), all) == Keep(Post(f.kids), inside) && f.ptr !in all
  {
    forall i | 0 <= i < |Post(f.kids)|
      ensures Post(f.kids)[i] in Set(f.kids)
    {
      InPost(f.kids, i);
    }
    ListedInside(f.rest, up);
    KeepSame(Post(f.kids), all, inside);
  }

  lemma {:induction false} LeafInOrder(f: Forest, up: seq<string>)
    requires f.Cons? && Proper(f) && !f.dir
    requires Leaves(Lines(f.rest, up)) == Keep(Post(f.rest), Listed(Lines(f.rest, up)))
    ensures Leaves(Lines(f, up)) == Keep(Post(f), Listed(Lines(f, up)))
  {
    var line, all := Line(f.ptr, up + [f.name]), Listed(Lines(f, up));
    ListedOne(line);
    ListedJoin([line], Lines(f.rest, up));
    LeavesJoin([line], Lines(f.rest, up));
    KeepPost(f, all);
    KeepRest(f, up, all, {f.ptr});
  }

  lemma {:induction false} DirInOrder(f: Forest, up: seq<string>, inner: seq<Line>)
    requires f.Cons? && Proper(f) && f.dir && Lines(f, up) == inner + Lines(f.rest, up) && Listed(inner) <= Set(f.kids)
    requires Leaves(inner) == Keep(Post(f.kids), Listed(inner))
    requires Leaves(Lines(f.rest, up)) == Keep(Post(f.rest), Listed(Lines(f.rest, up)))
    ensures Leaves(Lines(f, up)) == Keep(Post(f), Listed(Lines(f, up)))
  {
    var all := Listed(Lines(f, up));
    ListedJoin(inner, Lines(f.rest, up));
    LeavesJoin(inner, Lines(f.rest, up));
    KeepPost(f, all);
    KeepRest(f, up, all, Listed(inner));
    KeepKids(f, up, all, Listed(inner));
  }

  /** Leaves are listed in the order of the tree, each once: the order in which a delete would free them. */
  lemma {:induction false} ListedInOrder(f: Forest, up: seq<string>)
    requires Proper(f)
    ensures Leaves(Lines(f, up)) == Keep(Post(f), Listed(Lines(f, up)))
  {
    if f.Cons? {
      var sub := up + [f.name];
      ListedInOrder(f.rest, up);
      if !f.dir {
        LeafInOrder(f, up);
      } else if |Dots(sub)| >= PATH_SIZE {
        var none: seq<Line> := [];
        KeepNone(Post(f.kids), Listed(none));
        assert Lines(f, up) == none + Lines(f.rest, up);
        DirInOrder(f, up, none);
      } else {
        ListedInOrder(f.kids, sub);
        ListedInside(f.kids, sub);
        DirInOrder(f, up, Lines(f.kids, sub));
      }
    }
  }

  // ---------------------------------------------------------------- every line resolves

  lemma {:induction false} LinePaths(f: Forest, up: seq<string>, i: nat)
    requires Proper(f) && i < |Lines(f, up)|
    ensures Lines(f, up)[i].ptr in Set(f) && Lines(f, up)[i].path == up + PathTo(f, Lines(f, up)[i].ptr)
  {
    var l := Lines(f, up)[i];
    if !f.dir {
      if i > 0 {
        LinePaths(f.rest, up, i - 1);
      }
    } else if |Dots(up + [f.name])| >= PATH_SIZE {
      LinePaths(f.rest, up, i);
    } else {
      var inner := Lines(f.kids, up + [f.name]);
      if i < |inner| {
        LinePaths(f.kids, up + [f.name], i);
        assert up + [f.name] + PathTo(f.kids, l.ptr) == up + ([f.name] + PathTo(f.kids, l.ptr));
      } else {
        LinePaths(f.rest, up, i - |inner|);
      }
    }
  }

  /** A path through node s is the path to s and the path from there. */
  lemma {:induction false} PathThrough(f: Forest, s: int, x: int)
    requires Proper(f) && s in Set(f) && x in Set(Below(f, s))
    ensures x in Set(f) && PathTo(f, x) == PathTo(f, s) + PathTo(Below(f, s), x)
  {
    if f.ptr == s {
    } else if s in Set(f.kids) {
      PathThrough(f.kids, s, x);
      assert [f.name] + (PathTo(f.kids, s) + PathTo(Below(f, s), x))
          == [f.name] + PathTo(f.kids, s) + PathTo(Below(f, s), x);
    } else {
      PathThrough(f.rest, s, x);
    }
  }

  /** Every path a listing shows, looked up again from the top, gives its leaf. */
  lemma {:induction false} EveryLineResolves(f: Forest, top: int, start: int, i: nat)
    requires Proper(f) && Unique(f) && GoodNames(f) && start in Set(f) + {top} && top !in Set(f)
    requires i < |LinesFrom(f, top, start)|
    ensures var l := LinesFrom(f, top, start)[i];
      l.ptr in Set(f) && Resolve(f, top, Components(Join(l.path))) == l.ptr
  {
    var l := LinesFrom(f, top, start)[i];
    if start == top {
      LinePaths(f, [], i);
      assert [] + PathTo(f, l.ptr) == PathTo(f, l.ptr);
    } else {
      ProperBelow(f, start);
      LinePaths(Below(f, start), PathTo(f, start), i);
      PathThrough(f, start, l.ptr);
    }
    PathRoundTrip(f, top, l.ptr);
  }

  /** The lines of a walk that starts at a directory at or below the top. */
  function LinesFrom(f: Forest, top: int, start: int): seq<Line> {
    if start == top then Lines(f, []) else Lines(Below(f, start), PathTo(f, start))
  }

  lemma {:induction false} ProperBelow(f: Forest, x: int)
    requires Proper(f)
    ensures Proper(Below(f, x))
  {
    if f.Cons? {
      ProperBelow(f.kids, x);
      ProperBelow(f.rest, x);
    }
  }
}
