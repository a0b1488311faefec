/** Listing the info tree without recursion, into a bounded buffer. */
module InfoWalk {
  import opened Sequences
  import opened InfoForest
  import opened InfoNames
  import opened InfoRings
  import opened InfoTree
  import opened Machine
  import opened InfoPath
  import opened InfoListing

  // ---------------------------------------------------------------- the data handle

  /** Keeps the beginning of what is written to it and counts all of it. */
  class InfoData {
    const maxSize: nat
    const buffer: array<char>
    var curSize: nat
    var totSize: nat
    ghost var stream: string   // everything ever written

    constructor (maxSize: nat)
      ensures Valid() && fresh(buffer) && stream == "" && this.maxSize == maxSize
    {
      this.maxSize := maxSize;
      buffer := new char[maxSize];
      curSize, totSize, stream := 0, 0, "";
    }

    ghost predicate Valid()
      reads this, buffer
    {
      && buffer.Length == maxSize && totSize == |stream|
      && curSize == (if |stream| < maxSize then |stream| else maxSize)
      && buffer[..curSize] == stream[..curSize]
    }

    /** kfio_info_write. */
    method Write(data: string) returns (n: nat)
      requires Valid()
      modifies this, buffer
      ensures Valid() && stream == old(stream) + data && n == curSize - old(curSize)
    {
      var avail := maxSize - curSize;
      if |data| < avail {
        avail := |data|;
      }
      ghost var before := buffer[..curSize];
      for i := 0 to avail
        invariant unchanged(this) && buffer[..curSize] == before && buffer[curSize..curSize + i] == data[..i]
      {
        buffer[curSize + i] := data[i];
        assert buffer[curSize..curSize + i + 1] == buffer[curSize..curSize + i] + [data[i]];
      }
      assert buffer[..curSize + avail] == before + data[..avail];
      totSize := totSize + |data|;
      curSize := curSize + avail;
      stream := stream + data;
      return avail;
    }
  }

  // ---------------------------------------------------------------- where a walk stands

  lemma {:induction false} PtrsOnce(f: Forest)
    requires Proper(f)
    ensures NoDup(Ptrs(f)) && 0 !in Ptrs(f)
  {
    if f.Cons? {
      PtrsOnce(f.rest);
      if f.ptr in Ptrs(f.rest) {
        PtrsInSet(f.rest, f.ptr);
      }
    }
  }

  /** Directory s.ptr is entered, its list is read up to `entry`, s.todo is the rest of it; and so on outwards. */
  ghost predicate Reads(m: Memory, s: Stack, entry: int) {
    s.Push? ==>
      && s.ptr in m && m[s.ptr].dir && NoDup(m[s.ptr].kids) && 0 !in m[s.ptr].kids
      && (entry == 0 || entry in m[s.ptr].kids)
      && Behind(m[s.ptr].kids, entry) == Ptrs(s.todo) && Holds(m, s.todo, s.ptr) && Proper(s.todo)
      && (s.below.Push? ==> m[s.ptr].parent == s.below.ptr)
      && Reads(m, s.below, s.ptr)
  }

  /** The printed path of the innermost directory. */
  function Prefix(m: Memory, s: Stack, base: string): string {
    if s.Empty? || s.below.Empty? || s.ptr !in m then base else Prefix(m, s.below, base) + m[s.ptr].name + "."
  }

  /** What is still to be listed. */
  function Left(m: Memory, s: Stack, base: string): string {
    if s.Empty? then "" else Listing(s.todo, Prefix(m, s, base)) + Left(m, s.below, base)
  }

  lemma {:induction false} LeafNext(m: Memory, s: Stack, entry: int, base: string)
    requires s.Push? && s.todo.Cons? && Reads(m, s, entry)
    ensures var s' := Push(s.ptr, s.todo.rest, s.below);
      && Reads(m, s', s.todo.ptr) && Steps(s') < Steps(s) && Prefix(m, s', base) == Prefix(m, s, base)
      && NextEntry(m[s.ptr].kids, entry) == s.todo.ptr != 0 && s.todo.ptr in m
      && m[s.todo.ptr].name == s.todo.name && m[s.todo.ptr].dir == s.todo.dir
      && (!s.todo.dir ==> Left(m, s, base) == Prefix(m, s, base) + s.todo.name + "\0" + Left(m, s', base))
      && (s.todo.dir && |Prefix(m, s, base)| + |s.todo.name| + 1 >= PATH_SIZE ==> Left(m, s, base) == Left(m, s', base))
  {
    BehindNext(m[s.ptr].kids, entry, s.todo.ptr, Ptrs(s.todo.rest));
    BehindInside(m[s.ptr].kids, entry);
    assert s.todo.ptr == Ptrs(s.todo)[0];
    var s' := Push(s.ptr, s.todo.rest, s.below);
    if !s.todo.dir {
      var line := Prefix(m, s, base) + s.todo.name + "\0";
      assert line + Listing(s.todo.rest, Prefix(m, s, base)) + Left(m, s.below, base)
          == line + (Listing(s.todo.rest, Prefix(m, s, base)) + Left(m, s.below, base));
    }
  }

  lemma {:induction false} DirNext(m: Memory, s: Stack, entry: int, base: string)
    requires s.Push? && s.todo.Cons? && Reads(m, s, entry) && s.todo.dir
    requires |Prefix(m, s, base)| + |s.todo.name| + 1 < PATH_SIZE
    ensures var s' := Push(s.todo.ptr, s.todo.kids, Push(s.ptr, s.todo.rest, s.below));
      && Reads(m, s', 0) && Steps(s') < Steps(s) && Left(m, s, base) == Left(m, s', base)
      && Prefix(m, s', base) == Prefix(m, s, base) + s.todo.name + "."
  {
    LeafNext(m, s, entry, base);
    PtrsOnce(s.todo.kids);
    var after := Push(s.ptr, s.todo.rest, s.below);
    var s' := Push(s.todo.ptr, s.todo.kids, after);
    assert Left(m, after, base) == Listing(s.todo.rest, Prefix(m, s, base)) + Left(m, s.below, base);
    var inner := Listing(s.todo.kids, Prefix(m, s, base) + s.todo.name + ".");
    assert inner + Listing(s.todo.rest, Prefix(m, s, base)) + Left(m, s.below, base)
        == inner + (Listing(s.todo.rest, Prefix(m, s, base)) + Left(m, s.below, base));
  }

  lemma {:induction false} WalkStarts(m: Memory, f: Forest, start: int, base: string)
    requires KidsAre(m, start, f) && m[start].dir && Proper(f)
    ensures Reads(m, Push(start, f, Empty), 0)
    ensures Left(m, Push(start, f, Empty), base) == Listing(f, base)
  {
    PtrsOnce(f);
    assert Listing(f, base) + "" == Listing(f, base);
  }

  // ---------------------------------------------------------------- what a walk shows

  /** The path of a start directory with a separator behind it, if there is any path. */
  function Base(names: seq<string>): string {
    if Join(names) == "" then "" else Join(names) + "."
  }

  /** With names that are not empty this is every name followed by a separator. */
  lemma {:induction false} BaseIsDots(names: seq<string>)
    requires forall i :: 0 <= i < |names| ==> GoodName(names[i])
    ensures Base(names) == Dots(names)
  {
    if names != [] {
      DotsEnd(names);
      assert Dots(names) == names[0] + "." + Dots(names[1..]);
    }
  }

  lemma {:induction false} BelowBelow(f: Forest, t: int, x: int)
    requires Proper(f) && t in Set(f) && x in Set(Below(f, t))
    ensures x in Set(f) && Below(f, x) == Below(Below(f, t), x)
  {
    if f.ptr != t {
      if t in Set(f.kids) {
        BelowBelow(f.kids, t, x);
      } else {
        BelowBelow(f.rest, t, x);
      }
    }
  }

  /** A walk shows the paths of its leaves, as seen from the top. */
  lemma {:induction false} WalkShowsLines(m: Memory, tree: Forest, root: int, top: int, start: int)
    requires Whole(m, tree, root) && GoodNames(tree) && Unique(tree) && top in m
    requires start in Set(KidsOf(tree, root, top)) + {top}
    ensures var f := KidsOf(tree, root, top);
      Listing(KidsOf(tree, root, start), Base(PathFrom(f, top, start))) == Text(LinesFrom(f, top, start))
  {
    var f := KidsOf(tree, root, top);
    KidsHeld(m, tree, root, top);
    KidsNamed(tree, root, top);
    if start == top {
      BaseIsDots([]);
      ListingIsPaths(f, []);
    } else {
      if top != root {
        BelowBelow(tree, top, start);
      }
      PathGood(f, start);
      BaseIsDots(PathTo(f, start));
      ListingIsPaths(Below(f, start), PathTo(f, start));
    }
  }

  // ---------------------------------------------------------------- the walk

  /** The path buffer holds a string, and the end of it. */
  ghost predicate Shows(path: seq<char>, n: nat, prefix: string) {
    n < |path| && path[..n] == prefix && path[n] == '\0'
  }

  /** Append a component and a separator. */
  method PushName(path: array<char>, n: nat, name: string, ghost prefix: string) returns (n': nat)
    requires Shows(path[..], n, prefix) && n + |name| + 1 < path.Length
    modifies path
    ensures n' == n + |name| + 1 && Shows(path[..], n', prefix + name + ".")
  {
    assert path[..][..n] == path[..n];
    Put(path, n, name);
    n' := n + |name| + 1;
    path[n' - 1] := '.';
    path[n'] := '\0';
    assert path[..n] == prefix && path[n..n + |name|] == name;
    assert path[..][..n'] == path[..n] + path[n..n + |name|] + [path[n' - 1]];
  }

  /** Trim the last component and its separator. */
  method PopName(path: array<char>, n: nat, name: string, ghost prefix: string) returns (n': nat)
    requires Shows(path[..], n, prefix + name + ".")
    modifies path
    ensures Shows(path[..], n', prefix)
  {
    assert path[..][..n] == prefix + name + ".";
    n' := n - (|name| + 1);
    path[n'] := '\0';
    assert (prefix + name + ".")[..n'] == prefix;
    assert path[..][..n'] == prefix;
  }

  /** The path of the start directory, with a separator behind it if there is any. */
  method StartPath(info: Info, top: int, start: int, path: array<char>) returns (r: int)
    requires info.Valid() && top in info.nodes && start in Set(KidsOf(info.tree, info.root, top)) + {top}
    requires path.Length == PATH_SIZE
    modifies path
    ensures var names := PathFrom(KidsOf(info.tree, info.root, top), top, start);
      if |Dots(names)| > PATH_SIZE - 1 then r == EINVAL else r == |Base(names)| && Shows(path[..], r, Base(names))
  {
    r := Pathname(info, top, start, path, PATH_SIZE - 1);
    if r < 0 {
      return;
    }
    ghost var names := PathFrom(KidsOf(info.tree, info.root, top), top, start);
    if r > 0 {
      assert path[..][..r] == Join(names);
      path[r] := '.';
      r := r + 1;
      path[r] := '\0';
      assert path[..][..r] == Join(names) + ".";
    }
  }

  /** The outermost directory, and only it, is the start of the walk. */
  ghost predicate Rooted(s: Stack, start: int) {
    s.Push? ==> (s.below.Empty? <==> s.ptr == start) && start !in Set(s.todo) && Rooted(s.below, start)
  }

  /** Where the loop stands: what was written, and what is still to be listed. */
  ghost predicate Walking(m: Memory, s: Stack, entry: int, start: int, base: string, written: string, all: string) {
    s.Push? && Reads(m, s, entry) && Rooted(s, start) && written + Left(m, s, base) == all
  }

  lemma {:induction false} WalkLeaves(m: Memory, s: Stack, entry: int, start: int, base: string, written: string,
                                      all: string)
    requires Walking(m, s, entry, start, base, written, all) && NextEntry(m[s.ptr].kids, entry) == 0
    ensures s.ptr == start ==> written == all
    ensures s.ptr != start ==> Walking(m, s.below, s.ptr, start, base, written, all) && Steps(s.below) < Steps(s)
    ensures s.ptr != start ==> m[s.ptr].parent == s.below.ptr
    ensures s.ptr != start ==> Prefix(m, s, base) == Prefix(m, s.below, base) + m[s.ptr].name + "."
  {
    if s.todo.Cons? {
      LeafNext(m, s, entry, base);
    }
  }

  /** The entry after this one is a node, and s' is where the walk stands behind it. */
  ghost function Passed(s: Stack): Stack
    requires s.Push? && s.todo.Cons?
  {
    Push(s.ptr, s.todo.rest, s.below)
  }

  lemma {:induction false} WalkPasses(m: Memory, s: Stack, entry: int, start: int, base: string, written: string,
                                      all: string)
    requires Walking(m, s, entry, start, base, written, all) && NextEntry(m[s.ptr].kids, entry) != 0
    ensures s.todo.Cons? && NextEntry(m[s.ptr].kids, entry) == s.todo.ptr && s.todo.ptr in m
    ensures m[s.todo.ptr].dir == s.todo.dir && Steps(Passed(s)) < Steps(s)
    ensures Prefix(m, Passed(s), base) == Prefix(m, s, base)
    ensures !s.todo.dir ==>
      Walking(m, Passed(s), s.todo.ptr, start, base, written + Prefix(m, s, base) + (m[s.todo.ptr].name + "\0"), all)
    ensures s.todo.dir && |Prefix(m, s, base)| + |m[s.todo.ptr].name| + 1 >= PATH_SIZE ==>
      Walking(m, Passed(s), s.todo.ptr, start, base, written, all)
    ensures s.todo.dir && |Prefix(m, s, base)| + |m[s.todo.ptr].name| + 1 < PATH_SIZE ==>
      && Walking(m, Entered(s), 0, start, base, written, all) && Steps(Entered(s)) < Steps(s)
      && Prefix(m, Entered(s), base) == Prefix(m, s, base) + m[s.todo.ptr].name + "."
  {
    if s.todo.Nil? {
    } else {
      LeafNext(m, s, entry, base);
      var line := Prefix(m, s, base) + s.todo.name + "\0";
      if !s.todo.dir {
        assert written + (line + Left(m, Passed(s), base)) == written + line + Left(m, Passed(s), base);
        assert written + line == written + Prefix(m, s, base) + (s.todo.name + "\0");
      } else if |Prefix(m, s, base)| + |s.todo.name| + 1 < PATH_SIZE {
        DirNext(m, s, entry, base);
      }
    }
  }

  ghost function Entered(s: Stack): Stack
    requires s.Push? && s.todo.Cons?
  {
    Push(s.todo.ptr, s.todo.kids, Passed(s))
  }

  ghost function BaseOf(info: Info, top: int, start: int): string
    reads info
  {
    Base(PathFrom(KidsOf(info.tree, info.root, top), top, start))
  }

  /**
   kfio_info_node_walk_tree.  Writes the listing of the recursive walk below the start directory, or
   fails because it is no directory or its own path does not fit.
   */
  method WalkTree(info: Info, top: int, start: int, dbh: InfoData) returns (r: int)
    requires info.Valid() && dbh.Valid() && top in info.nodes
    requires start == 0 || start in Set(KidsOf(info.tree, info.root, top)) + {top}
    modifies dbh, dbh.buffer
    ensures dbh.Valid()
    ensures r != 0 ==> r == EINVAL && dbh.stream == old(dbh.stream)
    ensures r == 0 <==> (start in info.nodes && info.nodes[start].dir
      && |Printed(KidsOf(info.tree, info.root, top), top, start)| < PATH_SIZE)
    ensures r == 0 ==>
      dbh.stream == old(dbh.stream) + Listing(KidsOf(info.tree, info.root, start), BaseOf(info, top, start))
  {
    ghost var m, f := info.nodes, KidsOf(info.tree, info.root, start);
    KidsHeld(m, info.tree, info.root, top);
    assert start != 0 ==> start in m;
    if start in m {
      KidsHeld(m, info.tree, info.root, start);
    }
    if start == 0 || !info.nodes[start].dir {
      return EINVAL;
    }
    var path := new char[PATH_SIZE];
    r := StartPath(info, top, start, path);
    if r < 0 {
      return;
    }
    Loop(info, start, dbh, path, r, f, BaseOf(info, top, start));
    r := 0;
  }

  method Loop(info: Info, start: int, dbh: InfoData, path: array<char>, n: nat, ghost f: Forest, ghost base: string)
    requires dbh.Valid() && path.Length == PATH_SIZE && path != dbh.buffer && Shows(path[..], n, base)
    requires info.Listed() && KidsAre(info.nodes, start, f) && info.nodes[start].dir
    requires Proper(f) && start !in Set(f)
    modifies dbh, dbh.buffer, path
    ensures dbh.Valid() && dbh.stream == old(dbh.stream) + Listing(f, base)
  {
    ghost var m, all := info.nodes, dbh.stream + Listing(f, base);
    var parent, entry, len: nat := start, HeadOf(start), n;
    ghost var s, at := Push(start, f, Empty), 0;
    WalkStarts(m, f, start, base);
    while true
      invariant dbh.Valid() && Walking(m, s, at, start, base, dbh.stream, all)
      invariant parent == s.ptr && Shows(path[..], len, Prefix(m, s, base))
      invariant entry == AddressOf(HeadOf(parent), at)
      decreases Steps(s)
    {
      entry := NextOf(info, s, at, entry);
      ghost var e := at;
      at := NextEntry(m[parent].kids, at);
      if entry == HeadOf(parent) {
        WalkLeaves(m, s, e, start, base, dbh.stream, all);
        if parent == start {
          break;
        }
        len := PopName(path, len, info.nodes[parent].name, Prefix(m, s.below, base));
        entry, at := parent, parent;
        parent := info.nodes[parent].parent;
        s := s.below;
        continue;
      }
      var nodep := entry;
      WalkPasses(m, s, e, start, base, dbh.stream, all);
      if info.nodes[nodep].dir {
        if len + |info.nodes[nodep].name| + 1 >= PATH_SIZE {
          s := Passed(s);
          continue;
        }
        len := PushName(path, len, info.nodes[nodep].name, Prefix(m, s, base));
        parent := nodep;
        entry, at := HeadOf(nodep), 0;
        s := Entered(s);
        continue;
      }
      var n1 := dbh.Write(path[..len]);
      var n2 := dbh.Write(info.nodes[nodep].name + "\0");
      s := Passed(s);
    }
  }

  /** entry->next on the list of the innermost directory. */
  method NextOf(info: Info, ghost s: Stack, ghost at: int, entry: int) returns (r: int)
    requires info.Listed() && s.Push? && Reads(info.nodes, s, at) && entry == AddressOf(HeadOf(s.ptr), at)
    ensures r == AddressOf(HeadOf(s.ptr), NextEntry(info.nodes[s.ptr].kids, at))
    ensures r == HeadOf(s.ptr) <==> NextEntry(info.nodes[s.ptr].kids, at) == 0
  {
    ghost var next, prev, m := info.lists.next, info.lists.prev, info.nodes;
    NextIs(next, prev, m, s.ptr, at);
    ListFacts(next, prev, m, s.ptr);
    BehindInside(m[s.ptr].kids, at);
    r := info.lists.next[entry];
  }
}
