/** Copying between two lists, as the code does it and when that is right. */
module SglCopy {
  import opened Sequences
  import opened Machine
  import opened Pieces
  import opened ScatterList
  import opened SglDma

  /** Bytes of memory; addresses never written hold 0. */
  type Ram = map<Address, int>

  function Read(m: Ram, a: Address): int {
    if a in m then m[a] else 0
  }

  /** Memory after the bytes at `from` were copied to `to`, one after the other. */
  function Copied(m: Ram, to: seq<Address>, from: seq<Address>): Ram
    requires |to| == |from|
  {
    if to == [] then m
    else
      var before := Copied(m, to[..|to| - 1], from[..|to| - 1]);
      before[to[|to| - 1] := Read(before, from[|to| - 1])]
  }

  /** Copying a stretch and then another one is copying both. */
  lemma {:induction false} CopiedTwice(m: Ram, to: seq<Address>, from: seq<Address>, to': seq<Address>,
                                       from': seq<Address>)
    requires |to| == |from| && |to'| == |from'|
    ensures Copied(m, to + to', from + from') == Copied(Copied(m, to, from), to', from')
  {
    if to' == [] {
      assert to + to' == to && from + from' == from;
    } else {
      var n := |to'| - 1;
      CopiedTwice(m, to, from, to'[..n], from'[..n]);
      assert (to + to')[..|to| + n] == to + to'[..n];
      assert (from + from')[..|to| + n] == from + from'[..n];
    }
  }

  ghost predicate Disjoint(a: seq<Address>, b: seq<Address>) {
    forall i, j :: 0 <= i < |a| && 0 <= j < |b| ==> a[i] != b[j]
  }

  /** m2 is m with the bytes at `from` put at `to`, and nothing else changed. */
  ghost predicate Right(m: Ram, m2: Ram, to: seq<Address>, from: seq<Address>)
    requires |to| == |from|
  {
    && (forall k :: 0 <= k < |to| ==> Read(m2, to[k]) == Read(m, from[k]))
    && (forall a :: a !in to ==> Read(m2, a) == Read(m, a))
  }

  lemma {:induction false} CopiedIsRight(m: Ram, to: seq<Address>, from: seq<Address>)
    requires |to| == |from| && NoDup(to) && Disjoint(to, from)
    ensures Right(m, Copied(m, to, from), to, from)
  {
    if to != [] {
      var n := |to| - 1;
      var before, after := Copied(m, to[..n], from[..n]), Copied(m, to, from);
      CopiedIsRight(m, to[..n], from[..n]);
      assert from[n] !in to;
      assert to == to[..n] + [to[n]];
      forall k | 0 <= k < |to|
        ensures Read(after, to[k]) == Read(m, from[k])
      {
        if k < n {
          assert to[k] == to[..n][k] && from[k] == from[..n][k];
        }
      }
    }
  }

  // ---------------------------------------------------------------- where the code walks

  /** What the code takes for the length of an entry: its length minus its offset, in 32 bits. */
  function WalkLen(e: Sl): nat {
    if e.offset <= e.length then e.length - e.offset
    else if e.offset - e.length <= U32 then U32 - (e.offset - e.length)
    else 0
  }

  function WalkOf(es: seq<Sl>): (ps: seq<Piece>)
    ensures |ps| == |es| && forall i :: 0 <= i < |es| ==> ps[i] == Piece(es[i].page, es[i].offset, WalkLen(es[i]))
  {
    seq(|es|, i requires 0 <= i < |es| => Piece(es[i].page, es[i].offset, WalkLen(es[i])))
  }

  /** The bytes the code visits, in order. */
  function Walk(es: seq<Sl>): seq<Address> {
    Flat(WalkOf(es))
  }

  predicate NonEmpty(es: seq<Sl>) {
    forall i :: 0 <= i < |es| ==> es[i].length > 0
  }

  /** No two entries share a page. */
  predicate OwnPages(es: seq<Sl>) {
    forall i, j :: 0 <= i < j < |es| ==> es[i].page != es[j].page
  }

  /** The lists share no page. */
  predicate Apart(a: seq<Sl>, b: seq<Sl>) {
    forall i, j :: 0 <= i < |a| && 0 <= j < |b| ==> a[i].page != b[j].page
  }

  /** Entry i has an offset, and more of it is needed than lies below both its length and its offset plus length. */
  predicate Misread(es: seq<Sl>, n: nat, i: nat)
    requires i < |es|
  {
    Before(es, i) < n && es[i].offset != 0 && Before(es, i) + Min(es[i].length, WalkLen(es[i])) < n
  }

  /** What a caller can check: no entry among the first n bytes is misread. */
  ghost predicate Reaches(es: seq<Sl>, n: nat) {
    forall i :: 0 <= i < |es| ==> !Misread(es, n, i)
  }

  lemma {:induction false} SizeIsBefore(es: seq<Sl>)
    ensures Before(es, |es|) == Size(es) == |Memory(es)|
  {
    BusSize(es);
    FlatLength(MemOf(es));
  }

  /** Up to a needed entry that is not misread, nothing has an offset. */
  lemma {:induction false} ZeroBefore(es: seq<Sl>, n: nat, i: nat)
    requires i <= |es| && NonEmpty(es) && Before(es, i) < n
    requires forall j :: 0 <= j < i ==> !Misread(es, n, j)
    ensures forall j :: 0 <= j < i ==> es[j].offset == 0
  {
    forall j | 0 <= j < i
      ensures es[j].offset == 0
    {
      BeforeMonotone(es, j + 1, i);
      assert !Misread(es, n, j);
    }
  }

  /** Walk and list agree on entries without an offset, and on the common part of the next one. */
  lemma {:induction false} CommonPart(es: seq<Sl>, i: nat)
    requires i < |es| && forall j :: 0 <= j < i ==> es[j].offset == 0
    ensures var k := Before(es, i) + Min(es[i].length, WalkLen(es[i]));
      && k <= |Walk(es)| && k <= |Memory(es)| && Walk(es)[..k] == Memory(es)[..k]
    ensures Total(WalkOf(es)[..i]) == Total(MemOf(es)[..i]) == Before(es, i)
  {
    var m, w := MemOf(es), WalkOf(es);
    assert w[..i] == m[..i];
    BeforeIsPrefix(es, i);
    FlatLength(m[..i]);
    AgreeTo(w, m, i);
  }

  lemma {:induction false} AgreeTo(w: seq<Piece>, m: seq<Piece>, i: nat)
    requires i < |w| == |m| && w[..i] == m[..i] && w[i].space == m[i].space && w[i].start == m[i].start
    ensures var k := Total(m[..i]) + Min(m[i].len, w[i].len);
      && k <= |Flat(w)| && k <= |Flat(m)| && Flat(w)[..k] == Flat(m)[..k]
  {
    FlatLength(m[..i]);
    PrefixOf(w, i);
    PrefixOf(m, i);
  }

  lemma {:induction false} PrefixOf(ps: seq<Piece>, i: nat)
    requires i < |ps|
    ensures Flat(ps[..i]) + Bytes(ps[i]) <= Flat(ps)
  {
    assert ps == ps[..i] + [ps[i]] + ps[i + 1..];
    FlatAppend(ps[..i], ps[i]);
    FlatConcat(ps[..i] + [ps[i]], ps[i + 1..]);
  }

  /** Where nothing is misread, the code walks the list. */
  lemma {:induction false} ReachesAgrees(es: seq<Sl>, n: nat)
    requires NonEmpty(es) && n <= Size(es) && Reaches(es, n)
    ensures n <= |Walk(es)| && n <= |Memory(es)| && Walk(es)[..n] == Memory(es)[..n]
  {
    SizeIsBefore(es);
    if n > 0 {
      var i := EntryOf(es, n);
      ZeroBefore(es, n, i);
      CommonPart(es, i);
      var k := Before(es, i) + Min(es[i].length, WalkLen(es[i]));
      assert !Misread(es, n, i);
      assert Walk(es)[..n] == Walk(es)[..k][..n];
      assert Memory(es)[..n] == Memory(es)[..k][..n];
    }
  }

  /** The entry that holds the last of the first n bytes. */
  ghost function EntryOf(es: seq<Sl>, n: nat): (i: nat)
    requires 0 < n <= Before(es, |es|)
    ensures i < |es| && Before(es, i) < n <= Before(es, i + 1)
  {
    EntryBelow(es, n, |es|)
  }

  ghost function EntryBelow(es: seq<Sl>, n: nat, k: nat): (i: nat)
    requires k <= |es| && 0 < n <= Before(es, k)
    ensures i < k && Before(es, i) < n <= Before(es, i + 1)
  {
    if Before(es, k - 1) < n then k - 1 else EntryBelow(es, n, k - 1)
  }

  ghost function FirstMisread(es: seq<Sl>, n: nat, k: nat): (i: nat)
    requires k <= |es| && exists j :: 0 <= j < k && Misread(es, n, j)
    ensures i < k && Misread(es, n, i) && forall j :: 0 <= j < i ==> !Misread(es, n, j)
  {
    if j :| 0 <= j < k - 1 && Misread(es, n, j) then FirstMisread(es, n, k - 1) else k - 1
  }

  lemma {:induction false} InPiece(ps: seq<Piece>, k: nat) returns (i: nat)
    requires k < |Flat(ps)|
    ensures i < |ps| && Flat(ps)[k].space == ps[i].space
    ensures ps[i].start <= Flat(ps)[k].at < ps[i].start + ps[i].len
  {
    var front := ps[..|ps| - 1];
    if k < |Flat(front)| {
      i := InPiece(front, k);
    } else {
      i := |ps| - 1;
    }
  }

  ghost predicate OwnSpaces(ps: seq<Piece>) {
    forall i, j :: 0 <= i < j < |ps| ==> ps[i].space != ps[j].space
  }

  lemma {:induction false} OwnSpacesNoDup(ps: seq<Piece>)
    requires OwnSpaces(ps)
    ensures NoDup(Flat(ps))
  {
    if ps != [] {
      var front, last := ps[..|ps| - 1], ps[|ps| - 1];
      OwnSpacesNoDup(front);
      forall k | 0 <= k < |Flat(front)|
        ensures Flat(front)[k].space != last.space
      {
        var i := InPiece(front, k);
      }
    }
  }

  lemma {:induction false} ApartIsDisjoint(a: seq<Piece>, b: seq<Piece>)
    requires forall i, j :: 0 <= i < |a| && 0 <= j < |b| ==> a[i].space != b[j].space
    ensures Disjoint(Flat(a), Flat(b))
  {
    forall k, l | 0 <= k < |Flat(a)| && 0 <= l < |Flat(b)|
      ensures Flat(a)[k] != Flat(b)[l]
    {
      var i := InPiece(a, k);
      var j := InPiece(b, l);
    }
  }

  /**
   Where an entry is misread, the code either never visits a byte it should, or visits one it
   should not.
   */
  lemma {:induction false} MisreadShows(es: seq<Sl>, n: nat) returns (k: nat)
    requires NonEmpty(es) && OwnPages(es) && NoWrap(es) && n <= Size(es) && n <= |Walk(es)| && !Reaches(es, n)
    ensures k < n <= |Memory(es)|
    ensures Memory(es)[k] !in Walk(es) || Walk(es)[k] !in Memory(es)
  {
    SizeIsBefore(es);
    var i := FirstMisread(es, n, |es|);
    ZeroBefore(es, n, i);
    CommonPart(es, i);
    k := Before(es, i) + Min(es[i].length, WalkLen(es[i]));
    if es[i].offset <= es[i].length {
      CutShort(es, i, k);
    } else {
      GoesOn(es, i, k);
    }
  }

  /** The walk leaves an entry whose offset is at most its length too early. */
  lemma {:induction false} CutShort(es: seq<Sl>, i: nat, k: nat)
    requires i < |es| && OwnPages(es) && NonEmpty(es) && 0 < es[i].offset <= es[i].length
    requires k == Before(es, i) + WalkLen(es[i]) && Before(es, i) == Total(MemOf(es)[..i])
    ensures k < |Memory(es)| && Memory(es)[k] !in Walk(es)
  {
    ByteAt(MemOf(es), i, k);
    OnlyOwn(WalkOf(es), i, Memory(es)[k]);
  }

  /** The walk stays in an entry whose offset is beyond its length. */
  lemma {:induction false} GoesOn(es: seq<Sl>, i: nat, k: nat)
    requires i < |es| && OwnPages(es) && NoWrap(es) && es[i].length < es[i].offset
    requires k == Before(es, i) + es[i].length && Before(es, i) == Total(WalkOf(es)[..i])
    ensures k < |Walk(es)| && Walk(es)[k] !in Memory(es)
  {
    ByteAt(WalkOf(es), i, k);
    OnlyOwn(MemOf(es), i, Walk(es)[k]);
  }

  lemma {:induction false} OnlyOwn(ps: seq<Piece>, i: nat, a: Address)
    requires i < |ps| && OwnSpaces(ps) && a.space == ps[i].space
    requires !(ps[i].start <= a.at < ps[i].start + ps[i].len)
    ensures a !in Flat(ps)
  {
    if a in Flat(ps) {
      var k: nat :| k < |Flat(ps)| && Flat(ps)[k] == a;
      var j := InPiece(ps, k);
    }
  }

  // ---------------------------------------------------------------- when the copy is right

  /** Copying the way the code walks does, for every memory, what copying between the lists should. */
  ghost predicate AlwaysRight(dst: seq<Sl>, src: seq<Sl>, n: nat) {
    && n <= |Walk(dst)| && n <= |Walk(src)| && n <= |Memory(dst)| && n <= |Memory(src)|
    && forall m: Ram :: Right(m, Copied(m, Walk(dst)[..n], Walk(src)[..n]), Memory(dst)[..n], Memory(src)[..n])
  }

  /**
   The exact condition.  For lists of non-empty entries, each entry in a page of its own, the copy of
   n bytes is right for every memory if and only if no entry needed is misread, whatever the entry
   boundaries of the two lists are.
   */
  lemma {:induction false} CopyIsRightIff(dst: seq<Sl>, src: seq<Sl>, n: nat)
    requires NonEmpty(dst) && NonEmpty(src) && NoWrap(dst) && NoWrap(src)
    requires OwnPages(dst) && OwnPages(src) && Apart(dst, src)
    requires n <= Size(dst) && n <= Size(src)
    ensures AlwaysRight(dst, src, n) <==> Reaches(dst, n) && Reaches(src, n)
  {
    SizeIsBefore(dst);
    SizeIsBefore(src);
    if Reaches(dst, n) && Reaches(src, n) {
      ReachesAgrees(dst, n);
      ReachesAgrees(src, n);
      OwnSpacesNoDup(MemOf(dst));
      ApartIsDisjoint(MemOf(dst), MemOf(src));
      forall m: Ram
        ensures Right(m, Copied(m, Walk(dst)[..n], Walk(src)[..n]), Memory(dst)[..n], Memory(src)[..n])
      {
        CopiedIsRight(m, Memory(dst)[..n], Memory(src)[..n]);
      }
    } else if AlwaysRight(dst, src, n) {
      NotRight(dst, src, n);
    }
  }

  lemma {:induction false} NotRight(dst: seq<Sl>, src: seq<Sl>, n: nat)
    requires NonEmpty(dst) && NonEmpty(src) && NoWrap(dst) && NoWrap(src)
    requires OwnPages(dst) && OwnPages(src) && Apart(dst, src)
    requires n <= Size(dst) && n <= Size(src)
    requires !Reaches(dst, n) || !Reaches(src, n)
    ensures !AlwaysRight(dst, src, n)
  {
    if AlwaysRight(dst, src, n) {
      var d, s := Memory(dst)[..n], Memory(src)[..n];
      var wd, ws := Walk(dst)[..n], Walk(src)[..n];
      OwnSpacesNoDup(WalkOf(dst));
      ApartIsDisjoint(WalkOf(dst), WalkOf(src));
      ApartIsDisjoint(MemOf(dst), MemOf(src));
      ApartIsDisjoint(MemOf(dst), WalkOf(src));
      ApartIsDisjoint(WalkOf(dst), MemOf(src));
      if !Reaches(dst, n) {
        var k := MisreadShows(dst, n);
        if Memory(dst)[k] !in Walk(dst) {
          Unwritten(d, s, wd, ws, k);
        } else {
          Overwritten(d, s, wd, ws, k);
        }
      } else {
        var k := MisreadShows(src, n);
        ReachesAgrees(dst, n);
        WrongSource(d, s, wd, ws, k);
      }
    }
  }

  /** A byte that should be written and is not. */
  lemma {:induction false} Unwritten(d: seq<Address>, s: seq<Address>, wd: seq<Address>, ws: seq<Address>, k: nat)
    requires |d| == |s| == |wd| == |ws| && k < |d| && d[k] !in wd && d[k] != s[k] && NoDup(wd) && Disjoint(wd, ws)
    ensures exists m: Ram :: !Right(m, Copied(m, wd, ws), d, s)
  {
    var m: Ram := map[d[k] := 1];
    CopiedIsRight(m, wd, ws);
    assert Read(m, s[k]) == 0 && Read(m, d[k]) == 1;
    assert !Right(m, Copied(m, wd, ws), d, s);
  }

  /** A byte that is written and should not be. */
  lemma {:induction false} Overwritten(d: seq<Address>, s: seq<Address>, wd: seq<Address>, ws: seq<Address>, k: nat)
    requires |d| == |s| == |wd| == |ws| && k < |d| && wd[k] !in d && NoDup(wd) && Disjoint(wd, ws)
    ensures exists m: Ram :: !Right(m, Copied(m, wd, ws), d, s)
  {
    var m: Ram := map[wd[k] := 1];
    CopiedIsRight(m, wd, ws);
    assert Read(m, ws[k]) == 0 && Read(m, wd[k]) == 1;
    assert !Right(m, Copied(m, wd, ws), d, s);
  }

  /** A byte that is written from the wrong place. */
  lemma {:induction false} WrongSource(d: seq<Address>, s: seq<Address>, wd: seq<Address>, ws: seq<Address>, k: nat)
    requires |d| == |s| == |wd| == |ws| && k < |d| && wd == d && ws[k] != s[k] && NoDup(wd) && Disjoint(wd, ws)
    ensures exists m: Ram :: !Right(m, Copied(m, wd, ws), d, s)
  {
    var m: Ram := map[ws[k] := 1];
    CopiedIsRight(m, wd, ws);
    assert Read(m, s[k]) == 0 && Read(m, ws[k]) == 1;
    assert !Right(m, Copied(m, wd, ws), d, s);
  }

  /** Between lists whose entries have no offset the copy is right, whatever the boundaries. */
  lemma {:induction false} ZeroOffsetsCopyRight(dst: seq<Sl>, src: seq<Sl>, n: nat)
    requires forall i :: 0 <= i < |dst| ==> dst[i].offset == 0 < dst[i].length < U32
    requires forall i :: 0 <= i < |src| ==> src[i].offset == 0 < src[i].length < U32
    requires OwnPages(dst) && OwnPages(src) && Apart(dst, src)
    requires n <= Size(dst) && n <= Size(src)
    ensures AlwaysRight(dst, src, n)
  {
    CopyIsRightIff(dst, src, n);
  }

  /** An entry of 200 bytes at offset 100: its second half is skipped for the entry behind it. */
  lemma {:induction false} OffsetsAreMisread()
    ensures var d := [Sl(1, 100, 200, 0), Sl(2, 0, 100, 0)];
            var s := [Sl(3, 0, 300, 0)];
      !AlwaysRight(d, s, 150)
  {
    var d := [Sl(1, 100, 200, 0), Sl(2, 0, 100, 0)];
    var s := [Sl(3, 0, 300, 0)];
    assert Misread(d, 150, 0);
    SizeIsBefore(d);
    SizeIsBefore(s);
    assert Before(d, 2) == Before(d, 1) + 100;
    CopyIsRightIff(d, s, 150);
  }

  // ---------------------------------------------------------------- the code

  /** Entries start inside their pages. */
  predicate InPages(es: seq<Sl>) {
    forall i :: 0 <= i < |es| ==> es[i].offset < PAGE_SIZE
  }

  /** What the 32-bit difference of an entry's length and a position in it comes to. */
  function Left(e: Sl, off: nat): nat {
    if off <= e.length then e.length - off else if off - e.length <= U32 then U32 - (off - e.length) else 0
  }

  /** A position in an entry, compared with its length in 32 bits. */
  predicate AtEnd(e: Sl, off: nat) {
    off == e.length || off == e.length + U32
  }

  /** The cursor after `done` bytes of the walk: entry i, position off. */
  ghost predicate At(es: seq<Sl>, done: nat, i: nat, off: nat) {
    && i <= |es|
    && (i < |es| ==> es[i].offset <= off <= es[i].offset + WalkLen(es[i]))
    && (i < |es| ==> done + es[i].offset == Total(WalkOf(es)[..i]) + off)
    && (i == |es| ==> done == |Walk(es)|)
  }

  /** Moving n bytes on inside an entry visits the next n bytes of the walk. */
  lemma {:induction false} AtMoves(es: seq<Sl>, done: nat, i: nat, off: nat, n: nat)
    requires At(es, done, i, off) && i < |es| && n <= Left(es[i], off)
    ensures At(es, done + n, i, off + n)
    ensures done + n <= |Walk(es)|
    ensures Walk(es)[done..done + n] == Bytes(Piece(es[i].page, off, n))
  {
    var ps := WalkOf(es);
    PrefixOf(ps, i);
    FlatLength(ps[..i]);
    var whole, mine := Walk(es), Bytes(Piece(es[i].page, off, n));
    forall k | 0 <= k < n
      ensures whole[done + k] == mine[k]
    {
      assert whole[done + k] == (Flat(ps[..i]) + Bytes(ps[i]))[done + k];
    }
  }

  /** At the end of an entry the cursor is at the start of the next one. */
  lemma {:induction false} AtNext(es: seq<Sl>, done: nat, i: nat, off: nat, off': nat)
    requires At(es, done, i, off) && i < |es| && AtEnd(es[i], off) && es[i].offset < U32
    requires i + 1 < |es| ==> off' == es[i + 1].offset
    ensures At(es, done, i + 1, off')
  {
    var ps := WalkOf(es);
    NextPrefix(ps, i);
    if i + 1 == |es| {
      assert ps[..i + 1] == ps;
      FlatLength(ps);
    }
  }

  lemma {:induction false} CopiedFurther(m: Ram, to: seq<Address>, from: seq<Address>, k: nat, l: nat)
    requires k <= l <= |to| && l <= |from|
    ensures Copied(m, to[..l], from[..l]) == Copied(Copied(m, to[..k], from[..k]), to[k..l], from[k..l])
  {
    assert to[..l] == to[..k] + to[k..l] && from[..l] == from[..k] + from[k..l];
    CopiedTwice(m, to[..k], from[..k], to[k..l], from[k..l]);
  }

  class Memories {
    var bytes: Ram

    /** kfio_memcpy, byte by byte from the front. */
    method MemCpy(dst: Piece, src: Piece)
      requires dst.len == src.len
      modifies this
      ensures bytes == Copied(old(bytes), Bytes(dst), Bytes(src))
    {
      ghost var to, from := Bytes(dst), Bytes(src);
      for k := 0 to dst.len
        invariant bytes == Copied(old(bytes), to[..k], from[..k])
      {
        assert to[..k + 1][..k] == to[..k] && from[..k + 1][..k] == from[..k];
        bytes := bytes[Address(dst.space, dst.start + k) := Read(bytes, Address(src.space, src.start + k))];
      }
      assert to[..dst.len] == to && from[..dst.len] == from;
    }

    /** The entry a cursor points at; one past the last entry it is whatever lies there. */
    method Peek(sgl: SgList.SgList, i: nat) returns (e: Sl)
      requires sgl.Shape()
      ensures i < sgl.numEntries ==> e == sgl.Entries()[i]
    {
      if i < sgl.numEntries {
        e := sgl.sl[i];
      } else {
        e := *;
      }
    }

    /** Move a cursor n bytes on, and to the next entry when it reaches the length of this one. */
    method Advance(sgl: SgList.SgList, e: Sl, i: nat, off: nat, n: nat, ghost es: seq<Sl>, ghost done: nat,
                   ghost done': nat)
      returns (e': Sl, i': nat, off': nat)
      requires sgl.Shape() && sgl.Entries() == es && InPages(es)
      requires i < |es| && e == es[i] && At(es, done, i, off) && n <= Left(e, off) && done' == done + n
      ensures At(es, done', i', off') && (i' < |es| ==> e' == es[i'])
      ensures i <= i' <= |es| && (n == Left(e, off) ==> i' == i + 1)
    {
      e', i', off' := e, i, off + n;
      AtMoves(es, done, i, off, n);
      if AtEnd(e, off') {
        e' := Peek(sgl, i + 1);
        AtNext(es, done', i, off', e'.offset);
        i', off' := i + 1, e'.offset;
      }
    }

    /**
     kfio_sgl_copy_data.  When a walk ends before `length` bytes the code runs off that list's table,
     and what memory holds then is unknown; every entry starts inside its page.
     */
    method CopyData(dst: SgList.SgList, src: SgList.SgList, length: nat) returns (r: int, ghost ranOff: bool)
      requires dst.Valid() && src.Valid() && length < 0x8000_0000
      requires InPages(dst.Entries()) && InPages(src.Entries())
      modifies this
      ensures r == if length > dst.sglSize || length > src.sglSize then EFAULT else 0
      ensures ranOff <==> r == 0 && (length > |Walk(dst.Entries())| || length > |Walk(src.Entries())|)
      ensures r != 0 ==> bytes == old(bytes)
      ensures r == 0 && !ranOff ==>
                bytes == Copied(old(bytes), Walk(dst.Entries())[..length], Walk(src.Entries())[..length])
    {
      var ld := Peek(dst, 0);
      var ls := Peek(src, 0);
      if length > dst.sglSize || length > src.sglSize {
        return EFAULT, false;
      }
      ranOff := CopyLoop(dst, src, ld, ls, length, dst.Entries(), src.Entries());
      r := 0;
    }

    /** As much as is left to copy, and as the current entries allow. */
    method SubLength(left: nat, ld: Sl, dOff: nat, ls: Sl, sOff: nat) returns (n: nat)
      ensures n <= left && n <= Left(ld, dOff) && n <= Left(ls, sOff)
      ensures n == left || n == Left(ld, dOff) || n == Left(ls, sOff)
    {
      n := left;
      n := Min(n, Left(ld, dOff));
      n := Min(n, Left(ls, sOff));
    }

    /** One round: the next n bytes of both walks. */
    method CopyPart(dPage: int, dOff: nat, ghost di: nat, sPage: int, sOff: nat, ghost si: nat, n: nat,
                    ghost m: Ram, ghost d: seq<Sl>, ghost s: seq<Sl>, ghost done: nat, ghost done': nat)
      requires done' == done + n
      requires At(d, done, di, dOff) && di < |d| && n <= Left(d[di], dOff) && dPage == d[di].page
      requires At(s, done, si, sOff) && si < |s| && n <= Left(s[si], sOff) && sPage == s[si].page
      requires Progress(m, bytes, d, s, done)
      modifies this
      ensures Progress(m, bytes, d, s, done')
    {
      AtMoves(d, done, di, dOff, n);
      AtMoves(s, done, si, sOff, n);
      CopiedFurther(m, Walk(d), Walk(s), done, done');
      MemCpy(Piece(dPage, dOff, n), Piece(sPage, sOff, n));
    }

    /** One round of the loop: copy as much as both entries allow, and move both cursors. */
    method Round(dst: SgList.SgList, src: SgList.SgList, ld: Sl, di: nat, dOff: nat, ls: Sl, si: nat, sOff: nat,
                 left: nat, ghost m: Ram, ghost d: seq<Sl>, ghost s: seq<Sl>, ghost done: nat)
      returns (ld': Sl, di': nat, dOff': nat, ls': Sl, si': nat, sOff': nat, left': nat, ghost done': nat)
      requires dst.Shape() && src.Shape() && dst.Entries() == d && src.Entries() == s && InPages(d) && InPages(s)
      requires left > 0 && di < |d| && si < |s| && ld == d[di] && ls == s[si]
      requires At(d, done, di, dOff) && At(s, done, si, sOff) && Progress(m, bytes, d, s, done)
      modifies this
      ensures left' <= left && done' + left' == done + left && Progress(m, bytes, d, s, done')
      ensures At(d, done', di', dOff') && (di' < |d| ==> ld' == d[di'])
      ensures At(s, done', si', sOff') && (si' < |s| ==> ls' == s[si'])
      ensures di <= di' <= |d| && si <= si' <= |s| && (left' == left ==> di + si < di' + si')
    {
      var subLength := SubLength(left, ld, dOff, ls, sOff);
      left', done' := left - subLength, done + subLength;
      CopyPart(ld.page, dOff, di, ls.page, sOff, si, subLength, m, d, s, done, done');
      ld', di', dOff' := Advance(dst, ld, di, dOff, subLength, d, done, done');
      ls', si', sOff' := Advance(src, ls, si, sOff, subLength, s, done, done');
    }

    /** Copying from or to what lies behind a table. */
    method RunOff()
      modifies this
    {
      bytes := *;
    }

    method CopyLoop(dst: SgList.SgList, src: SgList.SgList, ldst: Sl, lsrc: Sl, length: nat,
                    ghost d: seq<Sl>, ghost s: seq<Sl>) returns (ghost ranOff: bool)
      requires dst.Shape() && src.Shape() && dst.Entries() == d && src.Entries() == s
      requires InPages(d) && InPages(s)
      requires (d != [] ==> ldst == d[0]) && (s != [] ==> lsrc == s[0])
      modifies this
      ensures ranOff <==> !Reached(d, s, length)
      ensures !ranOff ==> Progress(old(bytes), bytes, d, s, length)
    {
      var ld, ls, dOff, sOff := ldst, lsrc, ldst.offset, lsrc.offset;
      var left: nat, di: nat, si: nat := length, 0, 0;
      ghost var done: nat, m := 0, bytes;
      assert dst.numEntries == |d| && src.numEntries == |s|;
      while left > 0
        invariant dst.numEntries == |d| && src.numEntries == |s|
        invariant done + left == length && At(d, done, di, dOff) && At(s, done, si, sOff)
        invariant (di < |d| ==> ld == d[di]) && (si < |s| ==> ls == s[si])
        invariant Progress(m, bytes, d, s, done)
        decreases left, |d| - di + |s| - si
      {
        if di >= dst.numEntries || si >= src.numEntries {
          RunOff();
          ranOff := true;
          return;
        }
        ld, di, dOff, ls, si, sOff, left, done := Round(dst, src, ld, di, dOff, ls, si, sOff, left, m, d, s, done);
      }
      ranOff := false;
    }
  }

  /** Both walks are long enough. */
  ghost predicate Reached(d: seq<Sl>, s: seq<Sl>, n: nat) {
    n <= |Walk(d)| && n <= |Walk(s)|
  }

  ghost predicate Progress(m: Ram, bytes: Ram, d: seq<Sl>, s: seq<Sl>, done: nat) {
    && done <= |Walk(d)| && done <= |Walk(s)|
    && bytes == Copied(m, Walk(d)[..done], Walk(s)[..done])
  }
}
