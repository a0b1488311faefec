/** Building a scatter-gather list: pages, bios with merging and rollback, kernel buffers. */
module ScatterList {
  import opened Machine
  import opened Pieces

  /** An entry of the list: a stretch of a page, and its bus address once mapped for the device. */
  datatype Sl = Sl(page: int, offset: nat, length: nat, dma: int) {
    function Mem(): Piece {
      Piece(page, offset, length)
    }

    function Bus(): Piece {
      Piece(-1, dma, length)
    }
  }

  const PAGE_SIZE: nat := 4096

  /** 32-bit addition of 32-bit operands. */
  function Add32(a: int, b: int): int {
    if a + b < 0x1_0000_0000 then a + b else a + b - 0x1_0000_0000
  }

  /** n modulo 2^32. */
  function Mod32(n: nat): (r: nat)
    ensures r < U32
  {
    if n < 0x1_0000_0000 then n else Mod32(n - 0x1_0000_0000)
  }

  lemma {:induction false} Mod32IsRemainder(n: nat)
    ensures Mod32(n) == n % 0x1_0000_0000
  {
    if n >= 0x1_0000_0000 {
      Mod32IsRemainder(n - 0x1_0000_0000);
      assert n % 0x1_0000_0000 == (n - 0x1_0000_0000) % 0x1_0000_0000;
    }
  }

  lemma {:induction false} Mod32Add(n: nat, b: nat)
    requires b < U32
    ensures Add32(Mod32(n), b) == Mod32(n + b)
  {
    if n >= 0x1_0000_0000 {
      Mod32Add(n - 0x1_0000_0000, b);
    }
  }

  function MemOf(es: seq<Sl>): (ps: seq<Piece>)
    ensures |ps| == |es| && forall i :: 0 <= i < |es| ==> ps[i] == es[i].Mem()
  {
    seq(|es|, i requires 0 <= i < |es| => es[i].Mem())
  }

  /** The bytes of memory a list describes, in order. */
  function Memory(es: seq<Sl>): seq<Address> {
    Flat(MemOf(es))
  }

  function Size(es: seq<Sl>): nat {
    Total(MemOf(es))
  }

  // ---------------------------------------------------------------- mapping a bio, as a function

  datatype Option<T> = None | Some(value: T)

  /** The segment continues the last entry. */
  predicate Continues(es: seq<Sl>, p: Piece) {
    es != [] && es[|es| - 1].page == p.space && es[|es| - 1].offset + es[|es| - 1].length == p.start
  }

  /** Add one segment: grow the last entry, or append a new one if the segment lies inside a page. */
  function AddSegment(es: seq<Sl>, p: Piece): Option<seq<Sl>>
    requires 0 <= p.start
  {
    if Continues(es, p) then Some(es[|es| - 1 := es[|es| - 1].(length := es[|es| - 1].length + p.len)])
    else if p.start + p.len > PAGE_SIZE then None
    else Some(es + [Sl(p.space, p.start, p.len, 0)])
  }

  /** Segments as the kernel hands them out: 32-bit positions that do not wrap. */
  predicate Segments(ps: seq<Piece>) {
    forall i :: 0 <= i < |ps| ==> 0 <= ps[i].start && ps[i].start + ps[i].len < U32
  }

  function AddSegments(es: seq<Sl>, ps: seq<Piece>): Option<seq<Sl>>
    requires Segments(ps)
  {
    if ps == [] then Some(es)
    else
      match AddSegments(es, ps[..|ps| - 1])
      case None => None
      case Some(r) => AddSegment(r, ps[|ps| - 1])
  }

  lemma {:induction false} AddSegmentMeaning(es: seq<Sl>, p: Piece)
    requires 0 <= p.start && AddSegment(es, p).Some?
    ensures var r := AddSegment(es, p).value;
      && Memory(r) == Memory(es) + Bytes(p)
      && Size(r) == Size(es) + p.len
      && |es| <= |r| <= |es| + 1
  {
    var r := AddSegment(es, p).value;
    if Continues(es, p) {
      var front, last := es[..|es| - 1], es[|es| - 1];
      assert MemOf(es) == MemOf(front) + [last.Mem()];
      assert MemOf(r) == MemOf(front) + [last.Mem().(len := last.length + p.len)];
      FlatAppend(MemOf(front), last.Mem());
      FlatAppend(MemOf(front), last.Mem().(len := last.length + p.len));
    } else {
      assert MemOf(r) == MemOf(es) + [p];
      FlatAppend(MemOf(es), p);
    }
  }

  /** Merging loses nothing: the list's bytes are the old ones followed by the bio's. */
  lemma {:induction false} AddSegmentsMeaning(es: seq<Sl>, ps: seq<Piece>)
    requires Segments(ps) && AddSegments(es, ps).Some?
    ensures var r := AddSegments(es, ps).value;
      && Memory(r) == Memory(es) + Flat(ps)
      && Size(r) == Size(es) + Total(ps)
      && |es| <= |r| <= |es| + |ps|
  {
    if ps == [] {
    } else {
      var front, p := ps[..|ps| - 1], ps[|ps| - 1];
      AddSegmentsMeaning(es, front);
      AddSegmentMeaning(AddSegments(es, front).value, p);
      Assoc(Memory(es), Flat(front), Bytes(p));
    }
  }

  /** Segment i goes on where the one before it, or the list, ends. */
  ghost predicate Follows(es: seq<Sl>, ps: seq<Piece>, i: nat)
    requires i < |ps|
  {
    if i == 0 then Continues(es, ps[0])
    else ps[i].space == ps[i - 1].space && ps[i].start == ps[i - 1].start + ps[i - 1].len
  }

  /** Segments that begin a new stretch. */
  ghost function Breaks(es: seq<Sl>, ps: seq<Piece>): nat {
    if ps == [] then 0 else Breaks(es, ps[..|ps| - 1]) + if Follows(es, ps, |ps| - 1) then 0 else 1
  }

  /** Segment i neither goes on nor lies in its page. */
  ghost predicate Strays(es: seq<Sl>, ps: seq<Piece>, i: nat)
    requires i < |ps|
  {
    !Follows(es, ps, i) && ps[i].start + ps[i].len > PAGE_SIZE
  }

  /** The list ends where the last segment ends, so that the next one is merged exactly if it follows. */
  lemma {:induction false} LastSegment(es: seq<Sl>, ps: seq<Piece>)
    requires Segments(ps) && ps != [] && AddSegments(es, ps[..|ps| - 1]).Some?
    ensures Continues(AddSegments(es, ps[..|ps| - 1]).value, ps[|ps| - 1]) <==> Follows(es, ps, |ps| - 1)
  {
    var front := ps[..|ps| - 1];
    if front != [] {
      var before := AddSegments(es, front[..|front| - 1]).value;
      assert AddSegment(before, front[|front| - 1]) == AddSegments(es, front);
    }
  }

  lemma {:induction false} StraysEarlier(es: seq<Sl>, ps: seq<Piece>, i: nat)
    requires i + 1 < |ps|
    ensures Strays(es, ps, i) <==> Strays(es, ps[..|ps| - 1], i)
  {
  }

  /**
   Mapping segments is refused exactly when one of them neither goes on where the one before it ends nor
   lies in its page; and it makes one entry for each that does not go on: all others are merged.
   */
  lemma {:induction false} AddSegmentsIff(es: seq<Sl>, ps: seq<Piece>)
    requires Segments(ps)
    ensures AddSegments(es, ps).None? <==> exists i :: 0 <= i < |ps| && Strays(es, ps, i)
    ensures AddSegments(es, ps).Some? ==> |AddSegments(es, ps).value| == |es| + Breaks(es, ps)
  {
    if ps != [] {
      var front, last := ps[..|ps| - 1], |ps| - 1;
      AddSegmentsIff(es, front);
      forall i | 0 <= i < last
        ensures Strays(es, ps, i) <==> Strays(es, front, i)
      {
        StraysEarlier(es, ps, i);
      }
      if AddSegments(es, front).Some? {
        LastSegment(es, ps);
        assert AddSegments(es, ps).None? <==> Strays(es, ps, last);
      } else {
        var i :| 0 <= i < |front| && Strays(es, front, i);
        assert Strays(es, ps, i);
      }
    }
  }

  /** Entry k goes on where the entry before it ends. */
  ghost predicate Unmerged(es: seq<Sl>, k: nat)
    requires 0 < k < |es|
  {
    es[k - 1].page == es[k].page && es[k - 1].offset + es[k - 1].length == es[k].offset
  }

  /** No two entries are left that could have been merged. */
  lemma {:induction false} AllMerged(es: seq<Sl>, ps: seq<Piece>, k: nat)
    requires Segments(ps) && AddSegments(es, ps).Some?
    requires 0 < k < |AddSegments(es, ps).value| && |es| <= k
    ensures !Unmerged(AddSegments(es, ps).value, k)
  {
    if ps != [] {
      var before := AddSegments(es, ps[..|ps| - 1]).value;
      if k < |before| {
        AllMerged(es, ps[..|ps| - 1], k);
      }
    }
  }

  /** No entry's end wraps at 32 bits. */
  predicate NoWrap(es: seq<Sl>) {
    forall i :: 0 <= i < |es| ==> es[i].offset + es[i].length < U32
  }

  /** Setting back the length of entry |es| - 1 and dropping what follows turns r into es again. */
  ghost predicate Restorable(es: seq<Sl>, r: seq<Sl>) {
    && |es| <= |r|
    && (forall i :: 0 <= i < |es| - 1 ==> r[i] == es[i])
    && (es != [] ==> r[|es| - 1].(length := es[|es| - 1].length) == es[|es| - 1])
  }

  /** Adding segments changes nothing that the rollback does not set back. */
  lemma {:induction false} AddSegmentsGrow(es: seq<Sl>, ps: seq<Piece>)
    requires Segments(ps) && AddSegments(es, ps).Some?
    ensures Restorable(es, AddSegments(es, ps).value) && |AddSegments(es, ps).value| <= |es| + |ps|
  {
    if ps != [] {
      AddSegmentsGrow(es, ps[..|ps| - 1]);
    }
  }

  lemma {:induction false} FailureSticks(es: seq<Sl>, ps: seq<Piece>, k: nat)
    requires Segments(ps) && k <= |ps| && AddSegments(es, ps[..k]).None?
    ensures AddSegments(es, ps).None?
  {
    if k < |ps| {
      assert ps[..|ps| - 1][..k] == ps[..k];
      FailureSticks(es, ps[..|ps| - 1], k);
    } else {
      assert ps[..k] == ps;
    }
  }

  /** Segments that lie inside their pages can always be added. */
  lemma {:induction false} PageSegmentsFit(es: seq<Sl>, ps: seq<Piece>)
    requires Segments(ps) && forall i :: 0 <= i < |ps| ==> ps[i].start + ps[i].len <= PAGE_SIZE
    ensures AddSegments(es, ps).Some?
  {
    if ps != [] {
      PageSegmentsFit(es, ps[..|ps| - 1]);
    }
  }

  // ---------------------------------------------------------------- mapping a kernel buffer, as a function

  function PageOf(a: nat): nat {
    a / 4096
  }

  function InPage(a: nat): (r: nat)
    ensures r < PAGE_SIZE
  {
    a % 4096
  }

  /** The byte at a kernel address: its page and its offset in the page. */
  function AddressOf(a: nat): Address {
    Address(PageOf(a), InPage(a))
  }

  /** The bytes [buffer, buffer + size) one by one. */
  function Buffer(buffer: nat, size: nat): (bs: seq<Address>)
    ensures |bs| == size
  {
    seq(size, k requires 0 <= k => AddressOf(buffer + k))
  }

  /** The part of a buffer that lies in its first page. */
  function FirstChunk(buffer: nat, size: nat): (n: nat)
    ensures size > 0 ==> 0 < n <= size
    ensures n <= size && InPage(buffer) + n <= PAGE_SIZE
  {
    if size < PAGE_SIZE - InPage(buffer) then size else PAGE_SIZE - InPage(buffer)
  }

  /** kfio_get_memory_range_num_pages, for a range that does not wrap and fits in 32 bits of pages. */
  function RangePages(start: nat, len: nat): int {
    PageOf(start + len + 4095) - PageOf(start)
  }

  /** One entry per page touched. */
  function PageEntries(buffer: nat, size: nat): seq<Sl>
    decreases size
  {
    if size == 0 then []
    else
      var n := FirstChunk(buffer, size);
      [Sl(PageOf(buffer), InPage(buffer), n, 0)] + PageEntries(buffer + n, size - n)
  }

  lemma {:induction false} ChunkBytes(buffer: nat, size: nat)
    requires size > 0
    ensures var n := FirstChunk(buffer, size);
      Buffer(buffer, size) == Bytes(Piece(PageOf(buffer), InPage(buffer), n)) + Buffer(buffer + n, size - n)
  {
    var n := FirstChunk(buffer, size);
    var whole := Buffer(buffer, size);
    var parts := Bytes(Piece(PageOf(buffer), InPage(buffer), n)) + Buffer(buffer + n, size - n);
    forall k | 0 <= k < size
      ensures whole[k] == parts[k]
    {
      if k < n {
        SamePage(buffer, k);
      } else {
        assert parts[k] == AddressOf((buffer + n) + (k - n));
      }
    }
  }

  lemma {:induction false} SamePage(a: nat, k: nat)
    requires InPage(a) + k < PAGE_SIZE
    ensures PageOf(a + k) == PageOf(a) && InPage(a + k) == InPage(a) + k
  {
    assert a + k == (a / 4096) * 4096 + (a % 4096 + k);
  }

  lemma {:induction false} PageEntriesCount(buffer: nat, size: nat)
    ensures |PageEntries(buffer, size)| == if size == 0 then 0 else RangePages(buffer, size)
    decreases size
  {
    if size != 0 {
      PageEntriesCount(buffer + FirstChunk(buffer, size), size - FirstChunk(buffer, size));
    }
  }

  lemma {:induction false} PageEntriesInPages(buffer: nat, size: nat)
    ensures forall i :: 0 <= i < |PageEntries(buffer, size)| ==>
      PageEntries(buffer, size)[i].offset + PageEntries(buffer, size)[i].length <= PAGE_SIZE
    decreases size
  {
    if size != 0 {
      PageEntriesInPages(buffer + FirstChunk(buffer, size), size - FirstChunk(buffer, size));
    }
  }

  lemma {:induction false} PageEntriesBytes(buffer: nat, size: nat)
    ensures Memory(PageEntries(buffer, size)) == Buffer(buffer, size)
    ensures Size(PageEntries(buffer, size)) == size
    decreases size
  {
    if size != 0 {
      var n := FirstChunk(buffer, size);
      var e, rest := Sl(PageOf(buffer), InPage(buffer), n, 0), PageEntries(buffer + n, size - n);
      PageEntriesBytes(buffer + n, size - n);
      ChunkBytes(buffer, size);
      assert MemOf([e] + rest) == [e.Mem()] + MemOf(rest);
      FlatConcat([e.Mem()], MemOf(rest));
    }
  }

  /** The closed form counts the entries, each lies in one page, and together they are the buffer. */
  lemma {:induction false} PageEntriesMeaning(buffer: nat, size: nat)
    ensures size > 0 ==> |PageEntries(buffer, size)| == RangePages(buffer, size)
    ensures Memory(PageEntries(buffer, size)) == Buffer(buffer, size)
    ensures forall i :: 0 <= i < |PageEntries(buffer, size)| ==>
      PageEntries(buffer, size)[i].offset + PageEntries(buffer, size)[i].length <= PAGE_SIZE
  {
    PageEntriesCount(buffer, size);
    PageEntriesBytes(buffer, size);
    PageEntriesInPages(buffer, size);
  }

  ghost predicate SameButFirstPage(a: seq<Sl>, b: seq<Sl>) {
    && |a| == |b|
    && (forall i :: 0 < i < |a| ==> a[i] == b[i])
    && (a != [] ==> a[0] == b[0].(page := a[0].page))
  }

  lemma {:induction false} SameSizes(a: seq<Sl>, b: seq<Sl>)
    requires |a| == |b| && forall i :: 0 <= i < |a| ==> a[i].length == b[i].length
    ensures Size(a) == Size(b)
  {
    if a != [] {
      SameSizes(a[..|a| - 1], b[..|b| - 1]);
      assert MemOf(a)[..|a| - 1] == MemOf(a[..|a| - 1]) && MemOf(b)[..|b| - 1] == MemOf(b[..|b| - 1]);
    }
  }
}
