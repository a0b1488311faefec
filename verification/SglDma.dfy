/** Slices of a list mapped for the device, and the enumeration of their bus segments. */
module SglDma {
  import opened Machine
  import opened Pieces
  import opened ScatterList
  import SgList

  function BusOf(es: seq<Sl>): (ps: seq<Piece>)
    ensures |ps| == |es| && forall i :: 0 <= i < |es| ==> ps[i] == es[i].Bus()
  {
    seq(|es|, i requires 0 <= i < |es| => es[i].Bus())
  }

  /** The bus addresses the device sees, in order. */
  function Bus(es: seq<Sl>): seq<Address> {
    Flat(BusOf(es))
  }

  /** Bytes before entry i. */
  function Before(es: seq<Sl>, i: nat): nat
    requires i <= |es|
  {
    if i == 0 then 0 else Before(es, i - 1) + es[i - 1].length
  }

  lemma {:induction false} BeforeIsPrefix(es: seq<Sl>, i: nat)
    requires i <= |es|
    ensures Before(es, i) == Total(BusOf(es)[..i]) == Total(MemOf(es)[..i])
  {
    if i > 0 {
      BeforeIsPrefix(es, i - 1);
      NextPrefix(BusOf(es), i - 1);
      NextPrefix(MemOf(es), i - 1);
    }
  }

  lemma {:induction false} BusSize(es: seq<Sl>)
    ensures Before(es, |es|) == Size(es) == |Bus(es)|
  {
    BeforeIsPrefix(es, |es|);
    assert BusOf(es)[..|es|] == BusOf(es) && MemOf(es)[..|es|] == MemOf(es);
    FlatLength(BusOf(es));
  }

  lemma {:induction false} BeforeMonotone(es: seq<Sl>, i: nat, j: nat)
    requires i <= j <= |es|
    ensures Before(es, i) <= Before(es, j)
    decreases j - i
  {
    if i < j {
      BeforeMonotone(es, i + 1, j);
    }
  }

  lemma {:induction false} Between(es: seq<Sl>, first: nat, i: nat, last: nat)
    requires first < i <= last < |es|
    ensures Before(es, first + 1) <= Before(es, i) <= Before(es, last)
    ensures i < last ==> Before(es, i + 1) <= Before(es, last)
  {
    BeforeMonotone(es, first + 1, i);
    BeforeMonotone(es, i, last);
    if i < last {
      BeforeMonotone(es, i + 1, last);
    }
  }

  function Max(a: int, b: int): int { if a < b then b else a }

  function Min(a: int, b: int): int { if a < b then a else b }

  /** The part of entry i that lies between bytes lo and hi of the list. */
  function Clip(es: seq<Sl>, i: nat, lo: nat, hi: nat): Piece
    requires i < |es|
  {
    var from, to := Max(Before(es, i), lo), Min(Before(es, i + 1), hi);
    Piece(-1, es[i].dma + from - Before(es, i), Max(0, to - from))
  }

  /** Any stretch of entry i is the same stretch of the flat sequence. */
  lemma {:induction false} BytesInside(es: seq<Sl>, i: nat, skip: nat, len: nat)
    requires i < |es| && skip + len <= es[i].length
    ensures Before(es, i) + skip + len <= |Bus(es)|
    ensures Bytes(Piece(-1, es[i].dma + skip, len)) == Bus(es)[Before(es, i) + skip..Before(es, i) + skip + len]
  {
    BusSize(es);
    BeforeMonotone(es, i + 1, |es|);
    BeforeIsPrefix(es, i);
    var start := Before(es, i) + skip;
    var mine, whole := Bytes(Piece(-1, es[i].dma + skip, len)), Bus(es);
    forall k | 0 <= k < len
      ensures mine[k] == whole[start + k]
    {
      ByteAt(BusOf(es), i, start + k);
    }
  }

  lemma {:induction false} ClipBytes(es: seq<Sl>, i: nat, lo: nat, hi: nat)
    requires i < |es| && lo <= hi && lo <= Before(es, i + 1) && Before(es, i) <= hi
    ensures 0 <= Max(Before(es, i), lo) <= Min(Before(es, i + 1), hi) <= |Bus(es)|
    ensures Bytes(Clip(es, i, lo, hi)) == Bus(es)[Max(Before(es, i), lo)..Min(Before(es, i + 1), hi)]
  {
    var from, to := Max(Before(es, i), lo), Min(Before(es, i + 1), hi);
    BytesInside(es, i, from - Before(es, i), to - from);
  }

  /** The clipped entries first .. first + n. */
  function Clips(es: seq<Sl>, first: nat, lo: nat, hi: nat, n: nat): (ps: seq<Piece>)
    requires first + n <= |es|
    ensures |ps| == n
  {
    if n == 0 then [] else Clips(es, first, lo, hi, n - 1) + [Clip(es, first + n - 1, lo, hi)]
  }

  lemma {:induction false} ClipsBytes(es: seq<Sl>, first: nat, lo: nat, hi: nat, n: nat)
    requires 0 < n && first + n <= |es| && lo <= hi
    requires Before(es, first) <= lo <= Before(es, first + 1) && Before(es, first + n - 1) <= hi
    ensures lo <= Min(Before(es, first + n), hi) <= |Bus(es)|
    ensures Flat(Clips(es, first, lo, hi, n)) == Bus(es)[lo..Min(Before(es, first + n), hi)]
  {
    var i := first + n - 1;
    BeforeMonotone(es, first + 1, i + 1);
    ClipBytes(es, i, lo, hi);
    if n == 1 {
    } else {
      BeforeMonotone(es, first + 1, i);
      ClipsBytes(es, first, lo, hi, n - 1);
      JoinTile(Clips(es, first, lo, hi, n - 1), Clip(es, i, lo, hi), Bus(es), lo,
               Before(es, i), Min(Before(es, i + 1), hi));
    }
  }

  /** The fields of a dma map that enumeration uses; entries are named by index. */
  datatype Window = Window(first: nat, last: nat, skip: nat, trunc: nat, count: nat, length: nat)

  /**
   w covers the bytes offset .. offset + length: its first entry holds byte `offset`, its last entry
   is the first one at or after it by which `length` bytes are reached.
   */
  ghost predicate Covers(es: seq<Sl>, w: Window, offset: nat, length: nat) {
    && w.first <= w.last < |es|
    && Before(es, w.first) + w.skip == offset < Before(es, w.first + 1)
    && Before(es, w.last + 1) == offset + length + w.trunc
    && (w.last == w.first || Before(es, w.last) < offset + length)
    && w.count == w.last - w.first + 1
    && w.length == length
  }

  /** While a slice grows: it covers the bytes from `offset` up to the end of its last entry. */
  ghost predicate Growing(es: seq<Sl>, w: Window, offset: nat, length: nat) {
    && w.first <= w.last < |es|
    && Before(es, w.first) + w.skip == offset < Before(es, w.first + 1)
    && Before(es, w.last + 1) == offset + w.length
    && (w.last == w.first || Before(es, w.last) < offset + length)
    && w.count == w.last - w.first + 1
  }

  lemma {:induction false} GrowingGrows(es: seq<Sl>, w: Window, offset: nat, length: nat)
    requires Growing(es, w, offset, length) && w.last + 1 < |es| && w.length < length
    ensures Growing(es, w.(last := w.last + 1, count := w.count + 1, length := w.length + es[w.last + 1].length),
                    offset, length)
  {
  }

  /** The segments a caller gets by calling first, and then next until it returns nothing. */
  function Slice(es: seq<Sl>, w: Window, offset: nat, length: nat): (ps: seq<Piece>)
    requires w.first + w.count <= |es|
  {
    Clips(es, w.first, offset, offset + length, w.count)
  }

  /**
   Enumerating a slice yields exactly the bus bytes offset .. offset + length of the list, in
   sge_count pieces that add up to map_length.
   */
  lemma {:induction false} SliceIsExact(es: seq<Sl>, w: Window, offset: nat, length: nat)
    requires Covers(es, w, offset, length)
    ensures var ps := Slice(es, w, offset, length);
      && offset + length <= |Bus(es)|
      && Flat(ps) == Bus(es)[offset..offset + length]
      && |ps| == w.count && Total(ps) == w.length == length
  {
    BeforeMonotone(es, w.first, w.last);
    ClipsBytes(es, w.first, offset, offset + length, w.count);
    FlatLength(Clips(es, w.first, offset, offset + length, w.count));
  }

  /** The slice starts in the entry, and at the byte of it, that kfio_sgl_get_byte_pointer finds. */
  lemma {:induction false} SliceStartsAtBytePointer(es: seq<Sl>, w: Window, offset: nat, length: nat)
    requires Covers(es, w, offset, length)
    ensures offset < |Memory(es)|
    ensures Memory(es)[offset] == Address(es[w.first].page, es[w.first].offset + w.skip)
    ensures Clip(es, w.first, offset, offset + length).start == es[w.first].dma + w.skip
  {
    BeforeIsPrefix(es, w.first);
    ByteAt(MemOf(es), w.first, offset);
  }

  // ---------------------------------------------------------------- the object

  class DmaMap {
    var mapOffset: nat
    var mapLength: nat
    var sgeCount: nat
    var sgeSkip: nat
    var sgeTrunc: nat
    var sgeFirst: int   // index of an entry, -1 for NULL
    var sgeLast: int
    var lsg: SgList.SgList?

    /** A zeroed map. */
    constructor ()
      ensures sgeFirst == -1
    {
      mapOffset, mapLength, sgeCount, sgeSkip, sgeTrunc := 0, 0, 0, 0, 0;
      sgeFirst, sgeLast, lsg := -1, -1, null;
    }

    function View(): Window
      requires sgeFirst >= 0 && sgeLast >= 0
      reads this
    {
      Window(sgeFirst, sgeLast, sgeSkip, sgeTrunc, sgeCount, mapLength)
    }

    /** The entry that holds byte `offset`: the first loop. */
    method FindFirst(sgl: SgList.SgList, offset: nat)
      requires sgl.Shape() && sgl.numMapped == sgl.numEntries && offset < Size(sgl.Entries())
      modifies this
      ensures lsg == sgl && mapOffset == offset && 0 <= sgeFirst == sgeLast < sgl.numEntries && sgeCount == 1
      ensures Before(sgl.Entries(), sgeFirst) + sgeSkip == offset
      ensures mapLength > 0 && Before(sgl.Entries(), sgeFirst + 1) == offset + mapLength
    {
      ghost var es := sgl.Entries();
      BusSize(es);
      mapOffset := offset;
      lsg := sgl;
      var left := offset;
      var i := 0;
      while i < sgl.numMapped
        invariant 0 <= i <= |es| && 0 <= left && Before(es, i) + left == offset
        invariant mapOffset == offset && lsg == sgl
        decreases |es| - i
      {
        if left < sgl.sl[i].length {
          sgeFirst, sgeLast := i, i;
          mapLength := sgl.sl[i].length - left;
          sgeSkip := left;
          sgeCount := 1;
          break;
        }
        left := left - sgl.sl[i].length;
        i := i + 1;
      }
    }

    /** Grow a slice that so far is its first entry until it has `length` bytes: the second loop. */
    method FindLast(sgl: SgList.SgList, length: nat, ghost es: seq<Sl>)
      requires sgl.Shape() && sgl.numMapped == |es| && sgl.Entries() == es
      requires sgeFirst >= 0 && sgeLast == sgeFirst && Growing(es, View(), mapOffset, length)
      requires mapOffset + length <= Before(es, |es|)
      modifies `sgeLast, `sgeCount, `sgeTrunc, `mapLength
      ensures sgeLast >= 0 && Covers(es, View(), mapOffset, length)
    {
      ghost var w := View();
      var i := sgeFirst + 1;
      while i <= sgl.numMapped
        invariant sgeLast >= 0 && View() == w
        invariant i == w.last + 1 && Growing(es, w, mapOffset, length)
        decreases |es| - i
      {
        if mapLength >= length {
          sgeTrunc := mapLength - length;
          mapLength := mapLength - sgeTrunc;
          w := w.(trunc := sgeTrunc, length := length);
          break;
        }
        assert sgl.sl[i] == es[i];
        GrowingGrows(es, w, mapOffset, length);
        w := w.(last := w.last + 1, count := w.count + 1, length := w.length + es[w.last + 1].length);
        mapLength := mapLength + sgl.sl[i].length;
        sgeLast := i;
        sgeCount := sgeCount + 1;
        i := i + 1;
      }
      assert Covers(es, w, mapOffset, length);
    }

    /** kfio_sgl_dma_slice on a fully mapped list. */
    method MakeSlice(sgl: SgList.SgList, offset: nat, length: nat)
      requires sgl.Shape() && sgl.numMapped == sgl.numEntries && Size(sgl.Entries()) < U32
      requires offset < Size(sgl.Entries()) && offset + length <= Size(sgl.Entries())
      modifies this
      ensures sgeFirst >= 0 && sgeLast >= 0 && lsg == sgl && mapOffset == offset
      ensures Covers(sgl.Entries(), View(), offset, length)
    {
      BusSize(sgl.Entries());
      FindFirst(sgl, offset);
      FindLast(sgl, length, sgl.Entries());
    }

    /** kfio_dma_map_first: an iterator, or -1, and the first segment. */
    method First(ghost offset: nat, ghost length: nat) returns (iter: int, seg: Piece)
      requires sgeFirst >= 0 ==> lsg != null && lsg.Shape() && sgeLast >= 0
      requires sgeFirst >= 0 ==> Covers(lsg.Entries(), View(), offset, length)
      ensures iter == if sgeFirst >= 0 then sgeFirst else -1
      ensures sgeFirst >= 0 ==> seg == Clip(lsg.Entries(), sgeFirst, offset, offset + length)
    {
      seg := Piece(0, 0, 0);
      if sgeFirst >= 0 {
        ghost var es := lsg.Entries();
        assert sgeFirst < sgeLast ==> Before(es, sgeFirst + 1) <= Before(es, sgeLast) by {
          if sgeFirst < sgeLast {
            BeforeMonotone(es, sgeFirst + 1, sgeLast);
          }
        }
        var e := lsg.sl[sgeFirst];
        assert e == es[sgeFirst];
        var len := e.length - sgeSkip;
        if sgeFirst == sgeLast {
          len := len - sgeTrunc;
        }
        return sgeFirst, Piece(-1, e.dma + sgeSkip, len);
      }
      return -1, seg;
    }

    /** kfio_dma_map_next: the iterator after `at` and its segment, or -1 after the last. */
    method Next(ghost offset: nat, ghost length: nat, at: int) returns (iter: int, seg: Piece)
      requires 0 <= sgeFirst <= at && lsg != null && lsg.Shape() && sgeLast >= 0
      requires Covers(lsg.Entries(), View(), offset, length)
      ensures iter == if at < sgeLast then at + 1 else -1
      ensures at < sgeLast ==> seg == Clip(lsg.Entries(), at + 1, offset, offset + length)
    {
      seg := Piece(0, 0, 0);
      if at >= sgeFirst && at < sgeLast {
        ghost var es := lsg.Entries();
        iter := at + 1;
        Between(es, sgeFirst, iter, sgeLast);
        var e := lsg.sl[iter];
        assert e == es[iter];
        var len := e.length;
        if iter == sgeLast {
          len := len - sgeTrunc;
        }
        return iter, Piece(-1, e.dma, len);
      }
      return -1, seg;
    }

    /** What a user of the interface does: first, then next until it returns nothing. */
    method Enumerate(ghost offset: nat, ghost length: nat) returns (segs: seq<Piece>)
      requires 0 <= sgeFirst && 0 <= sgeLast && lsg != null && lsg.Shape()
      requires Covers(lsg.Entries(), View(), offset, length)
      ensures segs == Slice(lsg.Entries(), View(), offset, length)
    {
      ghost var es, hi := lsg.Entries(), offset + length;
      var iter, seg := First(offset, length);
      segs := [];
      while iter >= 0
        invariant iter >= 0 ==> iter == sgeFirst + |segs| <= sgeLast && seg == Clip(es, iter, offset, hi)
        invariant iter < 0 ==> |segs| == sgeCount
        invariant |segs| <= sgeCount && segs == Clips(es, sgeFirst, offset, hi, |segs|)
        decreases sgeCount - |segs|
      {
        segs := segs + [seg];
        assert segs == Clips(es, sgeFirst, offset, hi, |segs|);
        iter, seg := Next(offset, length, iter);
      }
    }
  }
}
