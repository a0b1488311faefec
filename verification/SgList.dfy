/** The scatter-gather list object, updated in place. */
module SgList {
  import opened Machine
  import opened Pieces
  import opened ScatterList

  class SgList {
    const maxEntries: nat
    const sl: array<Sl>
    var numEntries: nat
    var numMapped: nat
    var sglSize: int

    ghost predicate Shape()
      reads this
    {
      sl.Length == maxEntries < 0x8000_0000 && numMapped <= numEntries <= maxEntries
    }

    ghost predicate Valid()
      reads this, sl
    {
      && Shape()
      && NoWrap(Entries())
      && sglSize == Mod32(Size(Entries()))
    }

    function Entries(): seq<Sl>
      requires numEntries <= sl.Length
      reads this, sl
    {
      sl[..numEntries]
    }

    constructor (nvecs: nat)
      requires nvecs < 0x8000_0000
      ensures Valid() && fresh(sl) && maxEntries == nvecs && Entries() == []
    {
      maxEntries := nvecs;
      sl := new Sl[nvecs](_ => Sl(0, 0, 0, 0));
      numEntries, numMapped, sglSize := 0, 0, 0;
    }

    /**
     Append one entry; refuse it when the list is full or the span leaves its page.  The span's end is
     computed in 32 bits, so that one that wraps can pass; the list then holds an entry that wraps.
     */
    method MapPage(page: int, offset: nat, size: nat) returns (r: int)
      requires Valid() && offset < U32 && size < U32
      modifies `numEntries, `sglSize, sl
      ensures Shape() && sglSize == Mod32(Size(Entries()))
      ensures offset + size < U32 ==> Valid()
      ensures r == if old(numEntries) == maxEntries || Add32(offset, size) > PAGE_SIZE then EINVAL else 0
      ensures Entries() == if r == 0 then old(Entries()) + [Sl(page, offset, size, 0)] else old(Entries())
      ensures sl[..old(numEntries)] == old(Entries())
    {
      if numEntries >= maxEntries {
        return EINVAL;
      }
      if Add32(offset, size) > PAGE_SIZE {
        return EINVAL;
      }
      ghost var before := Entries();
      sl[numEntries] := Sl(page, offset, size, 0);
      numEntries := numEntries + 1;
      Mod32Add(Size(before), size);
      sglSize := Add32(sglSize, size);
      assert Entries() == before + [Sl(page, offset, size, 0)];
      assert MemOf(Entries()) == MemOf(before) + [Piece(page, offset, size)];
      FlatAppend(MemOf(before), Piece(page, offset, size));
      return 0;
    }

    /** Add one segment of a bio: into the last entry if it continues it, else as a new entry. */
    method MapSegment(vec: Piece) returns (r: int)
      requires Valid() && numEntries < maxEntries && 0 <= vec.start && vec.start + vec.len < U32
      modifies `numEntries, `sglSize, sl
      ensures Valid()
      ensures match AddSegment(old(Entries()), vec)
        case Some(es) => r == 0 && Entries() == es
        case None => r == EINVAL && Entries() == old(Entries())
    {
      ghost var before := Entries();
      if numEntries > 0 {
        var last := sl[numEntries - 1];
        if last.page == vec.space && Add32(last.offset, last.length) == vec.start {
          Mod32Add(Size(before), vec.len);
          AddSegmentMeaning(before, vec);
          sl[numEntries - 1] := last.(length := Add32(last.length, vec.len));
          sglSize := Add32(sglSize, vec.len);
          return 0;
        }
        if numEntries >= maxEntries {
          return EAGAIN;
        }
      }
      r := MapPage(vec.space, vec.start, vec.len);
    }

    /**
     kfio_sgl_map_bio.  All or nothing: either the list is the old one with the segments added and
     merged, or it is as it was.  EAGAIN only comes from the first test; the overflow test in the
     loop can never fire.
     */
    method MapBio(segs: seq<Piece>) returns (r: int)
      requires Valid() && Segments(segs) && |segs| < 0x8000_0000
      modifies `numEntries, `sglSize, sl
      ensures Valid()
      ensures r == EAGAIN <==> old(numEntries) + |segs| > maxEntries
      ensures r == 0 <==> old(numEntries) + |segs| <= maxEntries && AddSegments(old(Entries()), segs).Some?
      ensures r == 0 || r == EAGAIN || r == EINVAL
      ensures if r == 0 then AddSegments(old(Entries()), segs) == Some(Entries())
              else Entries() == old(Entries()) && sglSize == old(sglSize)
    {
      r := 0;
      if numEntries + |segs| > maxEntries {
        return EAGAIN;
      }
      ghost var es := Entries();
      var oldLen := if numEntries > 0 then sl[numEntries - 1].length else 0;
      var oldSglLen := numEntries;
      var oldSglSize := sglSize;

      for k := 0 to |segs|
        invariant Valid() && r == 0 && numEntries <= oldSglLen + k
        invariant AddSegments(es, segs[..k]) == Some(Entries()) && Restorable(es, Entries())
      {
        assert segs[..k + 1][..k] == segs[..k];
        r := MapSegment(segs[k]);
        if r != 0 {
          FailureSticks(es, segs, k + 1);
          break;
        }
        AddSegmentsGrow(es, segs[..k + 1]);
      }
      assert segs[..|segs|] == segs;
      if r != 0 {
        Restore(es, oldSglLen, oldSglSize, oldLen);
      }
    }

    /** The rollback: the old counts, and the old length of the entry that merging may have grown. */
    method Restore(ghost es: seq<Sl>, oldSglLen: nat, oldSglSize: int, oldLen: nat)
      requires Valid() && numMapped <= oldSglLen == |es| && Restorable(es, Entries()) && NoWrap(es)
      requires oldSglSize == Mod32(Size(es)) && (es != [] ==> oldLen == es[|es| - 1].length)
      modifies `numEntries, `sglSize, sl
      ensures Valid() && Entries() == es && sglSize == oldSglSize
    {
      numEntries := oldSglLen;
      sglSize := oldSglSize;
      if oldSglLen > 0 {
        sl[oldSglLen - 1] := sl[oldSglLen - 1].(length := oldLen);
      }
      assert Entries() == es;
    }

    /** Append the entry for the part of a kernel buffer that lies in the current page. */
    method AppendChunk(bp: nat, mappedBytes: nat)
      requires Valid() && numEntries < maxEntries && InPage(bp) + mappedBytes <= PAGE_SIZE
      modifies `numEntries, `sglSize, sl
      ensures Valid() && Entries() == old(Entries()) + [Sl(PageOf(bp), InPage(bp), mappedBytes, 0)]
    {
      ghost var before := Entries();
      var e := Sl(PageOf(bp), InPage(bp), mappedBytes, 0);
      sl[numEntries] := e;
      numEntries := numEntries + 1;
      Mod32Add(Size(before), mappedBytes);
      sglSize := Add32(sglSize, mappedBytes);
      assert Entries() == before + [e];
      assert MemOf(Entries()) == MemOf(before) + [e.Mem()];
      FlatAppend(MemOf(before), e.Mem());
    }

    /**
     kfio_sgl_map_bytes_gen for a kernel buffer.  It fails exactly when the entries run out; what it
     appended until then stays, and the flag it writes one place behind the flag table by then has
     landed in the first entry, whose page is lost.
     */
    method MapBytes(buffer: nat, size: nat) returns (r: int)
      requires Valid() && size < U32 && buffer + size + PAGE_SIZE < 0x1_0000_0000_0000_0000
      modifies `numEntries, `sglSize, sl
      ensures Valid()
      ensures r == if old(numEntries) + |PageEntries(buffer, size)| <= maxEntries then 0 else ENOMEM
      ensures r == 0 ==> Entries() == old(Entries()) + PageEntries(buffer, size)
      ensures r != 0 ==> |Entries()| == maxEntries
      ensures r != 0 ==> SameButFirstPage(Entries(), (old(Entries()) + PageEntries(buffer, size))[..maxEntries])
    {
      var bp, left := buffer, size;
      ghost var es, done := Entries(), [];
      while left > 0
        invariant Valid() && 0 <= left <= size && 0 <= bp
        invariant Entries() == es + done
        invariant PageEntries(buffer, size) == done + PageEntries(bp, left)
      {
        if numEntries >= maxEntries {
          assert (es + PageEntries(buffer, size))[..maxEntries] == es + done;
          StrayFlagWrite();
          return ENOMEM;
        }
        var mappedBytes := if left < PAGE_SIZE - InPage(bp) then left else PAGE_SIZE - InPage(bp);
        AppendChunk(bp, mappedBytes);
        done := done + [Sl(PageOf(bp), InPage(bp), mappedBytes, 0)];
        assert es + done == Entries();
        bp, left := bp + mappedBytes, left - mappedBytes;
      }
      return 0;
    }

    /** Writing entry maxEntries of the flag table, which is the start of entry 0 of sl. */
    method StrayFlagWrite()
      requires Valid() && numEntries == maxEntries
      modifies sl
      ensures Valid() && SameButFirstPage(Entries(), old(Entries()))
    {
      ghost var es := Entries();
      if maxEntries > 0 {
        var junk: int := *;
        sl[0] := sl[0].(page := junk);
      }
      SameSizes(Entries(), es);
    }

    /**
     kfio_sgl_get_byte_pointer: the memory byte at an offset of the list, or nothing beyond its end.
     */
    method GetBytePointer(offset: nat) returns (b: Option<Address>)
      requires Valid() && Size(Entries()) < U32
      ensures b == if offset < |Memory(Entries())| then Some(Memory(Entries())[offset]) else None
    {
      var totalOffset := 0;
      ghost var ps := MemOf(Entries());
      FlatLength(ps);
      for i := 0 to numEntries
        invariant totalOffset == Total(ps[..i]) <= offset
      {
        NextPrefix(ps, i);
        if offset < totalOffset + sl[i].length {
          ByteAt(ps, i, offset);
          return Some(Address(sl[i].page, sl[i].offset + (offset - totalOffset)));
        }
        totalOffset := totalOffset + sl[i].length;
      }
      assert ps[..numEntries] == ps;
      return None;
    }
  }
}
