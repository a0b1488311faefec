/** Kernel I/O requests, and what a merged request must be. */
module BioRange {
  import opened Machine
  import opened Pieces
  import opened ScatterList

  const SECTOR: nat := 512
  const MAX_BLOCKS: nat := 2048

  type BlockSize = n: nat | n > 0 witness 512

  datatype Cmd = ReadCmd | WriteCmd | DiscardCmd

  /** A request of the kernel, known by its id; its link to the next one is kept by the driver object. */
  datatype Bio = Bio(id: int, sector: nat, size: nat, discard: bool, write: bool, sync: bool, atomicFlag: bool,
                     segs: seq<Piece>) {

    /** What the kernel guarantees: a discard carries no data, the segments of others add up. */
    predicate Ok() {
      Segments(segs) && |segs| < 0x8000_0000 && size < U32 && (discard || Total(segs) == size)
    }

    predicate AtomicWrite() {
      write && !discard && atomicFlag
    }

    predicate SyncWrite() {
      write && !discard && sync
    }

    function Command(): Cmd {
      if discard then DiscardCmd else if write then WriteCmd else ReadCmd
    }
  }

  // ---------------------------------------------------------------- blocks

  function Bid(b: Bio, bs: BlockSize): nat {
    b.sector * SECTOR / bs
  }

  function Blen(b: Bio, bs: BlockSize): nat {
    b.size / bs
  }

  predicate Aligned(b: Bio, bs: BlockSize) {
    b.sector * SECTOR % bs == 0 && b.size % bs == 0
  }

  function Blens(bios: seq<Bio>, bs: BlockSize): nat {
    if bios == [] then 0 else Blens(bios[..|bios| - 1], bs) + Blen(bios[|bios| - 1], bs)
  }

  function Sizes(bios: seq<Bio>): nat {
    if bios == [] then 0 else Sizes(bios[..|bios| - 1]) + bios[|bios| - 1].size
  }

  /** The segments of several bios, one after the other. */
  function Segs(bios: seq<Bio>): seq<Piece> {
    if bios == [] then [] else Segs(bios[..|bios| - 1]) + bios[|bios| - 1].segs
  }

  /** The bytes that do not fill a block. */
  function Slack(bios: seq<Bio>, bs: BlockSize): nat {
    if bios == [] then 0 else Slack(bios[..|bios| - 1], bs) + bios[|bios| - 1].size % bs
  }

  lemma {:induction false} Distribute(a: nat, b: nat, bs: BlockSize)
    ensures (a + b) * bs == a * bs + b * bs
  {
  }

  lemma {:induction false} BlocksAndSlack(bios: seq<Bio>, bs: BlockSize)
    ensures Blens(bios, bs) * bs + Slack(bios, bs) == Sizes(bios)
  {
    if bios != [] {
      var front, last := bios[..|bios| - 1], bios[|bios| - 1];
      BlocksAndSlack(front, bs);
      Distribute(Blens(front, bs), Blen(last, bs), bs);
    }
  }

  lemma {:induction false} SlackZero(bios: seq<Bio>, bs: BlockSize)
    ensures Slack(bios, bs) == 0 <==> forall i :: 0 <= i < |bios| ==> bios[i].size % bs == 0
  {
    if bios != [] {
      var front, last := bios[..|bios| - 1], bios[|bios| - 1];
      SlackZero(front, bs);
      assert forall i :: 0 <= i < |front| ==> front[i] == bios[i];
    }
  }

  /** The blocks of a merged request are the bytes of its bios exactly when every size is aligned. */
  lemma {:induction false} BlocksAreBytesIff(bios: seq<Bio>, bs: BlockSize)
    ensures Blens(bios, bs) * bs == Sizes(bios) <==> forall i :: 0 <= i < |bios| ==> bios[i].size % bs == 0
  {
    BlocksAndSlack(bios, bs);
    SlackZero(bios, bs);
  }

  // ---------------------------------------------------------------- a merged request

  /** What the core is given: the block range, the command, the list's entries and how many fit, the chain of bios. */
  datatype Fio = Fio(base: nat, length: nat, cmd: Cmd, sync: bool, atomicFlag: bool, entries: seq<Sl>, room: nat,
                     bios: seq<Bio>)

  /** The i-th bio begins at the block where the bios before it end. */
  ghost predicate BeginsAt(f: Fio, bs: BlockSize, i: nat)
    requires i < |f.bios|
  {
    Bid(f.bios[i], bs) == f.base + Blens(f.bios[..i], bs)
  }

  /** One direction, one range, nothing that must stay alone. */
  ghost predicate GoodRange(f: Fio, bs: BlockSize) {
    && f.bios != [] && Aligned(f.bios[0], bs)
    && f.length == Blens(f.bios, bs)
    && (forall i :: 0 <= i < |f.bios| ==> BeginsAt(f, bs, i))
    && (forall i :: 0 <= i < |f.bios| ==> f.bios[i].Command() == f.cmd && f.bios[i].Ok())
    && (f.atomicFlag <==> f.bios[0].AtomicWrite())
    && (f.sync <==> f.bios[0].SyncWrite())
    && (|f.bios| > 1 ==> f.length <= MAX_BLOCKS && !f.cmd.DiscardCmd?)
    && (|f.bios| > 1 ==> forall i :: 0 <= i < |f.bios| ==> !f.bios[i].AtomicWrite())
  }

  /** The list is the bios' segments, in order. */
  ghost predicate GoodData(f: Fio) {
    if f.cmd.DiscardCmd? then f.entries == []
    else Memory(f.entries) == Flat(Segs(f.bios)) && Size(f.entries) == Sizes(f.bios)
  }

  ghost predicate Good(f: Fio, bs: BlockSize) {
    GoodRange(f, bs) && GoodData(f)
  }

  /** The other conditions under which a bio may join. */
  ghost predicate Joins(f: Fio, b: Bio, bs: BlockSize) {
    && !b.discard && b.Command() == f.cmd && !f.atomicFlag && !(b.write && b.atomicFlag)
    && Bid(b, bs) == f.base + f.length && f.length + Blen(b, bs) <= MAX_BLOCKS
  }

  /** A bio may join and its segments fit. */
  ghost predicate Fits(f: Fio, b: Bio, bs: BlockSize) {
    && Joins(f, b, bs) && Segments(b.segs)
    && |f.entries| + |b.segs| <= f.room && AddSegments(f.entries, b.segs).Some?
  }

  function Join(f: Fio, b: Bio, bs: BlockSize, entries: seq<Sl>): Fio {
    f.(length := f.length + Blen(b, bs), entries := entries, bios := f.bios + [b])
  }

  lemma {:induction false} JoinKeepsRange(f: Fio, b: Bio, bs: BlockSize, entries: seq<Sl>)
    requires GoodRange(f, bs) && b.Ok() && Joins(f, b, bs)
    ensures GoodRange(Join(f, b, bs, entries), bs)
  {
    var g, n := Join(f, b, bs, entries), |f.bios|;
    assert g.bios[..n] == f.bios;
    forall i | 0 <= i < |g.bios|
      ensures BeginsAt(g, bs, i)
    {
      if i < n {
        assert BeginsAt(f, bs, i);
        assert g.bios[..i] == f.bios[..i];
      }
    }
  }

  /** A bio may join exactly when the request with it would still be a good one: none is refused for nothing. */
  lemma {:induction false} JoinsIff(f: Fio, b: Bio, bs: BlockSize, entries: seq<Sl>)
    requires GoodRange(f, bs) && b.Ok()
    ensures Joins(f, b, bs) <==> GoodRange(Join(f, b, bs, entries), bs)
  {
    var g, n := Join(f, b, bs, entries), |f.bios|;
    assert g.bios[..n] == f.bios;
    if GoodRange(g, bs) {
      assert BeginsAt(g, bs, n) && g.bios[n] == b && g.bios[0] == f.bios[0];
    } else if Joins(f, b, bs) {
      JoinKeepsRange(f, b, bs, entries);
    }
  }

  lemma {:induction false} JoinKeepsData(f: Fio, b: Bio, bs: BlockSize, entries: seq<Sl>)
    requires GoodData(f) && b.Ok() && !b.discard && b.Command() == f.cmd
    requires AddSegments(f.entries, b.segs) == Some(entries)
    ensures GoodData(Join(f, b, bs, entries))
  {
    var g := Join(f, b, bs, entries);
    assert g.bios[..|f.bios|] == f.bios;
    AddSegmentsMeaning(f.entries, b.segs);
    FlatConcat(Segs(f.bios), b.segs);
  }

  /** A request made of one aligned bio. */
  function FirstFio(b: Bio, bs: BlockSize, entries: seq<Sl>, room: nat): Fio {
    Fio(Bid(b, bs), Blen(b, bs), b.Command(), b.SyncWrite(), b.AtomicWrite(), entries, room, [b])
  }

  lemma {:induction false} FirstBlens(b: Bio, bs: BlockSize)
    ensures Blens([b], bs) == Blen(b, bs) && Blens([], bs) == 0
    ensures Segs([b]) == b.segs && Sizes([b]) == b.size
  {
    assert [b][..0] == [];
  }

  lemma {:induction false} FirstRange(b: Bio, bs: BlockSize, entries: seq<Sl>, room: nat)
    requires b.Ok() && Aligned(b, bs)
    ensures GoodRange(FirstFio(b, bs, entries, room), bs)
  {
    var f := FirstFio(b, bs, entries, room);
    FirstBlens(b, bs);
    assert f.bios[..0] == [];
    assert BeginsAt(f, bs, 0);
  }

  /** The request does what the bio asks for: its bytes, read, written or discarded, with its flags. */
  ghost predicate Serves(f: Fio, b: Bio, bs: BlockSize) {
    && f.base * bs == b.sector * SECTOR && f.length * bs == b.size
    && (f.cmd == DiscardCmd <==> b.discard)
    && (f.cmd == WriteCmd <==> !b.discard && b.write)
    && (f.cmd == ReadCmd <==> !b.discard && !b.write)
    && (f.sync <==> f.cmd == WriteCmd && b.sync)
    && (f.atomicFlag <==> f.cmd == WriteCmd && b.atomicFlag)
  }

  lemma {:induction false} FirstServes(b: Bio, bs: BlockSize, entries: seq<Sl>, room: nat)
    requires Aligned(b, bs)
    ensures Serves(FirstFio(b, bs, entries, room), b, bs)
  {
    RoundsToItselfIff(b.sector * SECTOR, bs);
    RoundsToItselfIff(b.size, bs);
  }

  lemma {:induction false} FirstData(b: Bio, bs: BlockSize, entries: seq<Sl>, room: nat)
    requires b.Ok()
    requires if b.discard then entries == [] else AddSegments([], b.segs) == Some(entries)
    ensures GoodData(FirstFio(b, bs, entries, room))
  {
    FirstBlens(b, bs);
    if !b.discard {
      AddSegmentsMeaning([], b.segs);
    }
  }

  /** The bio can have a request of its own, if the core grants one, with room for so many list entries. */
  ghost predicate Servable(b: Bio, bs: BlockSize, granted: bool, room: nat)
    requires Segments(b.segs)
  {
    Aligned(b, bs) && granted && (b.discard || (|b.segs| <= room && AddSegments([], b.segs).Some?))
  }

  // ---------------------------------------------------------------- what a good request means

  /** The bytes the block range stands for are the bytes of the bios, each where the ones before it end. */
  ghost predicate Contiguous(f: Fio, bs: BlockSize) {
    f.length * bs == Sizes(f.bios) && forall i :: 0 <= i < |f.bios| ==> StartsAt(f, bs, i)
  }

  ghost predicate StartsAt(f: Fio, bs: BlockSize, i: nat)
    requires i < |f.bios|
  {
    f.bios[i].sector * SECTOR == f.base * bs + Sizes(f.bios[..i])
  }

  /** The block range of a good request is exactly the bytes of its bios if and only if they are all aligned. */
  lemma {:induction false} GoodIsContiguousIff(f: Fio, bs: BlockSize)
    requires GoodRange(f, bs)
    ensures Contiguous(f, bs) <==> forall i :: 0 <= i < |f.bios| ==> Aligned(f.bios[i], bs)
  {
    BlocksAreBytesIff(f.bios, bs);
    if forall i :: 0 <= i < |f.bios| ==> f.bios[i].size % bs == 0 {
      forall i | 0 <= i < |f.bios|
        ensures StartsAt(f, bs, i) <==> Aligned(f.bios[i], bs)
      {
        StartsAtIff(f, bs, i);
      }
    }
  }

  /** Behind bios of aligned size, a bio starts at its place if and only if its sector is aligned. */
  lemma {:induction false} StartsAtIff(f: Fio, bs: BlockSize, i: nat)
    requires GoodRange(f, bs) && i < |f.bios|
    requires forall j :: 0 <= j < |f.bios| ==> f.bios[j].size % bs == 0
    ensures StartsAt(f, bs, i) <==> f.bios[i].sector * SECTOR % bs == 0
  {
    assert BeginsAt(f, bs, i);
    BlocksAreBytesIff(f.bios[..i], bs);
    Distribute(f.base, Blens(f.bios[..i], bs), bs);
    RoundsToItselfIff(f.bios[i].sector * SECTOR, bs);
  }

  lemma {:induction false} RoundsToItselfIff(n: nat, bs: BlockSize)
    ensures n / bs * bs == n <==> n % bs == 0
  {
  }

  /** The command and flags of a good request in terms of its bios: every bio gets what it asked for. */
  lemma {:induction false} GoodCommands(f: Fio, bs: BlockSize, i: nat)
    requires GoodRange(f, bs) && i < |f.bios|
    ensures f.cmd == DiscardCmd <==> f.bios[i].discard
    ensures f.cmd == WriteCmd <==> !f.bios[i].discard && f.bios[i].write
    ensures f.cmd == ReadCmd <==> !f.bios[i].discard && !f.bios[i].write
    ensures f.atomicFlag <==> f.cmd == WriteCmd && f.bios[0].atomicFlag
    ensures f.sync <==> f.cmd == WriteCmd && f.bios[0].sync
  {
    assert f.bios[i].Command() == f.cmd && f.bios[0].Command() == f.cmd;
  }

  /** The list of a read or write covers the block range exactly when every bio's size is aligned. */
  lemma {:induction false} GoodSizesIff(f: Fio, bs: BlockSize)
    requires Good(f, bs) && !f.cmd.DiscardCmd?
    ensures f.length * bs == Size(f.entries) <==> forall i :: 0 <= i < |f.bios| ==> f.bios[i].size % bs == 0
  {
    BlocksAreBytesIff(f.bios, bs);
  }

  // ---------------------------------------------------------------- two requests that are not contiguous

  /** A read or write of one block at sector 0, of blocks of 4096 bytes. */
  function OneBlock(write: bool): Bio {
    Bio(1, 0, 4096, false, write, false, false, [Piece(1, 0, 4096)])
  }

  lemma {:induction false} OneBlockIsGood(write: bool)
    ensures Good(FirstFio(OneBlock(write), 4096, [Sl(1, 0, 4096, 0)], 2), 4096)
  {
    var b := OneBlock(write);
    assert b.Ok();
    assert [] + [Sl(1, 0, 4096, 0)] == [Sl(1, 0, 4096, 0)];
    FirstRange(b, 4096, [Sl(1, 0, 4096, 0)], 2);
    FirstData(b, 4096, [Sl(1, 0, 4096, 0)], 2);
  }

  /**
   A read of 512 bytes behind a block joins it, because alignment is only asserted; the joined request's
   list is longer than its block range.
   */
  lemma {:induction false} ShortBioJoins()
    ensures var f := FirstFio(OneBlock(false), 4096, [Sl(1, 0, 4096, 0)], 2);
            var c := Bio(2, 8, 512, false, false, false, false, [Piece(2, 0, 512)]);
            var g := Join(f, c, 4096, f.entries + [Sl(2, 0, 512, 0)]);
      && c.Ok() && Good(f, 4096) && Fits(f, c, 4096)
      && Good(g, 4096) && g.length * 4096 != Size(g.entries)
  {
    var f := FirstFio(OneBlock(false), 4096, [Sl(1, 0, 4096, 0)], 2);
    var c := Bio(2, 8, 512, false, false, false, false, [Piece(2, 0, 512)]);
    var g := Join(f, c, 4096, f.entries + [Sl(2, 0, 512, 0)]);
    OneBlockIsGood(false);
    JoinKeepsRange(f, c, 4096, g.entries);
    JoinKeepsData(f, c, 4096, g.entries);
    GoodSizesIff(g, 4096);
    assert g.bios[1].size % 4096 != 0;
  }

  /** A write of a whole block at sector 9 joins too: its data goes to sector 8, 512 bytes too early. */
  lemma {:induction false} ShiftedBioJoins()
    ensures var f := FirstFio(OneBlock(true), 4096, [Sl(1, 0, 4096, 0)], 2);
            var c := Bio(2, 9, 4096, false, true, false, false, [Piece(2, 0, 4096)]);
            var g := Join(f, c, 4096, f.entries + [Sl(2, 0, 4096, 0)]);
      && c.Ok() && Good(f, 4096) && Fits(f, c, 4096)
      && Good(g, 4096) && g.length * 4096 == Size(g.entries) && !Contiguous(g, 4096)
      && c.sector * SECTOR == (f.base + f.length) * 4096 + 512
  {
    var f := FirstFio(OneBlock(true), 4096, [Sl(1, 0, 4096, 0)], 2);
    var c := Bio(2, 9, 4096, false, true, false, false, [Piece(2, 0, 4096)]);
    var g := Join(f, c, 4096, f.entries + [Sl(2, 0, 4096, 0)]);
    OneBlockIsGood(true);
    JoinKeepsRange(f, c, 4096, g.entries);
    JoinKeepsData(f, c, 4096, g.entries);
    GoodSizesIff(g, 4096);
    GoodIsContiguousIff(g, 4096);
    assert !Aligned(g.bios[1], 4096);
  }
}
