/** What became of bios, in order. */
module BioLog {
  import opened ScatterList
  import opened BioRange

  /** Handed to the core as one request, or failed alone with -EIO, given what the core offered for it. */
  datatype Event = Io(f: Fio) | Failed(b: Bio, granted: bool, room: nat) {
    function Bios(): seq<Bio> {
      if Io? then f.bios else [b]
    }

    /** A request is a good one; a bio fails only if it could not have a request. */
    ghost predicate Fine(bs: BlockSize) {
      if Io? then Good(f, bs) else Segments(b.segs) ==> !Servable(b, bs, granted, room)
    }
  }

  function BiosOf(log: seq<Event>): seq<Bio> {
    if log == [] then [] else BiosOf(log[..|log| - 1]) + log[|log| - 1].Bios()
  }

  ghost predicate AllFine(log: seq<Event>, bs: BlockSize) {
    forall e :: e in log ==> e.Fine(bs)
  }

  /** Event i is not a request that the first bio of the next event could have joined. */
  ghost predicate TightAt(log: seq<Event>, i: nat, bs: BlockSize)
    requires i + 1 < |log|
  {
    log[i].Io? && log[i + 1].Bios() != [] ==> !Fits(log[i].f, log[i + 1].Bios()[0], bs)
  }

  ghost predicate Tight(before: seq<Event>, log: seq<Event>, bs: BlockSize) {
    forall i :: |before| <= i < |log| - 1 ==> TightAt(log, i, bs)
  }

  /** If the log grew by a request last, bio k could not have joined it. */
  ghost predicate Closed(before: seq<Event>, log: seq<Event>, bios: seq<Bio>, k: nat, bs: BlockSize) {
    |before| < |log| && log[|log| - 1].Io? && k < |bios| ==> !Fits(log[|log| - 1].f, bios[k], bs)
  }

  /** The log has grown by fine events that account for bios j to k, cut only where it had to be. */
  ghost predicate LogGrew(before: seq<Event>, log: seq<Event>, bios: seq<Bio>, j: nat, k: nat, bs: BlockSize)
    requires j <= k <= |bios|
  {
    && before <= log && BiosOf(log) == BiosOf(before) + bios[j..k] && (AllFine(before, bs) ==> AllFine(log, bs))
    && Tight(before, log, bs) && Closed(before, log, bios, k, bs)
  }

  lemma {:induction false} LogSame(log: seq<Event>, bios: seq<Bio>, j: nat, bs: BlockSize)
    requires j <= |bios|
    ensures LogGrew(log, log, bios, j, j, bs)
  {
  }

  lemma {:induction false} LogEvent(log: seq<Event>, e: Event, bios: seq<Bio>, j: nat, k: nat, bs: BlockSize)
    requires j <= k <= |bios| && e.Bios() == bios[j..k] && e.Fine(bs)
    requires e.Io? && k < |bios| ==> !Fits(e.f, bios[k], bs)
    ensures LogGrew(log, log + [e], bios, j, k, bs)
  {
    assert (log + [e])[..|log|] == log;
  }

  lemma {:induction false} BiosPrefix(log: seq<Event>, n: nat)
    requires n <= |log|
    ensures BiosOf(log[..n]) <= BiosOf(log)
  {
    if n == |log| {
      assert log[..n] == log;
    } else {
      assert log[..|log| - 1][..n] == log[..n];
      BiosPrefix(log[..|log| - 1], n);
    }
  }

  lemma {:induction false} LogTrans(a: seq<Event>, b: seq<Event>, c: seq<Event>, bios: seq<Bio>, i: nat, j: nat,
                                    k: nat, bs: BlockSize)
    requires i <= j <= k <= |bios| && LogGrew(a, b, bios, i, j, bs) && LogGrew(b, c, bios, j, k, bs)
    ensures LogGrew(a, c, bios, i, k, bs)
  {
    assert bios[i..j] + bios[j..k] == bios[i..k];
    assert BiosOf(a) + (bios[i..j] + bios[j..k]) == BiosOf(a) + bios[i..j] + bios[j..k];
    LogTight(a, b, c, bios, i, j, k, bs);
    if |b| == |c| {
      assert b == c && bios[j..k] == [];
    }
  }

  lemma {:induction false} LogTight(a: seq<Event>, b: seq<Event>, c: seq<Event>, bios: seq<Bio>, i: nat, j: nat,
                                    k: nat, bs: BlockSize)
    requires i <= j <= k <= |bios| && LogGrew(a, b, bios, i, j, bs) && LogGrew(b, c, bios, j, k, bs)
    ensures Tight(a, c, bs)
  {
    forall n | |a| <= n < |c| - 1
      ensures TightAt(c, n, bs)
    {
      if n < |b| - 1 {
        assert TightAt(b, n, bs);
        assert c[n] == b[n] && c[n + 1] == b[n + 1];
      } else if n == |b| - 1 {
        FirstOfNext(b, c, bios[j..k]);
        AcrossTight(a, b, c, bios, j, k, bs);
      }
    }
  }

  lemma {:induction false} AcrossTight(a: seq<Event>, b: seq<Event>, c: seq<Event>, bios: seq<Bio>, j: nat, k: nat,
                                       bs: BlockSize)
    requires j <= k <= |bios| && b <= c && |a| < |b| < |c|
    requires Closed(a, b, bios, j, bs) && c[|b|].Bios() <= bios[j..k]
    ensures TightAt(c, |b| - 1, bs)
  {
    assert c[|b| - 1] == b[|b| - 1];
    if c[|b|].Bios() != [] {
      assert c[|b|].Bios()[0] == bios[j];
    }
  }

  lemma {:induction false} LogOne(log: seq<Event>, e: Event, bs: BlockSize)
    requires AllFine(log, bs) && e.Fine(bs)
    ensures BiosOf(log + [e]) == BiosOf(log) + e.Bios() && AllFine(log + [e], bs)
  {
    assert (log + [e])[..|log|] == log;
  }

  /** The first event behind b begins with the first bio that c accounts for more. */
  lemma {:induction false} FirstOfNext(b: seq<Event>, c: seq<Event>, more: seq<Bio>)
    requires b <= c && |b| < |c| && BiosOf(c) == BiosOf(b) + more
    ensures c[|b|].Bios() <= more
  {
    var n := |b| + 1;
    var d := c[..n];
    assert d[..|d| - 1] == b;
    BiosPrefix(c, n);
    assert BiosOf(d) == BiosOf(b) + c[|b|].Bios();
    assert (BiosOf(b) + more)[|BiosOf(b)|..] == more;
  }
}
