/** Requests in flight, completions, and how they agree with the log. */
module BioBooks {
  import opened Sequences
  import opened Machine
  import opened BioRange
  import opened BioChains
  import opened BioLog

  /** A completion: the bio, its status. */
  datatype Ended = Ended(bio: Bio, error: int)

  function EndAll(bios: seq<Bio>, error: int): seq<Ended> {
    if bios == [] then [] else EndAll(bios[..|bios| - 1], error) + [Ended(bios[|bios| - 1], error)]
  }

  lemma {:induction false} EndedNext(bios: seq<Bio>, j: nat, n: nat, error: int)
    requires j <= n < |bios|
    ensures Sizes(bios[j..n + 1]) == Sizes(bios[j..n]) + bios[n].size
    ensures EndAll(bios[j..n + 1], error) == EndAll(bios[j..n], error) + [Ended(bios[n], error)]
  {
    assert bios[j..n + 1][..n - j] == bios[j..n];
  }

  /** The completed bios, in order. */
  function EndedBios(ended: seq<Ended>): seq<Bio> {
    if ended == [] then [] else EndedBios(ended[..|ended| - 1]) + [ended[|ended| - 1].bio]
  }

  /** The bios of chains in flight. */
  ghost function Flying(pending: set<seq<Bio>>): set<Bio> {
    set c, b | c in pending && b in c :: b
  }

  /**
   The driver's state: the links of all bios; the bios it gave away; what became of them, in order; the
   chains of submitted requests that are not completed, and their first bios, by which the core knows them;
   and the completions so far.
   */
  datatype World = World(
    links: Links,
    away: set<Bio>,
    log: seq<Event>,
    pending: set<seq<Bio>>,
    firsts: set<Bio>,
    ended: seq<Ended>)

  /** A chain in flight is as it was submitted: whenever it is completed, its links lead through all of it. */
  ghost predicate Whole(links: Links, away: set<Bio>, c: seq<Bio>) {
    c != [] && NoDup(c) && Chain(links, c, 0, |c|) && Elements(c) <= away
  }

  ghost predicate Waiting(links: Links, away: set<Bio>, pending: set<seq<Bio>>) {
    && (forall c :: c in pending ==> Whole(links, away, c))
    && (forall c, d :: c in pending && d in pending && c != d ==> Elements(c) !! Elements(d))
  }

  /** No bio is completed twice, and a bio given away is in flight or completed, not both. */
  ghost predicate Ledger(away: set<Bio>, pending: set<seq<Bio>>, ended: seq<Ended>) {
    && NoDup(EndedBios(ended))
    && away == Flying(pending) + Elements(EndedBios(ended))
    && Flying(pending) !! Elements(EndedBios(ended))
  }

  ghost predicate AllEnded(bios: seq<Bio>, ended: seq<Ended>, error: int) {
    forall b :: b in bios ==> Ended(b, error) in ended
  }

  /** A failed bio was completed with -EIO; a request is in flight, or all its bios were completed alike. */
  ghost predicate Settled(e: Event, pending: set<seq<Bio>>, ended: seq<Ended>) {
    match e
    case Failed(b, _, _) => Ended(b, EIO) in ended
    case Io(f) => f.bios in pending || exists error :: AllEnded(f.bios, ended, error)
  }

  ghost predicate Settlement(log: seq<Event>, pending: set<seq<Bio>>, ended: seq<Ended>) {
    forall e :: e in log ==> Settled(e, pending, ended)
  }

  /** The first bios of chains in flight. */
  ghost function Firsts(pending: set<seq<Bio>>): set<Bio> {
    set c | c in pending && c != [] :: c[0]
  }

  ghost predicate Books(w: World) {
    && Waiting(w.links, w.away, w.pending) && Ledger(w.away, w.pending, w.ended)
    && Settlement(w.log, w.pending, w.ended) && w.firsts == Firsts(w.pending)
  }

  // ---------------------------------------------------------------- what the books mean

  ghost predicate WasEnded(ended: seq<Ended>, b: Bio) {
    exists error :: Ended(b, error) in ended
  }

  lemma {:induction false} EndedBiosAre(ended: seq<Ended>, b: Bio)
    ensures b in EndedBios(ended) <==> WasEnded(ended, b)
  {
    if ended != [] {
      var front, last := ended[..|ended| - 1], ended[|ended| - 1];
      EndedBiosAre(front, b);
      assert ended == front + [last];
      if WasEnded(ended, b) && !WasEnded(front, b) {
        var error :| Ended(b, error) in ended;
        assert Ended(b, error) !in front;
      }
      if b == last.bio {
        assert Ended(b, last.error) in ended;
      }
      if WasEnded(front, b) {
        var error :| Ended(b, error) in front;
        assert Ended(b, error) in ended;
      }
    }
  }

  lemma {:induction false} EndedBiosAt(ended: seq<Ended>)
    ensures |EndedBios(ended)| == |ended|
    ensures forall i :: 0 <= i < |ended| ==> EndedBios(ended)[i] == ended[i].bio
  {
    if ended != [] {
      EndedBiosAt(ended[..|ended| - 1]);
    }
  }

  lemma {:induction false} InLog(log: seq<Event>, b: Bio) returns (e: Event)
    requires b in BiosOf(log)
    ensures e in log && b in e.Bios()
  {
    var front, last := log[..|log| - 1], log[|log| - 1];
    if b in last.Bios() {
      e := last;
    } else {
      e := InLog(front, b);
    }
  }

  /**
   Over a whole run: every bio of the log is completed at most once, is completed if and only if it is
   not in flight, and with -EIO if it failed.
   */
  lemma {:induction false} EndsOnce(w: World, b: Bio)
    requires Books(w) && b in BiosOf(w.log)
    ensures b in w.away && (WasEnded(w.ended, b) <==> b !in Flying(w.pending))
    ensures forall i, j :: 0 <= i < j < |w.ended| ==> w.ended[i].bio != w.ended[j].bio
    ensures forall granted, room :: Failed(b, granted, room) in w.log ==> Ended(b, EIO) in w.ended
  {
    EndedBiosAt(w.ended);
    EndedBiosAre(w.ended, b);
    var e := InLog(w.log, b);
    assert Settled(e, w.pending, w.ended);
    if e.Io? && e.f.bios !in w.pending {
      var error :| AllEnded(e.f.bios, w.ended, error);
      assert Ended(b, error) in w.ended;
    }
    forall granted, room | Failed(b, granted, room) in w.log
      ensures Ended(b, EIO) in w.ended
    {
      assert Settled(Failed(b, granted, room), w.pending, w.ended);
    }
  }

  /** When nothing is in flight every bio that left the driver has been completed. */
  lemma {:induction false} AllDone(w: World, b: Bio)
    requires Books(w) && w.pending == {} && b in BiosOf(w.log)
    ensures WasEnded(w.ended, b)
  {
    EndsOnce(w, b);
  }

  // ---------------------------------------------------------------- keeping the books

  lemma {:induction false} EndedMore(ended: seq<Ended>, c: seq<Bio>, error: int)
    ensures EndedBios(ended + EndAll(c, error)) == EndedBios(ended) + c
  {
    if c == [] {
      assert ended + EndAll(c, error) == ended;
    } else {
      var front, last := c[..|c| - 1], Ended(c[|c| - 1], error);
      EndedMore(ended, front, error);
      assert ended + EndAll(c, error) == (ended + EndAll(front, error)) + [last];
      assert c == front + [last.bio];
    }
  }

  lemma {:induction false} EndedOne(ended: seq<Ended>, e: Ended)
    ensures EndedBios(ended + [e]) == EndedBios(ended) + [e.bio]
  {
    assert (ended + [e])[..|ended|] == ended;
  }

  lemma {:induction false} AllOfThemEnd(c: seq<Bio>, error: int)
    ensures AllEnded(c, EndAll(c, error), error)
  {
    if c != [] {
      AllOfThemEnd(c[..|c| - 1], error);
      assert c == c[..|c| - 1] + [c[|c| - 1]];
    }
  }

  lemma {:induction false} FlyingLess(pending: set<seq<Bio>>, c: seq<Bio>)
    requires c in pending
    requires forall d, e :: d in pending && e in pending && d != e ==> Elements(d) !! Elements(e)
    ensures Flying(pending - {c}) == Flying(pending) - Elements(c) && Elements(c) <= Flying(pending)
  {
  }

  /** Writing links of bios that were not given away. */
  lemma {:induction false} WaitingFrame(links: Links, links': Links, away: set<Bio>, pending: set<seq<Bio>>,
                                        s: set<Bio>)
    requires Waiting(links, away, pending) && SameOutside(links, links', s) && s !! away
    ensures Waiting(links', away, pending)
  {
    forall c | c in pending
      ensures Whole(links', away, c)
    {
      SameChain(links, links', c, s);
    }
  }

  lemma {:induction false} SameChain(links: Links, links': Links, c: seq<Bio>, s: set<Bio>)
    requires Chain(links, c, 0, |c|) && SameOutside(links, links', s) && Elements(c) !! s
    ensures Chain(links', c, 0, |c|)
  {
    var n := |c|;
    forall i | 0 <= i < n
      ensures LinkedOn(links', c, i, n)
    {
      assert LinkedOn(links, c, i, n) && c[i] in Elements(c);
    }
  }

  lemma {:induction false} Relinked(w: World, links: Links, s: set<Bio>)
    requires Books(w) && SameOutside(w.links, links, s) && s !! w.away
    ensures Books(w.(links := links))
  {
    WaitingFrame(w.links, links, w.away, w.pending, s);
  }

  lemma {:induction false} SettledMore(log: seq<Event>, pending: set<seq<Bio>>, ended: seq<Ended>,
                                       pending': set<seq<Bio>>,
                                       ended': seq<Ended>, more: seq<Ended>, c: seq<Bio>, error: int)
    requires Settlement(log, pending, ended) && ended' == ended + more
    requires forall d :: d in pending && d !in pending' ==> d == c && AllEnded(c, more, error)
    ensures Settlement(log, pending', ended')
  {
    forall e | e in log
      ensures Settled(e, pending', ended')
    {
      assert Settled(e, pending, ended);
      if e.Io? && e.f.bios !in pending' {
        if e.f.bios in pending {
          assert AllEnded(e.f.bios, ended', error);
        } else {
          var error' :| AllEnded(e.f.bios, ended, error');
          assert AllEnded(e.f.bios, ended', error');
        }
      }
    }
  }

  lemma {:induction false} InFlightMore(pending: set<seq<Bio>>, c: seq<Bio>)
    requires c != []
    ensures Flying(pending + {c}) == Flying(pending) + Elements(c) && Firsts(pending + {c}) == Firsts(pending) + {c[0]}
  {
  }

  /** A request is submitted: its chain is in flight. */
  lemma {:induction false} HandOver(w: World, f: Fio)
    requires Books(w) && f.bios != [] && NoDup(f.bios) && Chain(w.links, f.bios, 0, |f.bios|)
    requires Elements(f.bios) !! w.away
    ensures Books(w.(away := w.away + Elements(f.bios), log := w.log + [Io(f)], pending := w.pending + {f.bios},
                     firsts := w.firsts + {f.bios[0]}))
  {
    var c, pending := f.bios, w.pending + {f.bios};
    InFlightMore(w.pending, c);
    SettledMore(w.log, w.pending, w.ended, pending, w.ended, [], c, 0);
    assert w.ended + [] == w.ended;
    assert Settled(Io(f), pending, w.ended);
    forall d | d in w.pending
      ensures Elements(d) !! Elements(c)
    {
      assert Whole(w.links, w.away, d);
    }
  }

  /** A chain in flight is completed. */
  lemma {:induction false} Landed(w: World, links: Links, c: seq<Bio>, error: int)
    requires Books(w) && c in w.pending && SameOutside(w.links, links, Elements(c))
    ensures c != []
    ensures Books(w.(links := links, pending := w.pending - {c}, firsts := w.firsts - {c[0]},
                     ended := w.ended + EndAll(c, error)))
  {
    AllOfThemEnd(c, error);
    assert Whole(w.links, w.away, c);
    LandedLedger(w.away, w.pending, w.ended, c, error);
    SettledMore(w.log, w.pending, w.ended, w.pending - {c}, w.ended + EndAll(c, error), EndAll(c, error), c, error);
    LandedWaiting(w.links, links, w.away, w.pending, c);
    FirstsLess(w.pending, c);
  }

  lemma {:induction false} FirstsLess(pending: set<seq<Bio>>, c: seq<Bio>)
    requires c in pending && c != []
    requires forall d, e :: d in pending && e in pending && d != e ==> Elements(d) !! Elements(e)
    ensures Firsts(pending - {c}) == Firsts(pending) - {c[0]}
  {
    forall d | d in pending - {c} && d != []
      ensures d[0] != c[0]
    {
      assert d[0] in Elements(d) && c[0] in Elements(c);
    }
  }

  lemma {:induction false} LandedLedger(away: set<Bio>, pending: set<seq<Bio>>, ended: seq<Ended>, c: seq<Bio>,
                                        error: int)
    requires Ledger(away, pending, ended) && c in pending && NoDup(c)
    requires forall d, e :: d in pending && e in pending && d != e ==> Elements(d) !! Elements(e)
    ensures Ledger(away, pending - {c}, ended + EndAll(c, error))
  {
    FlyingLess(pending, c);
    EndedMore(ended, c, error);
    var was := EndedBios(ended);
    NoDupJoin(was, c);
    assert Elements(was + c) == Elements(was) + Elements(c);
  }

  lemma {:induction false} LandedWaiting(links: Links, links': Links, away: set<Bio>, pending: set<seq<Bio>>,
                                         c: seq<Bio>)
    requires Waiting(links, away, pending) && c in pending && SameOutside(links, links', Elements(c))
    ensures Waiting(links', away, pending - {c})
  {
    forall d | d in pending - {c}
      ensures Whole(links', away, d)
    {
      assert Whole(links, away, d);
      SameChain(links, links', d, Elements(c));
    }
  }

  lemma {:induction false} RefusedLedger(away: set<Bio>, pending: set<seq<Bio>>, ended: seq<Ended>, e: Ended)
    requires Ledger(away, pending, ended) && e.bio !in away
    ensures Ledger(away + {e.bio}, pending, ended + [e])
  {
    var was := EndedBios(ended);
    EndedOne(ended, e);
    NoDupJoin(was, [e.bio]);
    assert Elements(was + [e.bio]) == Elements(was) + {e.bio};
  }

  lemma {:induction false} RefusedWaiting(links: Links, links': Links, away: set<Bio>, pending: set<seq<Bio>>, b: Bio)
    requires Waiting(links, away, pending) && b !in away && SameOutside(links, links', {b})
    ensures Waiting(links', away + {b}, pending)
  {
    WaitingFrame(links, links', away, pending, {b});
    forall c | c in pending
      ensures Whole(links', away + {b}, c)
    {
      assert Whole(links', away, c);
    }
  }

  /** A bio without a request is completed with -EIO. */
  lemma {:induction false} Refused(w: World, links: Links, e: Event, b: Bio)
    requires Books(w) && b !in w.away && SameOutside(w.links, links, {b}) && e.Failed? && e.b == b
    ensures Books(World(links, w.away + {b}, w.log + [e], w.pending, w.firsts, w.ended + [Ended(b, EIO)]))
  {
    var ended := w.ended + [Ended(b, EIO)];
    RefusedLedger(w.away, w.pending, w.ended, Ended(b, EIO));
    RefusedWaiting(w.links, links, w.away, w.pending, b);
    SettledMore(w.log, w.pending, w.ended, w.pending, ended, [Ended(b, EIO)], [], EIO);
    assert Settled(e, w.pending, ended);
  }

  // ---------------------------------------------------------------- completions

  /** Chains that were in flight still are, or all their bios were completed alike. */
  ghost predicate Followed(before: set<seq<Bio>>, pending: set<seq<Bio>>, ended: seq<Ended>) {
    forall c :: c in before ==> c in pending || exists error :: AllEnded(c, ended, error)
  }

  lemma {:induction false} FollowedOn(a: set<seq<Bio>>, b: set<seq<Bio>>, c: set<seq<Bio>>, ended: seq<Ended>,
                                      ended': seq<Ended>)
    requires Followed(a, b, ended) && Followed(b, c, ended') && ended <= ended'
    ensures Followed(a, c, ended')
  {
    forall d | d in a
      ensures d in c || exists error :: AllEnded(d, ended', error)
    {
      if d !in b {
        var error :| AllEnded(d, ended, error);
        assert AllEnded(d, ended', error);
      }
    }
  }

  /** Between two worlds some chains in flight were completed, and nothing else happened. */
  ghost predicate Settling(a: World, b: World) {
    && b.away == a.away && b.log == a.log && SameOutside(a.links, b.links, a.away)
    && a.ended <= b.ended && b.pending <= a.pending && Followed(a.pending, b.pending, b.ended)
  }

  lemma {:induction false} SettlingNothing(w: World)
    ensures Settling(w, w)
  {
  }

  lemma {:induction false} SettlingOn(a: World, b: World, c: World)
    requires Settling(a, b) && Settling(b, c)
    ensures Settling(a, c)
  {
    FollowedOn(a.pending, b.pending, c.pending, b.ended, c.ended);
  }

  /** One more chain was completed. */
  lemma {:induction false} SettlingOne(a: World, b: World, c: seq<Bio>, error: int)
    requires Books(a) && c in a.pending && SameOutside(a.links, b.links, Elements(c)) && b.away == a.away
    requires b.log == a.log && b.pending == a.pending - {c} && b.ended == a.ended + EndAll(c, error)
    ensures Settling(a, b)
  {
    assert Whole(a.links, a.away, c);
    AllOfThemEnd(c, error);
    assert AllEnded(c, b.ended, error);
  }

  // ---------------------------------------------------------------- steps of the driver

  /**
   Between two worlds bios j to n were given away and logged, and of the bios still the driver's only
   those from j to k had their links written; chains that were in flight still are, or were completed.
   */
  ghost predicate Moved(a: World, b: World, bios: seq<Bio>, j: nat, k: nat, n: nat, bs: BlockSize)
    requires j <= n <= k <= |bios|
  {
    && SameOutside(a.links, b.links, Stretch(bios, j, k) + a.away)
    && b.away == a.away + Stretch(bios, j, n)
    && LogGrew(a.log, b.log, bios, j, n, bs)
    && a.ended <= b.ended && Followed(a.pending, b.pending, b.ended)
  }

  lemma {:induction false} MovedNothing(w: World, bios: seq<Bio>, j: nat, k: nat, bs: BlockSize)
    requires j <= k <= |bios|
    ensures Moved(w, w, bios, j, k, j, bs)
  {
    assert Stretch(bios, j, j) == {};
    LogSame(w.log, bios, j, bs);
  }

  /** Bio k failed. */
  lemma {:induction false} MovedRefused(a: World, b: World, bios: seq<Bio>, k: nat, m: nat, e: Event, bs: BlockSize)
    requires m == k + 1 <= |bios| && b.log == a.log + [e] && b.away == a.away + {bios[k]}
    requires e.Failed? && e.b == bios[k] && e.Fine(bs)
    requires SameOutside(a.links, b.links, {bios[k]}) && b.pending == a.pending && a.ended <= b.ended
    ensures Moved(a, b, bios, k, m, m, bs)
  {
    assert Stretch(bios, k, m) == {bios[k]};
    assert bios[k..m] == [bios[k]];
    LogEvent(a.log, e, bios, k, m, bs);
    SameWider(a.links, b.links, {bios[k]}, Stretch(bios, k, m) + a.away);
  }

  /** Completions only. */
  lemma {:induction false} MovedSettling(a: World, b: World, bios: seq<Bio>, j: nat, k: nat, bs: BlockSize)
    requires j <= k <= |bios| && Settling(a, b)
    ensures Moved(a, b, bios, j, k, j, bs)
  {
    SameWider(a.links, b.links, a.away, Stretch(bios, j, k) + a.away);
    assert Stretch(bios, j, j) == {};
    LogSame(a.log, bios, j, bs);
  }

  lemma {:induction false} MovedTrans(a: World, b: World, c: World, bios: seq<Bio>, i: nat, h: nat, j: nat, k: nat,
                                      n: nat, bs: BlockSize)
    requires i <= j <= h <= k <= |bios| && j <= n <= k
    requires Moved(a, b, bios, i, h, j, bs) && Moved(b, c, bios, j, k, n, bs)
    ensures Moved(a, c, bios, i, k, n, bs)
  {
    StretchJoin(bios, i, j, n);
    StretchInside(bios, i, i, h, k);
    StretchInside(bios, i, j, k, k);
    StretchInside(bios, i, i, j, k);
    SameTrans(a.links, b.links, c.links, Stretch(bios, i, h) + a.away, Stretch(bios, j, k) + b.away,
              Stretch(bios, i, k) + a.away);
    LogTrans(a.log, b.log, c.log, bios, i, j, n, bs);
    FollowedOn(a.pending, b.pending, c.pending, b.ended, c.ended);
  }

  /** Only links were written. */
  lemma {:induction false} MovedLinks(a: World, b: World, bios: seq<Bio>, j: nat, i: nat, k: nat, bs: BlockSize)
    requires j <= i <= k <= |bios| && b == a.(links := b.links)
    requires SameOutside(a.links, b.links, Stretch(bios, i, k))
    ensures Moved(a, b, bios, j, k, j, bs)
  {
    assert Stretch(bios, j, j) == {};
    StretchInside(bios, j, i, k, k);
    SameWider(a.links, b.links, Stretch(bios, i, k), Stretch(bios, j, k) + a.away);
    LogSame(a.log, bios, j, bs);
  }

  /** The chains and bios behind position k are not touched. */
  lemma {:induction false} MovedFrame(a: World, b: World, bios: seq<Bio>, j: nat, k: nat, n: nat, l: nat,
                                      bs: BlockSize)
    requires j <= n <= k <= l <= |bios| && Moved(a, b, bios, j, k, n, bs) && NoDup(bios)
    requires Chain(a.links, bios, k, l) && Ours(a.away, bios, j, |bios|)
    ensures Chain(b.links, bios, k, l) && Ours(b.away, bios, n, |bios|)
  {
    ChainElsewhere(a.links, b.links, bios, k, l, Stretch(bios, j, k) + a.away);
    OursFrame(a.away, bios, j, n, n, |bios|);
  }
}
