/** The block device seen by the kernel: bios arrive, are plugged, and leave as requests. */
module BioDisk {
  import opened Sequences
  import opened BioRange
  import opened BioChains
  import opened BioLog
  import opened BioBooks
  import opened BioPlug

  ghost predicate EndsIn(links: Links, b: Bio) {
    b in links && links[b] == Null
  }

  /** Linking a new bio behind a list. */
  lemma {:induction false} ChainExtend(links: Links, bios: seq<Bio>, b: Bio, all: seq<Bio>, n: nat, m: nat)
    requires all == bios + [b] && n == |bios| && m == |all| && NoDup(all)
    requires Chain(links, bios, 0, n) && EndsIn(links, b)
    ensures Chain(if bios == [] then links else links[bios[n - 1] := To(b)], all, 0, m)
  {
    var joined := if bios == [] then links else links[bios[n - 1] := To(b)];
    forall i | 0 <= i < m
      ensures LinkedOn(joined, all, i, m)
    {
      assert all[n] == b && all[i] == if i < n then bios[i] else b;
      if i < n {
        assert LinkedOn(links, bios, i, n);
        if i + 1 < n {
          assert all[i] != all[n - 1] && all[i + 1] == bios[i + 1];
        }
      } else if n > 0 {
        assert all[n] != all[n - 1];
      }
    }
  }

  /** The bios of s that are in d, or those that are not. */
  ghost function Filter(s: seq<Bio>, d: set<Bio>, inside: bool): seq<Bio> {
    if s == [] then []
    else Filter(s[..|s| - 1], d, inside) + if (s[|s| - 1] in d) == inside then [s[|s| - 1]] else []
  }

  lemma {:induction false} FilterJoin(s: seq<Bio>, t: seq<Bio>, d: set<Bio>, inside: bool)
    ensures Filter(s + t, d, inside) == Filter(s, d, inside) + Filter(t, d, inside)
  {
    if t == [] {
      assert s + t == s;
    } else {
      assert (s + t)[..|s + t| - 1] == s + t[..|t| - 1];
      FilterJoin(s, t[..|t| - 1], d, inside);
    }
  }

  lemma {:induction false} FilterAll(s: seq<Bio>, d: set<Bio>, inside: bool)
    requires forall b :: b in s ==> (b in d) == inside
    ensures Filter(s, d, inside) == s && Filter(s, d, !inside) == []
  {
    if s != [] {
      FilterAll(s[..|s| - 1], d, inside);
    }
  }

  /** A bio that is not there does not matter to the filter. */
  lemma {:induction false} FilterNew(s: seq<Bio>, d: set<Bio>, b: Bio, inside: bool)
    requires b !in s
    ensures Filter(s, d + {b}, inside) == Filter(s, d, inside)
  {
    if s != [] {
      FilterNew(s[..|s| - 1], d, b, inside);
    }
  }

  /** On each of the two routes, log and plug hold the bios that came that way, in order of arrival. */
  ghost predicate InOrder(logged: seq<Bio>, plugged: seq<Bio>, arrived: seq<Bio>, direct: set<Bio>) {
    forall past: bool :: OnRoute(logged, plugged, arrived, direct, past)
  }

  /** The bios that went past the plug, or those that came through it. */
  ghost predicate OnRoute(logged: seq<Bio>, plugged: seq<Bio>, arrived: seq<Bio>, direct: set<Bio>, past: bool) {
    Filter(logged, direct, past) + (if past then [] else plugged) == Filter(arrived, direct, past)
  }

  /** Bios of the driver, linked in this order. */
  ghost predicate IsList(links: Links, away: set<Bio>, bios: seq<Bio>) {
    Chain(links, bios, 0, |bios|) && Ours(away, bios, 0, |bios|) && AllOk(bios) && NoDup(bios)
  }

  /** The plug is the list of its bios. */
  ghost predicate IsPlug(links: Links, away: set<Bio>, head: Link, tail: Link, bios: seq<Bio>) {
    && head == At(bios, 0, |bios|) && tail == (if bios == [] then Null else To(bios[|bios| - 1]))
    && IsList(links, away, bios)
  }

  /** What happens to other bios does not matter to the plug. */
  lemma {:induction false} PlugFrame(links: Links, links': Links, away: set<Bio>, head: Link, tail: Link,
                                     bios: seq<Bio>, b: Bio)
    requires IsPlug(links, away, head, tail, bios) && b !in bios && SameOutside(links, links', away + {b})
    ensures IsPlug(links', away + {b}, head, tail, bios)
  {
    ChainElsewhere(links, links', bios, 0, |bios|, away + {b});
  }

  /** Nor what happens to bios that were given away. */
  lemma {:induction false} PlugStays(links: Links, links': Links, away: set<Bio>, head: Link, tail: Link,
                                     bios: seq<Bio>)
    requires IsPlug(links, away, head, tail, bios) && SameOutside(links, links', away)
    ensures IsPlug(links', away, head, tail, bios)
  {
    ChainElsewhere(links, links', bios, 0, |bios|, away);
  }

  /** Every bio that arrived is in the log or in the plug, once, and in the order of its route. */
  ghost predicate Accounted(logged: seq<Bio>, plugged: seq<Bio>, arrived: seq<Bio>, direct: set<Bio>, away: set<Bio>) {
    && InOrder(logged, plugged, arrived, direct)
    && direct <= away && Elements(logged) <= away && Elements(arrived) <= away + Elements(plugged)
  }

  lemma {:induction false} ElementsMore(s: seq<Bio>, b: Bio)
    ensures Elements(s + [b]) == Elements(s) + {b}
  {
  }

  /** A bio that is new is nowhere. */
  lemma {:induction false} NewIsNowhere(logged: seq<Bio>, plugged: seq<Bio>, arrived: seq<Bio>, direct: set<Bio>,
                                        away: set<Bio>, b: Bio)
    requires Accounted(logged, plugged, arrived, direct, away) && b !in plugged && b !in away
    ensures b !in logged && b !in arrived && b !in direct
  {
    assert b !in Elements(plugged) && b !in Elements(logged) && b !in Elements(arrived);
  }

  lemma {:induction false} ArrivesPlugged(logged: seq<Bio>, plugged: seq<Bio>, all: seq<Bio>, arrived: seq<Bio>,
                                          direct: set<Bio>, away: set<Bio>, b: Bio)
    requires Accounted(logged, plugged, arrived, direct, away) && all == plugged + [b] && b !in direct
    ensures Accounted(logged, all, arrived + [b], direct, away)
  {
    ElementsMore(arrived, b);
    ElementsMore(plugged, b);
    var arrived' := arrived + [b];
    forall past: bool
      ensures OnRoute(logged, all, arrived', direct, past)
    {
      assert OnRoute(logged, plugged, arrived, direct, past);
      assert Filter(logged, direct, past) + all == Filter(logged, direct, past) + plugged + [b];
    }
  }

  lemma {:induction false} ArrivesDirect(logged: seq<Bio>, plugged: seq<Bio>, arrived: seq<Bio>, direct: set<Bio>,
                                         away: set<Bio>, b: Bio)
    requires Accounted(logged, plugged, arrived, direct, away) && b !in plugged && b !in away
    ensures Accounted(logged + [b], plugged, arrived + [b], direct + {b}, away + {b})
  {
    NewIsNowhere(logged, plugged, arrived, direct, away, b);
    ElementsMore(arrived, b);
    ElementsMore(logged, b);
    var logged', arrived', direct' := logged + [b], arrived + [b], direct + {b};
    forall past: bool
      ensures OnRoute(logged', plugged, arrived', direct', past)
    {
      assert OnRoute(logged, plugged, arrived, direct, past);
      FilterNew(logged, direct, b, past);
      FilterNew(arrived, direct, b, past);
    }
  }

  lemma {:induction false} KicksOff(logged: seq<Bio>, all: seq<Bio>, arrived: seq<Bio>, direct: set<Bio>,
                                    away: set<Bio>)
    requires Accounted(logged, all, arrived, direct, away) && Elements(all) !! away
    ensures Accounted(logged + all, [], arrived, direct, away + Elements(all))
  {
    assert Elements(logged + all) == Elements(logged) + Elements(all);
    assert forall b :: b in all ==> b in Elements(all);
    var logged', none: seq<Bio> := logged + all, [];
    forall past: bool
      ensures OnRoute(logged', none, arrived, direct, past)
    {
      assert OnRoute(logged, all, arrived, direct, past);
      FilterJoin(logged, all, direct, past);
      FilterAll(all, direct, false);
    }
  }

  lemma {:induction false} OneStretch(one: seq<Bio>, b: Bio)
    requires one == [b]
    ensures Stretch(one, 0, 1) == {b} && one[0..1] == one
  {
    assert one[0] == b;
  }

  class Disk {
    const block: Block
    const queueing: bool          // use_workqueue is not USE_QUEUE_NONE
    var head: Link
    var tail: Link
    ghost var plugged: seq<Bio>   // the bios the plug holds
    ghost var arrived: seq<Bio>   // all bios that ever arrived
    ghost var direct: set<Bio>    // those that came while their task had no plug

    constructor (blockSize: BlockSize, queueing: bool)
      requires blockSize >= SECTOR
      ensures Valid() && fresh(block) && arrived == []
    {
      block := new Block(blockSize);
      this.queueing := queueing;
      head, tail, plugged, arrived, direct := Null, Null, [], [], {};
    }

    ghost predicate Valid()
      reads this, block
    {
      && IsPlug(block.links, block.away, head, tail, plugged)
      && Accounted(BiosOf(block.log), plugged, arrived, direct, block.away)
      && AllFine(block.log, block.bs) && Books(block.Now())
    }

    /** kfio_bio_should_submit_now. */
    predicate SubmitNow(bio: Bio) {
      bio.size == 0 || bio.discard
    }

    /** A bio the kernel may hand to the driver: one that the driver does not have, with a NULL link. */
    ghost predicate New(bio: Bio)
      reads this, block
    {
      bio !in plugged && bio !in block.away && bio.Ok() && EndsIn(block.links, bio)
    }

    /** kfio_add_bio_to_plugged_list: queue the bio; give back the whole list if it must go at once. */
    method AddToPlug(bio: Bio) returns (ret: Link, ghost all: seq<Bio>)
      requires IsPlug(block.links, block.away, head, tail, plugged) && New(bio) && Books(block.Now())
      modifies `head, `tail, `plugged, block`links
      ensures Books(block.Now()) && all == old(plugged) + [bio]
      ensures IsList(block.links, block.away, all)
      ensures ret == if SubmitNow(bio) && !queueing then To(all[0]) else Null
      ensures plugged == if SubmitNow(bio) && !queueing then [] else all
      ensures IsPlug(block.links, block.away, head, tail, plugged)
    {
      all := plugged + [bio];
      ChainExtend(block.links, plugged, bio, all, |plugged|, |all|);
      if tail != Null {
        Relinked(block.Now(), block.links[tail.bio := To(bio)], {tail.bio});
        block.SetNext(tail.bio, To(bio));
      } else {
        head := To(bio);
      }
      tail := To(bio);
      plugged := all;
      ret := Null;
      if SubmitNow(bio) && !queueing {
        ret := head;
        head, tail := Null, Null;
        plugged := [];
      }
    }

    /** The list that left the plug is kicked off: the log takes over from the plug. */
    method KickOff(first: Bio, ghost all: seq<Bio>)
      requires all != [] && all[0] == first && plugged == []
      requires IsPlug(block.links, block.away, head, tail, [])
      requires IsList(block.links, block.away, all)
      requires Accounted(BiosOf(block.log), all, arrived, direct, block.away)
      requires AllFine(block.log, block.bs) && Books(block.Now())
      modifies block
      ensures Valid() && Followed(old(block.pending), block.pending, block.ended)
      ensures unchanged(this) && LogGrew(old(block.log), block.log, all, 0, |all|, block.bs)
    {
      KicksOff(BiosOf(block.log), all, arrived, direct, block.away);
      SliceElements(all, 0, |all|);
      assert all[0..|all|] == all;
      block.Kickoff(first, all);
    }

    /**
     kfio_make_request for a bio that arrives while a plug is active.  A flush or a discard takes the whole
     plug with it, unless a work queue is used; any other bio waits in the plug.
     */
    method Plugged(bio: Bio)
      requires Valid() && New(bio)
      modifies this, block
      ensures Valid() && arrived == old(arrived) + [bio] && direct == old(direct)
      ensures Followed(old(block.pending), block.pending, block.ended)
      ensures !queueing && (bio.size == 0 || bio.discard) ==> plugged == [] && bio in BiosOf(block.log)
      ensures !queueing && (bio.size == 0 || bio.discard) ==>
        LogGrew(old(block.log), block.log, old(plugged) + [bio], 0, |old(plugged) + [bio]|, block.bs)
      ensures queueing || (bio.size != 0 && !bio.discard) ==>
        plugged == old(plugged) + [bio] && block.log == old(block.log)
    {
      var ret, all := Queue(bio);
      if ret != Null {
        KickOff(ret.bio, all);
      }
    }

    /** Count the bio as arrived, and queue it. */
    method Queue(bio: Bio) returns (ret: Link, ghost all: seq<Bio>)
      requires IsPlug(block.links, block.away, head, tail, plugged) && New(bio) && Books(block.Now())
      requires Accounted(BiosOf(block.log), plugged, arrived, direct, block.away)
      modifies `head, `tail, `plugged, `arrived, block`links
      ensures Books(block.Now()) && arrived == old(arrived) + [bio]
      ensures IsList(block.links, block.away, all)
      ensures Accounted(BiosOf(block.log), all, arrived, direct, block.away) && all != []
      ensures all == old(plugged) + [bio] && block.log == old(block.log) && direct == old(direct)
      ensures ret == if !queueing && (bio.size == 0 || bio.discard) then To(all[0]) else Null
      ensures plugged == (if ret == Null then all else []) && IsPlug(block.links, block.away, head, tail, plugged)
    {
      ghost var logged, away, more := BiosOf(block.log), block.away, plugged + [bio];
      NewIsNowhere(logged, plugged, arrived, direct, away, bio);
      ArrivesPlugged(logged, plugged, more, arrived, direct, away, bio);
      ret, all := AddToPlug(bio);
      arrived := arrived + [bio];
      assert BiosOf(block.log) == logged && block.away == away && all == more;
    }

    /** kfio_make_request for a bio whose task has no plug: straight into a request of its own. */
    method Direct(bio: Bio)
      requires Valid() && New(bio)
      modifies this, block
      ensures Valid() && arrived == old(arrived) + [bio] && direct == old(direct) + {bio} && plugged == old(plugged)
      ensures BiosOf(block.log) == BiosOf(old(block.log)) + [bio]
      ensures Followed(old(block.pending), block.pending, block.ended)
    {
      ghost var logged, links, away, one := BiosOf(block.log), block.links, block.away, [bio];
      ArrivesDirect(logged, plugged, arrived, direct, away, bio);
      assert LinkedOn(block.links, one, 0, 1);
      PassBy(bio, one);
      PlugFrame(links, block.links, away, head, tail, plugged, bio);
      arrived := arrived + [bio];
      direct := direct + {bio};
    }

    /** The bio becomes a request of its own, or fails. */
    method PassBy(bio: Bio, ghost one: seq<Bio>)
      requires one == [bio] && bio.Ok() && bio !in block.away && Chain(block.links, one, 0, 1)
      requires AllFine(block.log, block.bs) && Books(block.Now())
      modifies block
      ensures AllFine(block.log, block.bs) && Books(block.Now())
      ensures Followed(old(block.pending), block.pending, block.ended)
      ensures BiosOf(block.log) == BiosOf(old(block.log)) + [bio]
      ensures block.away == old(block.away) + {bio} && SameOutside(old(block.links), block.links, block.away)
    {
      ghost var was := block.log;
      var granted: bool, nvecs: nat := *, *;
      nvecs := if nvecs < 0x8000_0000 then nvecs else 0;
      var fbio := block.MapToFbio(bio, granted, nvecs);
      OneStretch(one, bio);
      if fbio != null {
        LogOne(was, Io(fbio.View(one)), block.bs);
        block.Submit(fbio, one, 0, 1);
      } else {
        LogOne(was, Failed(bio, granted, nvecs), block.bs);
        block.Refuse(bio, granted, nvecs);
      }
    }

    /** kfio_unplug_cb and kfio_unplug_do_cb: the plug goes, and its bios with it. */
    method Unplug()
      requires Valid()
      modifies this, block
      ensures Valid() && plugged == [] && arrived == old(arrived) && direct == old(direct)
      ensures Followed(old(block.pending), block.pending, block.ended)
      ensures LogGrew(old(block.log), block.log, old(plugged), 0, |old(plugged)|, block.bs)
    {
      var bio := head;
      ghost var all := plugged;
      head, tail, plugged := Null, Null, [];
      if bio != Null {
        KickOff(bio.bio, all);
      } else {
        LogSame(block.log, all, 0, block.bs);
      }
    }

    /** The core completes a request in flight: nothing else is touched. */
    method CoreCompletes(first: Bio, error: int, ghost c: seq<Bio>)
      requires Valid() && c in block.pending && c != [] && c[0] == first
      modifies block
      ensures Valid() && block.log == old(block.log) && block.pending == old(block.pending) - {c}
      ensures block.ended == old(block.ended) + EndAll(c, error)
    {
      ghost var l := block.links;
      assert Whole(l, block.away, c);
      var bytes := block.CompleteRequest(first, error, c);
      SameWider(l, block.links, Elements(c), block.away);
      PlugStays(l, block.links, block.away, head, tail, plugged);
    }
  }

  /** After an unplug the log holds all bios of each route in order: all bios, if none went past the plug. */
  lemma {:induction false} UnpluggedInOrder(logged: seq<Bio>, arrived: seq<Bio>, direct: set<Bio>)
    requires InOrder(logged, [], arrived, direct)
    ensures forall past: bool :: Filter(logged, direct, past) == Filter(arrived, direct, past)
    ensures direct == {} ==> logged == arrived
  {
    forall past: bool
      ensures Filter(logged, direct, past) == Filter(arrived, direct, past)
    {
      assert OnRoute(logged, [], arrived, direct, past);
    }
    if direct == {} {
      FilterAll(logged, direct, false);
      FilterAll(arrived, direct, false);
    }
  }
}
