/** Plugging: cutting a linked list of bios into merged requests. */
module BioPlug {
  import opened Sequences
  import opened Machine
  import opened ScatterList
  import opened BioRange
  import opened BioChains
  import opened BioLog
  import opened BioBooks
  import SgList

  // ---------------------------------------------------------------- a request being built

  class Fbio {
    var base: nat
    var length: nat
    var cmd: Cmd
    var sync: bool
    var atomicFlag: bool
    var sgl: SgList.SgList
    var first: Bio

    constructor (b: Bio, nvecs: nat)
      requires nvecs < 0x8000_0000
      ensures fresh(sgl) && fresh(sgl.sl) && sgl.Valid() && sgl.Entries() == [] && sgl.maxEntries == nvecs
      ensures first == b && !atomicFlag && !sync
    {
      base, length, cmd, sync, atomicFlag, first := 0, 0, ReadCmd, false, false, b;
      sgl := new SgList.SgList(nvecs);
    }

    ghost function View(bios: seq<Bio>): Fio
      requires sgl.numEntries <= sgl.sl.Length
      reads this, sgl, sgl.sl
    {
      Fio(base, length, cmd, sync, atomicFlag, sgl.Entries(), sgl.maxEntries, bios)
    }

    /**
     kfio_kbio_add_bio: join the bio, or say 1.  On 1 nothing has changed; on 0 the bio's blocks and
     segments are at the end of the request.
     */
    method AddBio(bio: Bio, bs: BlockSize, ghost bios: seq<Bio>) returns (r: int)
      requires bio.Ok() && sgl.Valid()
      modifies `length, sgl`numEntries, sgl`sglSize, sgl.sl
      ensures sgl.Valid() && r in {0, 1}
      ensures r == 0 <==> Fits(old(View(bios)), bio, bs)
      ensures r == 0 ==> View(bios + [bio]) == Join(old(View(bios)), bio, bs, sgl.Entries())
      ensures r == 0 ==> AddSegments(old(sgl.Entries()), bio.segs) == Some(sgl.Entries())
      ensures r == 1 ==> View(bios) == old(View(bios))
    {
      if bio.discard {
        return 1;
      }
      if (bio.write && cmd != WriteCmd) || (!bio.write && cmd != ReadCmd) {
        return 1;
      }
      if atomicFlag {
        return 1;
      }
      if bio.write && bio.atomicFlag {
        return 1;
      }
      if base + length != Bid(bio, bs) {
        return 1;
      }
      var blen := Blen(bio, bs);
      if length + blen > MAX_BLOCKS {
        return 1;
      }
      var error := sgl.MapBio(bio.segs);
      if error != 0 {
        return 1;
      }
      length := length + blen;
      return 0;
    }

    /** The request for one bio: its range, its command, its segments. */
    method Fill(bio: Bio, bs: BlockSize) returns (error: int)
      requires bio.Ok() && sgl.Valid() && sgl.Entries() == [] && !atomicFlag && !sync
      modifies `base, `length, `cmd, `sync, `atomicFlag, sgl`numEntries, sgl`sglSize, sgl.sl
      ensures sgl.Valid()
      ensures error == 0 ==> View([bio]) == FirstFio(bio, bs, sgl.Entries(), sgl.maxEntries)
      ensures cmd == if bio.discard then DiscardCmd else if bio.write then WriteCmd else ReadCmd
      ensures (sync <==> cmd == WriteCmd && bio.sync) && (atomicFlag <==> cmd == WriteCmd && bio.atomicFlag)
      ensures error == 0 <==> bio.discard || (|bio.segs| <= sgl.maxEntries && AddSegments([], bio.segs).Some?)
      ensures error == 0 ==>
        if bio.discard then sgl.Entries() == [] else AddSegments([], bio.segs) == Some(sgl.Entries())
    {
      error := 0;
      base := Bid(bio, bs);
      length := Blen(bio, bs);
      if bio.discard {
        cmd := DiscardCmd;
      } else {
        if bio.write {
          cmd := WriteCmd;
          if bio.sync {
            sync := true;
          }
          if bio.atomicFlag {
            atomicFlag := true;
          }
        } else {
          cmd := ReadCmd;
        }
        error := sgl.MapBio(bio.segs);
      }
    }

    /** Joining a bio keeps the request good. */
    method JoinGood(bio: Bio, bs: BlockSize, ghost bios: seq<Bio>, ghost more: seq<Bio>) returns (joined: bool)
      requires bio.Ok() && sgl.Valid() && Good(View(bios), bs) && more == bios + [bio]
      modifies `length, sgl`numEntries, sgl`sglSize, sgl.sl
      ensures sgl.Valid()
      ensures joined ==> Good(View(more), bs)
      ensures !joined ==> Good(View(bios), bs) && !Fits(View(bios), bio, bs)
    {
      ghost var f := View(bios);
      var r := AddBio(bio, bs, bios);
      joined := r == 0;
      if joined {
        JoinKeepsRange(f, bio, bs, sgl.Entries());
        JoinKeepsData(f, bio, bs, sgl.Entries());
      }
    }
  }

  // ---------------------------------------------------------------- the block driver

  /** A chain completed up to bio n: the links l of the others stand. */
  ghost predicate Halfway(old': Links, l: Links, bytes: nat, done: seq<Ended>,
                          bios: seq<Bio>, j: nat, n: nat, k: nat, error: int)
    requires j <= n <= k <= |bios|
  {
    && Chain(l, bios, n, k) && SameOutside(old', l, Stretch(bios, j, n))
    && bytes == Sizes(bios[j..n]) && done == EndAll(bios[j..n], error)
  }

  lemma {:induction false} HalfwayNext(old': Links, l: Links, l': Links, bytes: nat, done: seq<Ended>,
                                       bios: seq<Bio>, j: nat, n: nat, k: nat, error: int)
    requires NoDup(bios) && j <= n < k <= |bios| && Halfway(old', l, bytes, done, bios, j, n, k, error)
    requires SameOutside(l, l', {bios[n]})
    ensures Halfway(old', l', bytes + bios[n].size, done + [Ended(bios[n], error)], bios, j, n + 1, k, error)
  {
    ChainShrinks(old', l, l', bios, j, n, k);
    EndedNext(bios, j, n, error);
  }

  lemma {:induction false} NextOf(links: Links, bios: seq<Bio>, n: nat, k: nat)
    requires n < k <= |bios| && Chain(links, bios, n, k)
    ensures bios[n] in links && links[bios[n]] == At(bios, n + 1, k)
  {
    assert LinkedOn(links, bios, n, k);
  }

  /** What is submitted is a chain of bios that were ours. */
  lemma {:induction false} SubmittedChain(links: Links, away: set<Bio>, bios: seq<Bio>, j: nat, k: nat)
    requires j < k <= |bios| && Chain(links, bios, j, k) && NoDup(bios) && Ours(away, bios, j, k)
    ensures var c := bios[j..k];
      && c != [] && NoDup(c) && Chain(links, c, 0, |c|)
      && Elements(c) == Stretch(bios, j, k) && Elements(c) !! away
  {
    SliceElements(bios, j, k);
    var c, n := bios[j..k], k - j;
    forall i | 0 <= i < n
      ensures LinkedOn(links, c, i, n)
    {
      assert LinkedOn(links, bios, j + i, k);
    }
  }

  lemma {:induction false} SliceElements(bios: seq<Bio>, j: nat, k: nat)
    requires j <= k <= |bios|
    ensures Elements(bios[j..k]) == Stretch(bios, j, k)
  {
    var c := bios[j..k];
    forall b | b in c
      ensures b in Stretch(bios, j, k)
    {
      var i :| 0 <= i < k - j && c[i] == b;
      assert bios[j + i] == b;
    }
    forall b | b in Stretch(bios, j, k)
      ensures b in c
    {
      var i :| j <= i < k && bios[i] == b;
      assert c[i - j] == b;
    }
  }

  class Block {
    const bs: BlockSize
    var links: Links                    // bi_next of every bio
    ghost var away: set<Bio>            // bios handed to the core or completed: their links are not ours any more
    var firsts: set<Bio>                // requests the core has not completed, known by their first bios
    ghost var pending: set<seq<Bio>>    // the chains of these requests
    ghost var ended: seq<Ended>         // completions
    ghost var log: seq<Event>

    constructor (blockSize: BlockSize)
      requires blockSize >= SECTOR
      ensures bs == blockSize && log == [] && away == {} && Books(Now())
    {
      bs, links, firsts, away, log, pending, ended := blockSize, map[], {}, {}, [], {}, [];
    }

    ghost function Now(): World
      reads this
    {
      World(links, away, log, pending, firsts, ended)
    }

    /** Write the link of a bio.  Never one of a bio that is not ours any more. */
    method SetNext(b: Bio, l: Link)
      requires b !in away
      modifies `links
      ensures links == old(links)[b := l]
    {
      links := links[b := l];
    }

    /** bio_endio: the kernel gets the bio back, and its link may be anything from now on. */
    method End(b: Bio, error: int)
      modifies `links, `away, `ended
      ensures ended == old(ended) + [Ended(b, error)] && away == old(away) + {b} && SameOutside(old(links), links, {b})
    {
      var l: Link := *;
      links := links[b := l];
      away := away + {b};
      ended := ended + [Ended(b, error)];
    }

    /** kfio_bio_completor: complete every bio of the chain once, in order, and add up their sizes. */
    method Complete(first: Bio, error: int, ghost bios: seq<Bio>, ghost j: nat, ghost k: nat) returns (bytes: nat)
      requires j < k <= |bios| && bios[j] == first && Chain(links, bios, j, k) && NoDup(bios)
      modifies `links, `away, `ended
      ensures bytes == Sizes(bios[j..k]) && ended == old(ended) + EndAll(bios[j..k], error)
      ensures SameOutside(old(links), links, Stretch(bios, j, k)) && away == old(away) + Stretch(bios, j, k)
    {
      var bio := To(first);
      ghost var n, done := j, [];
      bytes := 0;
      while bio != Null
        invariant j <= n <= k && bio == At(bios, n, k)
        invariant Halfway(old(links), links, bytes, done, bios, j, n, k, error)
        invariant ended == old(ended) + done && away == old(away) + Stretch(bios, j, n)
        decreases k - n
      {
        NextOf(links, bios, n, k);
        var next := links[bio.bio];
        ghost var before := links;
        End(bio.bio, error);
        HalfwayNext(old(links), before, links, bytes, done, bios, j, n, k, error);
        StretchNext(bios, j, n);
        bytes := bytes + bio.bio.size;
        done := done + [Ended(bio.bio, error)];
        bio := next;
        n := n + 1;
      }
    }

    /** The core completes a request in flight, at any time after it was submitted. */
    method CompleteRequest(first: Bio, error: int, ghost c: seq<Bio>) returns (bytes: nat)
      requires Books(Now()) && c in pending && c != [] && c[0] == first
      modifies `links, `away, `ended, `pending, `firsts
      ensures Books(Now()) && pending == old(pending) - {c} && ended == old(ended) + EndAll(c, error)
      ensures bytes == Sizes(c) && away == old(away) && SameOutside(old(links), links, Elements(c))
    {
      assert Whole(links, away, c);
      SliceElements(c, 0, |c|);
      assert c[0..|c|] == c;
      ghost var w := Now();
      bytes := Complete(first, error, c, 0, |c|);
      Landed(w, links, c, error);
      pending, firsts := pending - {c}, firsts - {first};
    }

    /** Any request in flight, if there is one. */
    method CompleteAny()
      requires Books(Now())
      modifies `links, `away, `ended, `pending, `firsts
      ensures Books(Now()) && Settling(old(Now()), Now())
    {
      SettlingNothing(Now());
      if firsts != {} {
        var first :| first in firsts;
        var error: int := *;
        ghost var w, c :| w == Now() && c in pending && c != [] && c[0] == first;
        var bytes := CompleteRequest(first, error, c);
        SettlingOne(w, Now(), c, error);
      }
    }

    /** Any number of requests in flight, in any order: what may happen whenever the driver is not looking. */
    method CompleteSome()
      requires Books(Now())
      modifies `links, `away, `ended, `pending, `firsts
      ensures Books(Now()) && Settling(old(Now()), Now())
    {
      var n: nat := *;
      var i := 0;
      SettlingNothing(Now());
      while i < n
        invariant Books(Now()) && Settling(old(Now()), Now())
      {
        ghost var w := Now();
        CompleteAny();
        SettlingOn(old(Now()), w, Now());
        i := i + 1;
      }
    }

    /**
     kfio_bio_submit: the core takes the request, with the chain of bios that hangs off its first one.
     The chain is in flight from now on; the core may complete it, and others, at once or later.
     */
    method Submit(fbio: Fbio, ghost bios: seq<Bio>, ghost j: nat, ghost k: nat)
      requires j < k <= |bios| && bios[j] == fbio.first && Chain(links, bios, j, k) && NoDup(bios) && fbio.sgl.Shape()
      requires Books(Now()) && Ours(away, bios, j, k)
      modifies `links, `away, `ended, `log, `pending, `firsts
      ensures Books(Now()) && old(ended) <= ended && pending <= old(pending) + {bios[j..k]}
      ensures Followed(old(pending) + {bios[j..k]}, pending, ended)
      ensures log == old(log) + [Io(old(fbio.View(bios[j..k])))] && away == old(away) + Stretch(bios, j, k)
      ensures SameOutside(old(links), links, away)
    {
      HandIn(fbio, bios, j, k);
      CompleteSome();
    }

    /** The chain is the core's. */
    method HandIn(fbio: Fbio, ghost bios: seq<Bio>, ghost j: nat, ghost k: nat)
      requires j < k <= |bios| && bios[j] == fbio.first && Chain(links, bios, j, k) && NoDup(bios) && fbio.sgl.Shape()
      requires Books(Now()) && Ours(away, bios, j, k)
      modifies `away, `log, `pending, `firsts
      ensures Books(Now()) && pending == old(pending) + {bios[j..k]}
      ensures log == old(log) + [Io(fbio.View(bios[j..k]))] && away == old(away) + Stretch(bios, j, k)
    {
      ghost var f := fbio.View(bios[j..k]);
      SubmittedChain(links, away, bios, j, k);
      HandOver(Now(), f);
      log := log + [Io(f)];
      away := away + Stretch(bios, j, k);
      pending, firsts := pending + {bios[j..k]}, firsts + {fbio.first};
    }

    /**
     kfio_map_to_fbio: a request of one bio, or nothing.  Whether the core has a request to give, and
     how many list entries it comes with, is up to the core.
     */
    method MapToFbio(bio: Bio, granted: bool, nvecs: nat) returns (fbio: Fbio?)
      requires bio.Ok() && nvecs < 0x8000_0000
      ensures fbio != null <==> Servable(bio, bs, granted, nvecs)
      ensures fbio != null ==> fresh(fbio) && fresh(fbio.sgl) && fresh(fbio.sgl.sl)
      ensures fbio != null ==> fbio.sgl.Valid() && fbio.first == bio && Good(fbio.View([bio]), bs)
      ensures fbio != null ==> Serves(fbio.View([bio]), bio, bs)
    {
      if bio.sector * SECTOR % bs != 0 || bio.size % bs != 0 {
        return null;
      }
      if !granted {
        return null;
      }
      fbio := new Fbio(bio, nvecs);
      var error := fbio.Fill(bio, bs);
      if error != 0 {
        return null;
      }
      FirstRange(bio, bs, fbio.sgl.Entries(), nvecs);
      FirstData(bio, bs, fbio.sgl.Entries(), nvecs);
      FirstServes(bio, bs, fbio.sgl.Entries(), nvecs);
    }

    /** What is being built: nothing, or a good request whose chain is bios j to k. */
    ghost predicate Building(fbio: Fbio?, tail: Link, bios: seq<Bio>, j: nat, k: nat)
      requires j <= k <= |bios|
      reads if fbio == null then {} else {fbio, fbio.sgl, fbio.sgl.sl}
    {
      && (fbio == null <==> j == k)
      && (fbio != null ==> fbio.sgl.Valid() && fbio.first == bios[j] && tail == To(bios[k - 1]))
      && (fbio != null ==> Good(fbio.View(bios[j..k]), bs))
    }

    /** The objects of the request being built. */
    ghost predicate Made(fbio: Fbio?, foot: set<object>)
      reads fbio
    {
      fbio != null ==> fbio in foot && fbio.sgl in foot && fbio.sgl.sl in foot
    }

    /** Where the loop stands: bios j to k are being built, those behind k are still a list. */
    ghost predicate Standing(bio: Link, bios: seq<Bio>, j: nat, k: nat)
      requires j <= k <= |bios|
      reads this
    {
      bio == At(bios, k, |bios|) && Chain(links, bios, k, |bios|) && Chain(links, bios, j, k)
        && Ours(away, bios, j, |bios|)
    }

    /** Bio k, if there is one, does not fit the request being built. */
    ghost predicate Cut(fbio: Fbio?, bios: seq<Bio>, j: nat, k: nat)
      requires j <= k <= |bios|
      reads if fbio == null then {} else {fbio, fbio.sgl, fbio.sgl.sl}
    {
      fbio != null && k < |bios| ==> fbio.sgl.Shape() && !Fits(fbio.View(bios[j..k]), bios[k], bs)
    }

    /** Join bio k to the request being built, and link it behind the tail. */
    method TryJoin(fbio: Fbio, tail: Link, bio: Bio, ghost bios: seq<Bio>, ghost j: nat, ghost k: nat, ghost m: nat)
      returns (joined: bool)
      requires j < k < m == k + 1 <= |bios| && Building(fbio, tail, bios, j, k)
      requires Chain(links, bios, j, k) && Chain(links, bios, k, m) && Ours(away, bios, j, |bios|)
      requires NoDup(bios) && bio == bios[k] && bio.Ok() && Books(Now())
      modifies `links, fbio`length, fbio.sgl`numEntries, fbio.sgl`sglSize, fbio.sgl.sl
      ensures joined ==> Building(fbio, To(bio), bios, j, m) && Chain(links, bios, j, m)
      ensures Books(Now()) && (joined ==> Moved(old(Now()), Now(), bios, j, m, j, bs))
      ensures !joined ==> Building(fbio, tail, bios, j, k) && links == old(links)
      ensures !joined ==> Cut(fbio, bios, j, k)
    {
      assert bios[j..k] + [bio] == bios[j..m];
      joined := fbio.JoinGood(bio, bs, bios[j..k], bios[j..m]);
      if joined {
        assert Building(fbio, To(bio), bios, j, m);
        LinkBehind(tail, bio, bios, j, k, m);
      }
    }

    method LinkBehind(tail: Link, bio: Bio, ghost bios: seq<Bio>, ghost j: nat, ghost k: nat, ghost m: nat)
      requires j < k < m == k + 1 <= |bios| && tail == To(bios[k - 1])
      requires Chain(links, bios, j, k) && Chain(links, bios, k, m) && Ours(away, bios, j, |bios|)
      requires NoDup(bios) && bio == bios[k] && Books(Now())
      modifies `links
      ensures Books(Now()) && Chain(links, bios, j, m) && Moved(old(Now()), Now(), bios, j, m, j, bs)
    {
      ChainJoin(links, bios, j, k);
      OursApart(away, bios, j, m);
      Relinked(Now(), links[bios[k - 1] := To(bio)], Stretch(bios, j, m));
      if tail != Null {
        SetNext(tail.bio, To(bio));
      }
      MovedLinks(old(Now()), Now(), bios, j, j, m, bs);
    }

    /** Hand over what is being built, if anything. */
    method Flush(fbio: Fbio?, ghost tail: Link, ghost bios: seq<Bio>, ghost j: nat, ghost k: nat)
      requires j <= k <= |bios| && Building(fbio, tail, bios, j, k) && Cut(fbio, bios, j, k)
      requires Chain(links, bios, j, k) && NoDup(bios) && Books(Now()) && Ours(away, bios, j, k)
      modifies `links, `away, `ended, `log, `pending, `firsts
      ensures Books(Now()) && Moved(old(Now()), Now(), bios, j, k, k, bs)
    {
      if fbio != null {
        LogEvent(log, Io(fbio.View(bios[j..k])), bios, j, k, bs);
        Submit(fbio, bios, j, k);
      } else {
        MovedNothing(Now(), bios, j, k, bs);
      }
    }

    /** Complete a bio that no request could be made for with -EIO. */
    method Refuse(bio: Bio, ghost granted: bool, ghost nvecs: nat)
      requires Books(Now()) && bio !in away
      modifies `links, `away, `ended, `log
      ensures Books(Now())
      ensures log == old(log) + [Failed(bio, granted, nvecs)] && ended == old(ended) + [Ended(bio, EIO)]
      ensures SameOutside(old(links), links, {bio}) && away == old(away) + {bio}
    {
      ghost var w := Now();
      End(bio, EIO);
      Refused(w, links, Failed(bio, granted, nvecs), bio);
      log := log + [Failed(bio, granted, nvecs)];
    }

    /** A request of its own for bio k; the bio fails with -EIO if there is none. */
    method Begin(bio: Bio, ghost bios: seq<Bio>, ghost k: nat, ghost m: nat) returns (fbio: Fbio?, ghost n: nat)
      requires k < m == k + 1 <= |bios| && bio == bios[k] && bio.Ok() && Chain(links, bios, k, m)
      requires Books(Now()) && bio !in away
      modifies `links, `away, `ended, `log
      ensures n == if fbio == null then m else k
      ensures fbio != null ==> fresh(fbio) && fresh(fbio.sgl) && fresh(fbio.sgl.sl)
      ensures fbio == null ==> |log| == |old(log)| + 1 && ended == old(ended) + [Ended(bio, EIO)]
      ensures fbio == null ==> log[|old(log)|].Failed? && log[|old(log)|].b == bio
      ensures Books(Now()) && Building(fbio, To(bio), bios, n, m) && Chain(links, bios, n, m)
      ensures Moved(old(Now()), Now(), bios, k, m, n, bs)
    {
      var granted: bool, nvecs: nat := *, *;
      nvecs := if nvecs < 0x8000_0000 then nvecs else 0;
      fbio := MapToFbio(bio, granted, nvecs);
      n := k;
      if fbio == null {
        Refuse(bio, granted, nvecs);
        MovedRefused(old(Now()), Now(), bios, k, m, Failed(bio, granted, nvecs), bs);
        n := m;
      } else {
        assert bios[k..m] == [bio];
        MovedNothing(Now(), bios, k, m, bs);
      }
    }

    /** One round of the loop: bio k, cut off from the list, is dealt with. */
    method Take(fbio: Fbio?, tail: Link, bio: Bio, ghost foot: set<object>, ghost bios: seq<Bio>, ghost j: nat,
                ghost k: nat, ghost m: nat)
      returns (fbio': Fbio?, tail': Link, ghost foot': set<object>, ghost n: nat)
      requires j <= k < m == k + 1 <= |bios|
      requires Building(fbio, tail, bios, j, k) && Made(fbio, foot) && this !in foot
      requires Chain(links, bios, j, k) && Chain(links, bios, k, m) && Ours(away, bios, j, |bios|)
      requires NoDup(bios) && bio == bios[k] && bio.Ok() && Books(Now())
      modifies `links, `away, `ended, `log, `pending, `firsts, foot
      ensures j <= n <= m && Building(fbio', tail', bios, n, m)
      ensures Made(fbio', foot') && (foot' == foot || fresh(foot'))
      ensures Books(Now()) && Chain(links, bios, n, m) && Moved(old(Now()), Now(), bios, j, m, n, bs)
    {
      foot' := foot;
      if fbio != null {
        var joined := TryJoin(fbio, tail, bio, bios, j, k, m);
        if joined {
          return fbio, To(bio), foot, j;
        }
      }
      ghost var w := Now();
      Flush(fbio, tail, bios, j, k);
      fbio', tail', foot', n := Restart(bio, bios, w, j, k, m);
    }

    /** Bio k begins a new request, after the old one was handed over. */
    method Restart(bio: Bio, ghost bios: seq<Bio>, ghost w: World, ghost j: nat, ghost k: nat, ghost m: nat)
      returns (fbio: Fbio?, tail: Link, ghost foot: set<object>, ghost n: nat)
      requires j <= k < m == k + 1 <= |bios| && NoDup(bios) && bio == bios[k] && bio.Ok()
      requires Chain(w.links, bios, k, m) && Moved(w, Now(), bios, j, k, k, bs)
      requires Books(Now()) && Ours(w.away, bios, j, |bios|)
      modifies `links, `away, `ended, `log, `pending, `firsts
      ensures k <= n <= m && Building(fbio, tail, bios, n, m) && Made(fbio, foot) && fresh(foot)
      ensures Books(Now()) && Chain(links, bios, n, m) && Moved(w, Now(), bios, j, m, n, bs)
    {
      MovedFrame(w, Now(), bios, j, k, k, m, bs);
      fbio, n := Begin(bio, bios, k, m);
      MovedTrans(w, old(Now()), Now(), bios, j, k, k, m, n, bs);
      tail, foot := Null, {};
      if fbio != null {
        tail := To(bio);
        foot := {fbio, fbio.sgl, fbio.sgl.sl};
      }
    }

    /** bi_next = NULL for the first bio of the rest of the list, which moves on. */
    method CutOff(bio: Link, ghost bios: seq<Bio>, ghost w: World, ghost j: nat, ghost k: nat, ghost m: nat)
      returns (next: Link)
      requires j <= k < m == k + 1 <= |bios| && NoDup(bios) && Standing(bio, bios, j, k)
      requires Moved(w, Now(), bios, 0, k, j, bs) && Books(Now())
      modifies `links
      ensures next == At(bios, m, |bios|) && away == old(away)
      ensures Chain(links, bios, k, m) && Chain(links, bios, m, |bios|) && Chain(links, bios, j, k)
      ensures Moved(w, Now(), bios, 0, m, j, bs) && Books(Now())
    {
      NextOf(links, bios, k, |bios|);
      next := links[bio.bio];
      ChainCut(links, bios, k, |bios|);
      OursApart(away, bios, k, m);
      Relinked(Now(), links[bio.bio := Null], Stretch(bios, k, m));
      SetNext(bio.bio, Null);
      ChainFrame(old(links), links, bios, k, m, j, k);
      MovedLinks(old(Now()), Now(), bios, j, k, m, bs);
      MovedTrans(w, old(Now()), Now(), bios, 0, k, j, m, j, bs);
    }

    /** Between two rounds the core may complete what is in flight; the list and the request are not touched. */
    method Between(bio: Link, ghost bios: seq<Bio>, ghost w: World, ghost j: nat, ghost k: nat)
      requires j <= k <= |bios| && Standing(bio, bios, j, k) && Moved(w, Now(), bios, 0, k, j, bs) && Books(Now())
      modifies `links, `away, `ended, `pending, `firsts
      ensures Standing(bio, bios, j, k) && Moved(w, Now(), bios, 0, k, j, bs) && Books(Now())
    {
      ghost var u := Now();
      CompleteSome();
      MovedSettling(u, Now(), bios, j, k, bs);
      MovedTrans(w, u, Now(), bios, 0, k, j, k, j, bs);
      ChainElsewhere(u.links, links, bios, j, k, u.away);
      ChainElsewhere(u.links, links, bios, k, |bios|, u.away);
    }

    /** One bio off the list and into a request. */
    method OneBio(fbio: Fbio?, tail: Link, bio: Link, ghost foot: set<object>, ghost bios: seq<Bio>, ghost w: World,
                  ghost j: nat, ghost k: nat)
      returns (fbio': Fbio?, tail': Link, next: Link, ghost foot': set<object>, ghost n: nat, ghost m: nat)
      requires j <= k < |bios| && Building(fbio, tail, bios, j, k) && Made(fbio, foot) && this !in foot
      requires NoDup(bios) && AllOk(bios) && Standing(bio, bios, j, k) && Moved(w, Now(), bios, 0, k, j, bs)
      requires Books(Now())
      modifies `links, `away, `ended, `log, `pending, `firsts, foot
      ensures n <= m == k + 1 && Building(fbio', tail', bios, n, m)
      ensures Made(fbio', foot') && (foot' == foot || fresh(foot'))
      ensures Books(Now()) && Standing(next, bios, n, m) && Moved(w, Now(), bios, 0, m, n, bs)
    {
      m := k + 1;
      next := CutOff(bio, bios, w, j, k, m);
      ghost var u := Now();
      fbio', tail', foot', n := Take(fbio, tail, bio.bio, foot, bios, j, k, m);
      MovedFrame(u, Now(), bios, j, m, n, |bios|, bs);
      MovedTrans(w, u, Now(), bios, 0, m, j, m, n, bs);
    }

    /** A round of the loop, with what the core completes before it. */
    method Round(fbio: Fbio?, tail: Link, bio: Link, ghost foot: set<object>, ghost bios: seq<Bio>, ghost w: World,
                 ghost j: nat, ghost k: nat)
      returns (fbio': Fbio?, tail': Link, next: Link, ghost foot': set<object>, ghost n: nat, ghost m: nat)
      requires j <= k < |bios| && Building(fbio, tail, bios, j, k) && Made(fbio, foot) && this !in foot
      requires NoDup(bios) && AllOk(bios) && Standing(bio, bios, j, k) && Moved(w, Now(), bios, 0, k, j, bs)
      requires Books(Now())
      modifies `links, `away, `ended, `log, `pending, `firsts, foot
      ensures n <= m == k + 1 && Building(fbio', tail', bios, n, m)
      ensures Made(fbio', foot') && (foot' == foot || fresh(foot'))
      ensures Books(Now()) && Standing(next, bios, n, m) && Moved(w, Now(), bios, 0, m, n, bs)
    {
      Between(bio, bios, w, j, k);
      fbio', tail', next, foot', n, m := OneBio(fbio, tail, bio, foot, bios, w, j, k);
    }

    /**
     kfio_kickoff_plugged_io.  Every bio of the list ends up, in order and once, in a good request or as
     a failed bio of its own.  The core may complete requests at any time between two rounds: chains
     that were in flight before still are, whole, or all their bios were completed alike.
     */
    method Kickoff(first: Bio, ghost bios: seq<Bio>)
      requires bios != [] && bios[0] == first && NoDup(bios) && AllOk(bios)
      requires Chain(links, bios, 0, |bios|) && Ours(away, bios, 0, |bios|) && Books(Now())
      modifies `links, `away, `ended, `log, `pending, `firsts
      ensures Books(Now()) && Moved(old(Now()), Now(), bios, 0, |bios|, |bios|, bs)
    {
      var bio, tail, fbio: Fbio? := To(first), Null, null;
      ghost var w, j: nat, k: nat, foot: set<object> := Now(), 0, 0, {};
      MovedNothing(w, bios, 0, 0, bs);
      while bio != Null
        invariant 0 <= j <= k <= |bios| && Standing(bio, bios, j, k)
        invariant Building(fbio, tail, bios, j, k) && Made(fbio, foot) && fresh(foot)
        invariant Moved(w, Now(), bios, 0, k, j, bs) && Books(Now())
        decreases |bios| - k
      {
        fbio, tail, bio, foot, j, k := Round(fbio, tail, bio, foot, bios, w, j, k);
      }
      FlushLast(fbio, tail, bios, w, j, k);
      assert k == |bios|;
    }

    /** Behind the loop: hand over what is left. */
    method FlushLast(fbio: Fbio?, ghost tail: Link, ghost bios: seq<Bio>, ghost w: World, ghost j: nat, ghost k: nat)
      requires j <= k == |bios| && Building(fbio, tail, bios, j, k)
      requires Chain(links, bios, j, k) && NoDup(bios) && Moved(w, Now(), bios, 0, k, j, bs)
      requires Books(Now()) && Ours(away, bios, j, k)
      modifies `links, `away, `ended, `log, `pending, `firsts
      ensures Books(Now()) && Moved(w, Now(), bios, 0, k, k, bs)
    {
      Flush(fbio, tail, bios, j, k);
      MovedTrans(w, old(Now()), Now(), bios, 0, k, j, k, k, bs);
    }
  }
}
