/** Bios linked into lists. */
module BioChains {
  import opened Sequences
  import opened BioRange

  datatype Link = Null | To(bio: Bio)

  type Links = map<Bio, Link>

  function After(bios: seq<Bio>, i: nat, k: nat): Link
    requires i < k <= |bios|
  {
    if i + 1 < k then To(bios[i + 1]) else Null
  }

  function At(bios: seq<Bio>, i: nat, k: nat): Link
    requires k <= |bios|
  {
    if i < k then To(bios[i]) else Null
  }

  ghost predicate LinkedOn(links: Links, bios: seq<Bio>, i: nat, k: nat)
    requires i < k <= |bios|
  {
    bios[i] in links && links[bios[i]] == After(bios, i, k)
  }

  /** bios j to k are linked in this order; the last link is NULL. */
  ghost predicate Chain(links: Links, bios: seq<Bio>, j: nat, k: nat)
    requires j <= k <= |bios|
  {
    forall i :: j <= i < k ==> LinkedOn(links, bios, i, k)
  }

  /** bios j to k still belong to the driver. */
  ghost predicate Ours(away: set<Bio>, bios: seq<Bio>, j: nat, k: nat)
    requires j <= k <= |bios|
  {
    forall i :: j <= i < k ==> bios[i] !in away
  }

  ghost predicate AllOk(bios: seq<Bio>) {
    forall i :: 0 <= i < |bios| ==> bios[i].Ok()
  }

  function Stretch(bios: seq<Bio>, j: nat, k: nat): (s: set<Bio>)
    requires j <= k <= |bios|
  {
    set i | j <= i < k :: bios[i]
  }

  /** The links of bios outside s are the same. */
  ghost predicate SameOutside(a: Links, b: Links, s: set<Bio>) {
    forall x :: x !in s ==> (x in a <==> x in b) && (x in a ==> a[x] == b[x])
  }

  /** What happens to other bios does not matter to a chain. */
  lemma {:induction false} ChainFrame(a: Links, b: Links, bios: seq<Bio>, i: nat, j: nat, k: nat, l: nat)
    requires NoDup(bios) && i <= j <= |bios| && k <= l <= |bios| && (j <= k || l <= i)
    requires Chain(a, bios, k, l) && SameOutside(a, b, Stretch(bios, i, j))
    ensures Chain(b, bios, k, l)
  {
    forall n | k <= n < l
      ensures LinkedOn(b, bios, n, l)
    {
      assert LinkedOn(a, bios, n, l);
      assert bios[n] !in Stretch(bios, i, j);
    }
  }

  /** A chain none of whose bios is in s. */
  lemma {:induction false} ChainElsewhere(a: Links, b: Links, bios: seq<Bio>, k: nat, l: nat, s: set<Bio>)
    requires k <= l <= |bios| && Chain(a, bios, k, l) && SameOutside(a, b, s)
    requires forall i :: k <= i < l ==> bios[i] !in s
    ensures Chain(b, bios, k, l)
  {
    forall i | k <= i < l
      ensures LinkedOn(b, bios, i, l)
    {
      assert LinkedOn(a, bios, i, l);
    }
  }

  lemma {:induction false} OursFrame(away: set<Bio>, bios: seq<Bio>, i: nat, j: nat, k: nat, l: nat)
    requires NoDup(bios) && i <= j <= |bios| && k <= l <= |bios| && (j <= k || l <= i)
    requires Ours(away, bios, k, l)
    ensures Ours(away + Stretch(bios, i, j), bios, k, l)
  {
    forall n | k <= n < l
      ensures bios[n] !in away + Stretch(bios, i, j)
    {
      assert bios[n] !in Stretch(bios, i, j);
    }
  }

  /** Cutting the first bio off a chain. */
  lemma {:induction false} ChainCut(links: Links, bios: seq<Bio>, k: nat, l: nat)
    requires NoDup(bios) && k < l <= |bios| && Chain(links, bios, k, l)
    ensures Chain(links[bios[k] := Null], bios, k, k + 1)
    ensures Chain(links[bios[k] := Null], bios, k + 1, l)
    ensures bios[k] in links && links[bios[k]] == At(bios, k + 1, l)
    ensures SameOutside(links, links[bios[k] := Null], Stretch(bios, k, k + 1))
  {
    assert LinkedOn(links, bios, k, l);
    var cut := links[bios[k] := Null];
    forall i | k + 1 <= i < l
      ensures LinkedOn(cut, bios, i, l)
    {
      assert LinkedOn(links, bios, i, l);
    }
  }

  /** Linking a single bio behind a chain. */
  lemma {:induction false} ChainJoin(links: Links, bios: seq<Bio>, j: nat, k: nat)
    requires NoDup(bios) && j < k < |bios| && Chain(links, bios, j, k) && Chain(links, bios, k, k + 1)
    ensures Chain(links[bios[k - 1] := To(bios[k])], bios, j, k + 1)
    ensures SameOutside(links, links[bios[k - 1] := To(bios[k])], Stretch(bios, j, k + 1))
  {
    var joined, next := links[bios[k - 1] := To(bios[k])], k + 1;
    forall i | j <= i < next
      ensures LinkedOn(joined, bios, i, next)
    {
      if i < k {
        assert LinkedOn(links, bios, i, k);
      } else {
        assert LinkedOn(links, bios, k, k + 1);
      }
    }
  }

  /** One more bio of a chain is given away, and its link with it. */
  lemma {:induction false} ChainShrinks(a: Links, b: Links, c: Links, bios: seq<Bio>, j: nat, n: nat, k: nat)
    requires NoDup(bios) && j <= n < k <= |bios|
    requires SameOutside(a, b, Stretch(bios, j, n)) && Chain(b, bios, n, k) && SameOutside(b, c, {bios[n]})
    ensures Chain(c, bios, n + 1, k) && SameOutside(a, c, Stretch(bios, j, n + 1))
  {
    StretchNext(bios, j, n);
    forall x | x !in Stretch(bios, j, n + 1)
      ensures (x in a <==> x in c) && (x in a ==> a[x] == c[x])
    {
      assert x !in Stretch(bios, j, n) && x !in {bios[n]};
    }
    forall i | n + 1 <= i < k
      ensures LinkedOn(c, bios, i, k)
    {
      assert LinkedOn(b, bios, i, k);
      assert bios[i] !in {bios[n]};
    }
  }

  lemma {:induction false} StretchNext(bios: seq<Bio>, j: nat, n: nat)
    requires j <= n < |bios|
    ensures Stretch(bios, j, n + 1) == Stretch(bios, j, n) + {bios[n]}
  {
  }

  lemma {:induction false} OursApart(away: set<Bio>, bios: seq<Bio>, j: nat, k: nat)
    requires j <= k <= |bios| && Ours(away, bios, j, |bios|)
    ensures Stretch(bios, j, k) !! away
  {
  }

  lemma {:induction false} StretchInside(bios: seq<Bio>, i: nat, j: nat, k: nat, l: nat)
    requires i <= j <= k <= l <= |bios|
    ensures Stretch(bios, j, k) <= Stretch(bios, i, l)
  {
  }

  lemma {:induction false} StretchJoin(bios: seq<Bio>, i: nat, j: nat, k: nat)
    requires i <= j <= k <= |bios|
    ensures Stretch(bios, i, k) == Stretch(bios, i, j) + Stretch(bios, j, k)
  {
  }

  lemma {:induction false} SameWider(a: Links, b: Links, s: set<Bio>, t: set<Bio>)
    requires SameOutside(a, b, s) && s <= t
    ensures SameOutside(a, b, t)
  {
    forall x | x !in t
      ensures (x in a <==> x in b) && (x in a ==> a[x] == b[x])
    {
      assert x !in s;
    }
  }

  lemma {:induction false} SameTrans(a: Links, b: Links, c: Links, s: set<Bio>, s': set<Bio>, t: set<Bio>)
    requires SameOutside(a, b, s) && SameOutside(b, c, s') && s <= t && s' <= t
    ensures SameOutside(a, c, t)
  {
    SameWider(a, b, s, t);
    SameWider(b, c, s', t);
  }
}
