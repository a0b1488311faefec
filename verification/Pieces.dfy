/** Stretches of memory and the flat sequence of byte addresses they stand for. */
module Pieces {

  /** One byte: a page (or the bus, for device addresses) and a position in it. */
  datatype Address = Address(space: int, at: int)

  /** len consecutive bytes. */
  datatype Piece = Piece(space: int, start: int, len: nat)

  function Bytes(p: Piece): (bs: seq<Address>)
    ensures |bs| == p.len
  {
    seq(p.len, k => Address(p.space, p.start + k))
  }

  function Flat(ps: seq<Piece>): (bs: seq<Address>) {
    if ps == [] then [] else Flat(ps[..|ps| - 1]) + Bytes(ps[|ps| - 1])
  }

  function Total(ps: seq<Piece>): nat {
    if ps == [] then 0 else Total(ps[..|ps| - 1]) + ps[|ps| - 1].len
  }

  lemma {:induction false} FlatLength(ps: seq<Piece>)
    ensures |Flat(ps)| == Total(ps)
  {
    if ps != [] {
      FlatLength(ps[..|ps| - 1]);
    }
  }

  lemma {:induction false} FlatAppend(ps: seq<Piece>, p: Piece)
    ensures Flat(ps + [p]) == Flat(ps) + Bytes(p)
    ensures Total(ps + [p]) == Total(ps) + p.len
  {
    assert (ps + [p])[..|ps|] == ps;
  }

  lemma {:induction false} FlatConcat(a: seq<Piece>, b: seq<Piece>)
    ensures Flat(a + b) == Flat(a) + Flat(b)
    ensures Total(a + b) == Total(a) + Total(b)
  {
    if b == [] {
      assert a + b == a;
    } else {
      var front, last := b[..|b| - 1], b[|b| - 1];
      assert b == front + [last];
      assert a + b == (a + front) + [last];
      FlatConcat(a, front);
      FlatAppend(a + front, last);
    }
  }

  lemma {:induction false} Assoc(a: seq<Address>, b: seq<Address>, c: seq<Address>)
    ensures a + (b + c) == (a + b) + c
  {
  }

  lemma {:induction false} NextPrefix(ps: seq<Piece>, i: nat)
    requires i < |ps|
    ensures Total(ps[..i + 1]) == Total(ps[..i]) + ps[i].len
  {
    assert ps[..i + 1] == ps[..i] + [ps[i]];
    FlatAppend(ps[..i], ps[i]);
  }

  /** The flat sequence of pieces i..j is a slice of the whole. */
  lemma {:induction false} FlatSlice(ps: seq<Piece>, i: nat, j: nat)
    requires i <= j <= |ps|
    ensures Total(ps[..i]) <= Total(ps[..j]) <= Total(ps) == |Flat(ps)|
    ensures Flat(ps[i..j]) == Flat(ps)[Total(ps[..i])..Total(ps[..j])]
  {
    assert ps == ps[..i] + ps[i..j] + ps[j..];
    assert ps[..j] == ps[..i] + ps[i..j];
    FlatConcat(ps[..i], ps[i..j]);
    FlatConcat(ps[..i] + ps[i..j], ps[j..]);
    FlatLength(ps);
    FlatLength(ps[..i]);
    FlatLength(ps[..j]);
  }

  /** Where the byte at a given offset of the flat sequence lies. */
  lemma {:induction false} ByteAt(ps: seq<Piece>, i: nat, offset: nat)
    requires i < |ps| && Total(ps[..i]) <= offset < Total(ps[..i]) + ps[i].len
    ensures offset < |Flat(ps)|
    ensures Flat(ps)[offset] == Address(ps[i].space, ps[i].start + (offset - Total(ps[..i])))
  {
    NextPrefix(ps, i);
    FlatSlice(ps, i, i + 1);
    assert ps[i..i + 1] == [ps[i]];
    assert Flat(ps)[offset] == Bytes(ps[i])[offset - Total(ps[..i])];
  }

  /** A piece laid at the end of a stretch extends it. */
  lemma {:induction false} JoinTile(ps: seq<Piece>, p: Piece, bs: seq<Address>, i: nat, j: nat, k: nat)
    requires i <= j <= k <= |bs| && Flat(ps) == bs[i..j] && Bytes(p) == bs[j..k]
    ensures Flat(ps + [p]) == bs[i..k]
  {
    FlatAppend(ps, p);
    assert bs[i..j] + bs[j..k] == bs[i..k];
  }
}
