/** The constant tables of the multi-granularity lock, and its serial comparison. */
module SixLockTables {
  import opened Machine

  /** Lock modes in the order of the enumeration; the tables depend on that order. */
  datatype Mode = Null | IS | IX | S | SIX | U | X

  const MODE_COUNT := 7

  function Ord(m: Mode): (k: nat)
    ensures k < MODE_COUNT
  {
    match m
    case Null => 0
    case IS => 1
    case IX => 2
    case S => 3
    case SIX => 4
    case U => 5
    case X => 6
  }

  /** COMPAT_MASK_*: the modes others may hold when m is requested. */
  function CompatSet(m: Mode): set<Mode> {
    match m
    case Null => {Null, S, IS, IX, SIX, X, U}
    case IS => {Null, S, IS, IX, SIX}
    case IX => {Null, IS, IX}
    case S => {Null, S, IS}
    case SIX => {Null, IS}
    case U => {Null, S}
    case X => {Null}
  }

  /** One row of upgrade_conversion[asked][prior], indexed by the mode held before. */
  function ConversionRow(asked: Mode): (row: seq<Mode>)
    ensures |row| == MODE_COUNT
  {
    match asked
    case Null => [Null, IS, IX, S, SIX, U, X]
    case IS => [IS, IS, IX, S, SIX, U, X]
    case IX => [IX, IX, IX, SIX, SIX, X, X]
    case S => [S, S, SIX, S, SIX, U, X]
    case SIX => [SIX, SIX, SIX, SIX, SIX, SIX, X]
    case U => [U, U, X, U, SIX, U, X]
    case X => [X, X, X, X, X, X, X]
  }

  /** The mode an upgrade from `prior` really requests. */
  function Convert(asked: Mode, prior: Mode): Mode {
    ConversionRow(asked)[Ord(prior)]
  }

  /** May `req` be granted while somebody else holds `held`? */
  predicate Admits(req: Mode, held: Mode) {
    held in CompatSet(req)
  }

  /** What two holders of the lock may hold at once: the table allows it in at least one order. */
  predicate Coexist(a: Mode, b: Mode) {
    Admits(a, b) || Admits(b, a)
  }

  // ---------------------------------------------------------------- what the tables mean

  /** A mode reads or writes everything that is locked, or announces that parts of it will be locked below. */
  predicate ReadsAll(m: Mode) { m == S || m == SIX || m == U || m == X }

  predicate WritesAll(m: Mode) { m == X }

  predicate LocksParts(m: Mode) { m == IS || m == IX || m == SIX }

  predicate WritesParts(m: Mode) { m == IX || m == SIX }

  /** An update lock reads everything and is going to write it. */
  predicate WillWriteAll(m: Mode) { m == U || m == X }

  /** What a does rules out what b does. */
  predicate Clashes(a: Mode, b: Mode) {
    || (WritesAll(a) && b != Null)
    || (ReadsAll(a) && WritesParts(b))
    || (WillWriteAll(a) && (LocksParts(b) || WillWriteAll(b)))
  }

  /** The compatibility table is the modes' meaning, but for S, which is not admitted beside U. */
  lemma {:induction false} AdmitsIff(req: Mode, held: Mode)
    ensures Admits(req, held) <==> !Clashes(req, held) && !Clashes(held, req) && !(req == S && held == U)
  {
    match req case Null => case IS => case IX => case S => case SIX => case U => case X =>
  }

  /** Two holders may coexist exactly when neither does what the other rules out. */
  lemma {:induction false} CoexistIff(a: Mode, b: Mode)
    ensures Coexist(a, b) <==> !Clashes(a, b) && !Clashes(b, a)
  {
    AdmitsIff(a, b);
    AdmitsIff(b, a);
  }

  /** U may join S but S may not join U, and that is the only asymmetry in the table. */
  lemma {:induction false} OnlyUpdateIsAsymmetric(a: Mode, b: Mode)
    ensures Admits(a, b) != Admits(b, a) <==> {a, b} == {S, U}
  {
    assert {S, U} == {U, S};
    assert a in {a, b} && b in {a, b};
  }

  /** The two unordered pairs whose entry in the conversion table is not a join. */
  predicate InexactPair(a: Mode, b: Mode) {
    (a == U && b == SIX) || (a == SIX && b == U) || (a == IS && b == S) || (a == S && b == IS)
  }

  /**
   The converted mode keeps out everything that the held and the requested mode keep out, except
   for two pairs: U with SIX gives SIX, which lives with IS although U does not, and IS with S gives
   S, which a U may join although U never lives with IS.
   */
  lemma {:induction false} ConversionIsStrongEnoughIff(asked: Mode, prior: Mode)
    ensures (forall k: Mode :: Coexist(Convert(asked, prior), k) ==> Coexist(asked, k) && Coexist(prior, k))
      <==> !InexactPair(asked, prior)
  {
    assert !Coexist(U, IS) && Coexist(SIX, IS) && Coexist(S, U);
    if InexactPair(asked, prior) {
      var k := if asked == U || prior == U then IS else U;
      assert Coexist(Convert(asked, prior), k);
    } else {
      forall k: Mode | Coexist(Convert(asked, prior), k)
        ensures Coexist(asked, k) && Coexist(prior, k)
      {
        match asked case Null => case IS => case IX => case S => case SIX => case U => case X =>
      }
    }
  }

  /** A mode goes with k exactly when both of two modes do. */
  predicate Joins(m: Mode, a: Mode, b: Mode, k: Mode) {
    Coexist(m, k) <==> Coexist(a, k) && Coexist(b, k)
  }

  /**
   The converted mode is the join of the held and the requested one, no stronger and no weaker, except
   for the two pairs, where it is SIX and S.
   */
  lemma {:induction false} ConversionIsJoinIff(asked: Mode, prior: Mode)
    ensures (forall k: Mode :: Joins(Convert(asked, prior), asked, prior, k)) <==> !InexactPair(asked, prior)
    ensures InexactPair(asked, prior) ==> Convert(asked, prior) == if asked == U || prior == U then SIX else S
  {
    if InexactPair(asked, prior) {
      assert Coexist(SIX, IS) && !Coexist(U, IS) && Coexist(S, U) && !Coexist(IS, U);
      assert !Joins(Convert(asked, prior), asked, prior, if asked == U || prior == U then IS else U);
    } else {
      forall k: Mode
        ensures Joins(Convert(asked, prior), asked, prior, k)
      {
        match asked case Null => case IS => case IX => case S => case SIX => case U => case X =>
      }
    }
  }

  /** Modes that go with the same modes are the same: a join is one mode. */
  lemma {:induction false} JoinIsUnique(a: Mode, b: Mode)
    requires forall k: Mode :: Coexist(a, k) <==> Coexist(b, k)
    ensures a == b
  {
    assert Coexist(a, IS) == Coexist(b, IS) && Coexist(a, IX) == Coexist(b, IX) && Coexist(a, S) == Coexist(b, S);
    assert Coexist(a, SIX) == Coexist(b, SIX) && Coexist(a, U) == Coexist(b, U) && Coexist(a, X) == Coexist(b, X);
    match a case Null => case IS => case IX => case S => case SIX => case U => case X =>
  }

  // ---------------------------------------------------------------- serial numbers

  const SIGN_BIT: nat := 0x8000_0000_0000_0000

  /** 64-bit increment and subtraction with wrap-around. */
  function Inc64(n: int): int {
    if n == 0xFFFF_FFFF_FFFF_FFFF then 0 else n + 1
  }

  function Sub64(a: int, b: int): int {
    if a >= b then a - b else a - b + 0x1_0000_0000_0000_0000
  }

  /** The value of a 64-bit counter that started at 0 and was incremented n times. */
  function Serial(n: nat): int {
    if n == 0 then 0 else Inc64(Serial(n - 1))
  }

  lemma {:induction false} SerialIsRemainder(n: nat)
    ensures Serial(n) == n % 0x1_0000_0000_0000_0000
  {
    if n != 0 {
      SerialIsRemainder(n - 1);
      var q := (n - 1) / 0x1_0000_0000_0000_0000;
      assert n - 1 == q * 0x1_0000_0000_0000_0000 + Serial(n - 1);
    }
  }

  /** The 64-bit difference of two counts is how many increments lie between them. */
  lemma {:induction false} SerialDifference(n: nat, d: nat)
    requires d <= 0xFFFF
    ensures Is64(Serial(n)) && Is64(Serial(n + d)) && Sub64(Serial(n + d), Serial(n)) == d
  {
    SerialIsRemainder(n);
    if d > 0 {
      SerialDifference(n, d - 1);
    }
  }

  /** serial64_compare, branch by branch. */
  function SerialCompare(s1: int, s2: int): int
  {
    if s1 == s2 then 0
    else if s1 < s2 then (if Sub64(s2, s1) < SIGN_BIT then -1 else 1)
    else if Sub64(s2, s1) < SIGN_BIT then 1
    else -1
  }

  /** What its comment promises: the order of wrapping serial numbers. */
  function WrappedOrder(s1: int, s2: int): int {
    if s1 == s2 then 0 else if Sub64(s2, s1) < SIGN_BIT then -1 else 1
  }

  predicate Is64(s: int) {
    0 <= s < U64
  }

  /** The comparison is the promised order exactly when its first argument is not numerically larger. */
  lemma {:induction false} CompareIsOrderIffNotLarger(s1: int, s2: int)
    requires Is64(s1) && Is64(s2)
    ensures SerialCompare(s1, s2) == WrappedOrder(s1, s2) <==> s1 <= s2
  {
  }

  /**
   The effect of that on the lock.  `ticket` and `turn` count conversions without wrapping; at most
   65535 requests can be waiting, so a pending ticket is at most that far ahead of its turn.  The
   test holds a request back exactly when it is not its turn, unless the 64-bit serials wrapped in
   between: then an early request is let through.
   */
  lemma {:induction false} SerialTestMeaning(ticket: nat, turn: nat)
    requires turn <= ticket <= turn + 0xFFFF
    ensures SerialCompare(Serial(ticket), Serial(turn)) < 0
      <==> ticket != turn && ticket / U64 == turn / U64
  {
    SerialIsRemainder(ticket);
    SerialIsRemainder(turn);
    var a, b := Serial(ticket), Serial(turn);
    var p, q := ticket / U64, turn / U64;
    assert ticket == p * U64 + a && turn == q * U64 + b;
    assert p == q || p == q + 1;
    if p == q {
      assert ticket - turn == a - b;
      assert a != b ==> Sub64(b, a) == b - a + U64;
    } else {
      assert ticket - turn == U64 + a - b;
      assert a < b && Sub64(b, a) == b - a;
    }
  }

  /** The first serial after the wrap is not held back by the last one before it. */
  lemma {:induction false} SerialWrapOvertakes()
    ensures SerialCompare(Serial(U64), Serial(U64 - 1)) == 1
  {
    SerialIsRemainder(U64);
    SerialIsRemainder(U64 - 1);
  }
}
