/** Placing CPUs on completion queues. */
module CpuQueues {
  import opened Division

  const MAX_QUEUES: nat := 16

  // ---------------------------------------------------------------- counting

  /** Online CPUs among the first n. */
  function OnlineBefore(online: seq<bool>, n: nat): nat
    requires n <= |online|
  {
    if n == 0 then 0 else OnlineBefore(online, n - 1) + if online[n - 1] then 1 else 0
  }

  /** Online CPUs among the first n with the value k: of a cluster, or on a queue. */
  function Having(online: seq<bool>, values: seq<nat>, k: nat, n: nat): nat
    requires n <= |online| && n <= |values|
  {
    if n == 0 then 0 else Having(online, values, k, n - 1) + if online[n - 1] && values[n - 1] == k then 1 else 0
  }

  lemma {:induction false} OnlineGrows(online: seq<bool>, i: nat, j: nat)
    requires i <= j <= |online|
    ensures OnlineBefore(online, i) <= OnlineBefore(online, j)
    decreases j - i
  {
    if i < j {
      OnlineGrows(online, i + 1, j);
    }
  }

  // ---------------------------------------------------------------- enough queues

  /** Every CPU takes the queue after those of the online CPUs before it, round and round. */
  ghost predicate OneEach(online: seq<bool>, queue: seq<nat>, r: nat) {
    |queue| == |online| && r > 0 && forall c :: 0 <= c < |queue| ==> queue[c] == Turn(online, r, c)
  }

  function Turn(online: seq<bool>, r: nat, c: nat): nat
    requires c <= |online| && r > 0
  {
    Rem(OnlineBefore(online, c), r)
  }

  lemma {:induction false} OneEachPlace(online: seq<bool>, queue: seq<nat>, r: nat, c: nat)
    requires OneEach(online, queue, r) && c < |queue| && OnlineBefore(online, |online|) <= r
    ensures queue[c] < r
    ensures online[c] ==> queue[c] == OnlineBefore(online, c) < OnlineBefore(online, |online|)
  {
    if online[c] {
      OnlineGrows(online, c + 1, |online|);
      QuotIs(OnlineBefore(online, c), r, 0);
    }
  }

  /** With enough queues online CPUs have queues of their own. */
  lemma {:induction false} OneEachDistinct(online: seq<bool>, queue: seq<nat>, r: nat, c: nat, d: nat)
    requires OneEach(online, queue, r) && c < d < |queue| && online[c] && online[d]
    requires OnlineBefore(online, |online|) <= r
    ensures queue[c] != queue[d]
  {
    OneEachPlace(online, queue, r, c);
    OneEachPlace(online, queue, r, d);
    OnlineGrows(online, c + 1, d);
  }

  lemma {:induction false} NoneOnline(online: seq<bool>, c: nat, d: nat)
    requires c <= d <= |online| && forall i :: c <= i < d ==> !online[i]
    ensures OnlineBefore(online, c) == OnlineBefore(online, d)
  {
    if c < d {
      NoneOnline(online, c, d - 1);
    }
  }

  /** An offline CPU shares the queue of the next online one. */
  lemma {:induction false} OfflineShares(online: seq<bool>, queue: seq<nat>, r: nat, c: nat, d: nat)
    requires OneEach(online, queue, r) && c < d < |queue| && forall i :: c <= i < d ==> !online[i]
    ensures queue[c] == queue[d]
  {
    NoneOnline(online, c, d);
  }

  // ---------------------------------------------------------------- too few queues

  /** Every CPU takes, among the `per` queues of its cluster, the one after those of the online CPUs before it. */
  ghost predicate Clustered(online: seq<bool>, cl: seq<nat>, queue: seq<nat>, per: nat) {
    && |queue| == |online| == |cl| && per > 0
    && forall c :: 0 <= c < |queue| ==> PlacedAt(online, cl, queue, per, c)
  }

  ghost predicate PlacedAt(online: seq<bool>, cl: seq<nat>, queue: seq<nat>, per: nat, c: nat)
    requires c < |queue| && |queue| <= |online| && |queue| <= |cl| && per > 0
  {
    queue[c] == Place(online, cl, per, c)
  }

  function Place(online: seq<bool>, cl: seq<nat>, per: nat, c: nat): nat
    requires c < |online| && c < |cl| && per > 0
  {
    cl[c] * per + Rem(Having(online, cl, cl[c], c), per)
  }

  /** CPUs of different clusters are on different queues. */
  lemma {:induction false} NeverShared(online: seq<bool>, cl: seq<nat>, queue: seq<nat>, per: nat, c: nat, d: nat)
    requires Clustered(online, cl, queue, per) && c < |queue| && d < |queue| && queue[c] == queue[d]
    ensures cl[c] == cl[d]
  {
    assert PlacedAt(online, cl, queue, per, c) && PlacedAt(online, cl, queue, per, d);
    Unique(cl[c], Rem(Having(online, cl, cl[c], c), per), cl[d], Rem(Having(online, cl, cl[d], d), per), per);
  }

  /** How the online CPUs of cluster k spread over its queues. */
  lemma {:induction false} LoadIs(online: seq<bool>, cl: seq<nat>, queue: seq<nat>, per: nat, k: nat, j: nat,
                                  q: nat, n: nat)
    requires Clustered(online, cl, queue, per) && j < per && q == k * per + j && n <= |queue|
    ensures var t := Having(online, cl, k, n);
      Having(online, queue, q, n) == Quot(t, per) + if j < Rem(t, per) then 1 else 0
  {
    if n == 0 {
      QuotIs(0, per, 0);
    } else {
      var c := n - 1;
      LoadIs(online, cl, queue, per, k, j, q, c);
      OnQueue(online, cl, queue, per, k, j, q, c);
      if online[c] && cl[c] == k {
        NextRem(Having(online, cl, k, c), per);
      }
    }
  }

  /** A CPU is on queue q exactly when it is in that queue's cluster and at its turn. */
  lemma {:induction false} OnQueue(online: seq<bool>, cl: seq<nat>, queue: seq<nat>, per: nat, k: nat, j: nat,
                                   q: nat, c: nat)
    requires Clustered(online, cl, queue, per) && j < per && q == k * per + j && c < |queue|
    ensures queue[c] == q <==> cl[c] == k && Rem(Having(online, cl, k, c), per) == j
  {
    assert PlacedAt(online, cl, queue, per, c);
    if queue[c] == q {
      Unique(cl[c], Rem(Having(online, cl, cl[c], c), per), k, j, per);
    }
  }

  /** Inside a cluster the online loads of two queues differ by at most one. */
  lemma {:induction false} Balanced(online: seq<bool>, cl: seq<nat>, queue: seq<nat>, per: nat, k: nat, i: nat, j: nat)
    requires Clustered(online, cl, queue, per) && i < per && j < per
    ensures Having(online, queue, k * per + i, |queue|) <= Having(online, queue, k * per + j, |queue|) + 1
  {
    LoadIs(online, cl, queue, per, k, i, k * per + i, |queue|);
    LoadIs(online, cl, queue, per, k, j, k * per + j, |queue|);
  }

  lemma {:induction false} NoneHaving(online: seq<bool>, cl: seq<nat>, k: nat, c: nat, d: nat)
    requires c <= d <= |online| && d <= |cl| && forall i :: c <= i < d && cl[i] == k ==> !online[i]
    ensures Having(online, cl, k, c) == Having(online, cl, k, d)
  {
    if c < d {
      NoneHaving(online, cl, k, c, d - 1);
    }
  }

  /** Here too an offline CPU shares the queue of the next online one of its cluster. */
  lemma {:induction false} OfflineSharesInCluster(online: seq<bool>, cl: seq<nat>, queue: seq<nat>, per: nat, c: nat,
                                                  d: nat)
    requires Clustered(online, cl, queue, per) && c < d < |queue| && cl[c] == cl[d]
    requires forall i :: c <= i < d && cl[i] == cl[c] ==> !online[i]
    ensures queue[c] == queue[d]
  {
    NoneHaving(online, cl, cl[c], c, d);
    assert PlacedAt(online, cl, queue, per, c) && PlacedAt(online, cl, queue, per, d);
  }

  // ---------------------------------------------------------------- nodes and clusters

  /** Which nodes have CPUs. */
  function UsedNodes(nodes: seq<nat>, possible: nat): (used: seq<bool>)
    ensures |used| == possible && forall i :: 0 <= i < possible ==> used[i] == (i in nodes)
  {
    seq(possible, i => i in nodes)
  }

  /** Past nodes without CPUs, up to the number of online nodes. */
  function Advance(used: seq<bool>, num: nat, c: nat): (r: nat)
    requires num <= |used|
    ensures c <= r && (r < num ==> used[r]) && (c <= num ==> r <= num) && (c >= num ==> r == c)
    ensures forall i :: c <= i < r ==> i < num && !used[i]
    decreases num - c
  {
    if c < num && !used[c] then Advance(used, num, c + 1) else c
  }

  /** The running number when node i is reached; node_map of a node that has CPUs. */
  function Counter(used: seq<bool>, num: nat, i: nat): nat
    requires num <= |used| && i <= |used|
  {
    if i == 0 then 0
    else if used[i - 1] then Advance(used, num, Counter(used, num, i - 1) + 1) else Counter(used, num, i - 1)
  }

  /** What the numbering is for: nodes with CPUs get numbers below the number of online nodes. */
  ghost predicate InRange(used: seq<bool>, num: nat)
    requires num <= |used|
  {
    forall i :: 0 <= i < |used| && used[i] ==> Counter(used, num, i) < num
  }

  /** What a caller can see: nodes with CPUs are numbered below `num`, but for the last when node 0 has none. */
  ghost predicate Suited(used: seq<bool>, num: nat) {
    && (used != [] && used[0] ==> forall i :: 0 <= i < |used| && used[i] ==> i < num)
    && (forall i, j :: 0 <= i < j < |used| && used[i] && used[j] ==> i < num)
  }

  lemma {:induction false} CounterGrows(used: seq<bool>, num: nat, i: nat, j: nat)
    requires num <= |used| && i <= j <= |used|
    ensures Counter(used, num, i) <= Counter(used, num, j)
    ensures i < j && used[i] ==> Counter(used, num, i) < Counter(used, num, j)
    decreases j - i
  {
    if i < j {
      CounterGrows(used, num, i + 1, j);
    }
  }

  /** With CPUs on node 0, a node's number is its own as far as the online nodes go. */
  lemma {:induction false} FromZero(used: seq<bool>, num: nat, k: nat)
    requires 0 < k <= num <= |used| && used[0]
    ensures Counter(used, num, k) == Advance(used, num, k)
  {
    if k == 1 {
      assert Counter(used, num, 0) == 0;
    } else {
      FromZero(used, num, k - 1);
    }
  }

  /** The nodes before the first one with CPUs. */
  lemma {:induction false} NoneYet(used: seq<bool>, num: nat, k: nat)
    requires k <= |used| && num <= |used| && forall i :: 0 <= i < k ==> !used[i]
    ensures Counter(used, num, k) == 0
  {
    if k > 0 {
      NoneYet(used, num, k - 1);
    }
  }

  /** Without CPUs on node 0, the running number lags one node with CPUs behind. */
  lemma {:induction false} Lagging(used: seq<bool>, num: nat, u: nat, k: nat)
    requires u < k <= num <= |used| && used[u] && !used[0] && forall i :: u < i < k ==> !used[i]
    ensures Counter(used, num, k) == u
    decreases k
  {
    if u + 1 < k {
      Lagging(used, num, u, k - 1);
    } else {
      if v: nat :| v < u && used[v] {
        var w := LastUsed(used, u);
        Lagging(used, num, w, u);
        assert Advance(used, num, w + 1) == u;
      } else {
        NoneYet(used, num, u);
      }
    }
  }

  ghost function LastUsed(used: seq<bool>, k: nat): (w: nat)
    requires k <= |used| && exists v: nat :: v < k && used[v]
    ensures w < k && used[w] && forall i :: w < i < k ==> !used[i]
  {
    if used[k - 1] then k - 1 else LastUsed(used, k - 1)
  }

  /** Nodes with CPUs among the first n that are numbered `num` or higher. */
  function Late(used: seq<bool>, num: nat, n: nat): nat
    requires n <= |used|
  {
    if n <= num then 0 else Late(used, num, n - 1) + if used[n - 1] then 1 else 0
  }

  /** How many numbers from `num` on the numbering needs: one for each late node, less one if it lags. */
  function Excess(used: seq<bool>, num: nat): int
    requires used != []
  {
    Late(used, num, |used|) - if used[0] then 0 else 1
  }

  lemma {:induction false} LateGrows(used: seq<bool>, num: nat, i: nat, j: nat)
    requires i <= j <= |used|
    ensures Late(used, num, i) <= Late(used, num, j)
    ensures num <= i < j && used[i] ==> Late(used, num, i) < Late(used, num, j)
    decreases j - i
  {
    if i < j {
      LateGrows(used, num, i + 1, j);
    }
  }

  lemma {:induction false} LastLate(used: seq<bool>, num: nat, n: nat) returns (w: nat)
    requires n <= |used| && Late(used, num, n) > 0
    ensures num <= w < n && used[w] && Late(used, num, w) == Late(used, num, n) - 1
  {
    w := n - 1;
    if !used[w] {
      w := LastLate(used, num, w);
    }
  }

  /** The running number behind the online nodes: it lags until the first late node has taken it. */
  lemma {:induction false} LateNumber(used: seq<bool>, num: nat, i: nat)
    requires 0 < num <= i <= |used|
    ensures var c, l := Counter(used, num, i), Late(used, num, i);
      if used[0] then c == num + l
      else if l == 0 then c < num && Advance(used, num, c + 1) == num
      else c == num + l - 1
  {
    if i > num {
      LateNumber(used, num, i - 1);
    } else if used[0] {
      FromZero(used, num, num);
    } else if v: nat :| v < num && used[v] {
      Lagging(used, num, LastUsed(used, num), num);
    } else {
      NoneYet(used, num, num);
    }
  }

  /** How high the numbers of nodes with CPUs go. */
  lemma {:induction false} BelowIff(used: seq<bool>, num: nat, cap: nat)
    requires 0 < num <= |used| && num <= cap
    ensures (forall i :: 0 <= i < |used| && used[i] ==> Counter(used, num, i) < cap) <==> num + Excess(used, num) <= cap
  {
    if num + Excess(used, num) <= cap {
      forall i | 0 <= i < |used| && used[i]
        ensures Counter(used, num, i) < cap
      {
        NumberBelow(used, num, i);
      }
    } else {
      var w := LastLate(used, num, |used|);
      LateNumber(used, num, w);
    }
  }

  lemma {:induction false} NumberBelow(used: seq<bool>, num: nat, i: nat)
    requires 0 < num <= |used| && i < |used| && used[i]
    ensures Counter(used, num, i) < num || Counter(used, num, i) < num + Excess(used, num)
  {
    if i < num {
      LateNumber(used, num, num);
      CounterGrows(used, num, i, num);
    } else {
      LateNumber(used, num, i);
      LateGrows(used, num, i, |used|);
    }
  }

  /** The numbering is in range if and only if the nodes with CPUs are suited. */
  lemma {:induction false} InRangeIff(used: seq<bool>, num: nat)
    requires 0 < num <= |used|
    ensures InRange(used, num) <==> Suited(used, num)
  {
    BelowIff(used, num, num);
    SuitedIff(used, num);
  }

  lemma {:induction false} SuitedIff(used: seq<bool>, num: nat)
    requires 0 < num <= |used|
    ensures Suited(used, num) <==> Excess(used, num) <= 0
  {
    var n := |used|;
    if Late(used, num, n) > 0 {
      var w := LastLate(used, num, n);
      if Late(used, num, w) > 0 {
        var v := LastLate(used, num, w);
      }
    }
    if Excess(used, num) <= 0 {
      forall i, j | 0 <= i < j < n && used[i] && used[j]
        ensures i < num
      {
        LateGrows(used, num, i, j);
        LateGrows(used, num, j, n);
      }
      forall i | 0 <= i < n && used[i]
        ensures used[0] ==> i < num
      {
        LateGrows(used, num, i, n);
      }
    }
  }

  /** A node's cluster, of n nodes each, is one of the first k clusters if and only if its number is below theirs. */
  lemma {:induction false} QuotBelow(a: nat, n: nat, k: nat)
    requires n > 0
    ensures Quot(a, n) < k <==> a < k * n
  {
    var q := Quot(a, n);
    if q < k {
      Grows(q + 1, k, n);
    } else {
      Grows(k, q, n);
    }
  }

  /** The first k clusters of n nodes each have room for the late nodes too. */
  ghost predicate Room(used: seq<bool>, num: nat, n: nat, k: nat)
    requires used != []
  {
    num + Excess(used, num) <= k * n
  }

  /** Every node with CPUs is in one of the first k clusters if and only if they have room. */
  lemma {:induction false} ClustersExistIff(used: seq<bool>, num: nat, n: nat, k: nat)
    requires 0 < num <= |used| && n > 0 && ClustersOf(num, n) <= k
    ensures (forall i :: 0 <= i < |used| && used[i] ==> Quot(Counter(used, num, i), n) < k) <==> Room(used, num, n, k)
  {
    ClustersHold(num, n, k);
    BelowIff(used, num, k * n);
    forall i | 0 <= i < |used| && used[i]
      ensures Quot(Counter(used, num, i), n) < k <==> Counter(used, num, i) < k * n
    {
      QuotBelow(Counter(used, num, i), n, k);
    }
  }

  lemma {:induction false} ClustersHold(num: nat, n: nat, k: nat)
    requires n > 0 && ClustersOf(num, n) <= k
    ensures num <= k * n
  {
    var c := ClustersOf(num, n);
    OneMore(c, n);
    Grows(c, k, n);
  }

  /** The histogram shows which nodes have CPUs. */
  ghost predicate Shows(hist: seq<nat>, used: seq<bool>) {
    |hist| == |used| && forall i :: 0 <= i < |used| ==> (hist[i] > 0 <==> used[i])
  }

  /** node_hist: how many CPUs every node has. */
  method CountNodes(nodes: seq<nat>, possible: nat) returns (hist: array<nat>)
    requires forall c :: 0 <= c < |nodes| ==> nodes[c] < possible
    ensures fresh(hist) && hist.Length == possible
    ensures Shows(hist[..], UsedNodes(nodes, possible))
  {
    hist := new nat[possible](_ => 0);
    for cpu := 0 to |nodes|
      invariant forall i :: 0 <= i < possible ==> (hist[i] > 0 <==> i in nodes[..cpu])
    {
      assert nodes[..cpu + 1] == nodes[..cpu] + [nodes[cpu]];
      hist[nodes[cpu]] := hist[nodes[cpu]] + 1;
    }
    assert nodes[..|nodes|] == nodes;
  }

  /** The first n entries of node_map, as far as their nodes have CPUs. */
  ghost predicate Mapped(nodeMap: seq<nat>, used: seq<bool>, num: nat, n: nat)
    requires num <= |used| && n <= |used| == |nodeMap|
  {
    forall i :: 0 <= i < n && used[i] ==> nodeMap[i] == Counter(used, num, i)
  }

  lemma {:induction false} MappedNext(nodeMap: seq<nat>, used: seq<bool>, num: nat, n: nat, m: nat, c: nat)
    requires num <= |used| && n < m == n + 1 <= |used| == |nodeMap| && Mapped(nodeMap, used, num, n)
    requires c == Counter(used, num, n)
    ensures used[n] ==> Mapped(nodeMap[n := c], used, num, m) && Counter(used, num, m) == Advance(used, num, c + 1)
    ensures !used[n] ==> Mapped(nodeMap, used, num, m) && Counter(used, num, m) == c
  {
  }

  /** node_map.  One place behind the histogram is read; it does not matter what is there. */
  method MapNodes(hist: array<nat>, num: nat, ghost used: seq<bool>) returns (nodeMap: array<nat>)
    requires num <= hist.Length == |used| && Shows(hist[..], used)
    ensures fresh(nodeMap) && nodeMap.Length == hist.Length
    ensures Mapped(nodeMap[..], used, num, |used|)
  {
    nodeMap := new nat[hist.Length](_ => 0);
    var counter, node := 0, 0;
    while node < hist.Length
      invariant node <= hist.Length && counter == Counter(used, num, node)
      invariant Mapped(nodeMap[..], used, num, node)
    {
      var next := node + 1;
      MappedNext(nodeMap[..], used, num, node, next, counter);
      if hist[node] != 0 {
        nodeMap[node] := counter;
        counter := NextCounter(hist, counter, num, used);
      }
      node := next;
    }
  }

  method NextCounter(hist: array<nat>, counter: nat, num: nat, ghost used: seq<bool>) returns (next: nat)
    requires num <= hist.Length == |used| && Shows(hist[..], used)
    ensures next == Advance(used, num, counter + 1)
  {
    next := counter + 1;
    while true
      invariant Advance(used, num, counter + 1) == Advance(used, num, next)
      decreases num - next
    {
      var h: nat := *;
      if next < hist.Length {
        h := hist[next];
      }
      if !(h == 0 && next < num) {
        break;
      }
      next := next + 1;
    }
  }

  /** Clusters needed when every cluster takes n nodes. */
  function ClustersOf(numNodes: nat, n: nat): nat
    requires n > 0
  {
    Quot(numNodes + n - 1, n)
  }

  lemma {:induction false} ClustersEnough(numNodes: nat, n: nat, node: nat)
    requires n > 0 && node < numNodes
    ensures Quot(node, n) < ClustersOf(numNodes, n)
  {
    var k, c := Quot(node, n), ClustersOf(numNodes, n);
    if c <= k {
      Grows(c, k, n);
      OneMore(c, n);
    }
  }

  /** As few clusters as hold all nodes. */
  lemma {:induction false} ClustersExact(numNodes: nat, n: nat, k: nat)
    requires n > 0
    ensures ClustersOf(numNodes, n) <= k <==> numNodes <= k * n
  {
    var c := ClustersOf(numNodes, n);
    OneMore(c, n);
    if c <= k {
      Grows(c, k, n);
    } else {
      Grows(k + 1, c, n);
      OneMore(k, n);
    }
  }

  /** Grow the clusters until there is one queue for each: the smallest size that does. */
  method GrowClusters(numNodes: nat, r: nat) returns (perCluster: nat, count: nat)
    requires 0 < r < numNodes
    ensures perCluster > 0 && count == ClustersOf(numNodes, perCluster) && 0 < count <= r
    ensures forall n :: 0 < n < perCluster ==> ClustersOf(numNodes, n) > r
  {
    perCluster, count := 1, numNodes;
    QuotIs(numNodes, 1, numNodes);
    while count > r
      invariant 0 < perCluster <= numNodes && count == ClustersOf(numNodes, perCluster)
      invariant forall n :: 0 < n < perCluster ==> ClustersOf(numNodes, n) > r
      decreases numNodes - perCluster
    {
      if perCluster == numNodes {
        QuotBetween(numNodes + perCluster - 1, perCluster, 0, 2);
      }
      perCluster := perCluster + 1;
      count := Quot(numNodes + perCluster - 1, perCluster);
    }
    ClustersEnough(numNodes, perCluster, 0);
  }

  // ---------------------------------------------------------------- the placement

  /** The smallest cluster size that leaves a queue for every cluster, and as many queues each as there are. */
  ghost predicate BestSizes(numNodes: nat, r: nat, perCluster: nat, per: nat)
    requires numNodes > 0
  {
    && perCluster > 0 && per > 0
    && ClustersOf(numNodes, perCluster) <= r
    && (forall n :: 0 < n < perCluster ==> ClustersOf(numNodes, n) > r)
    && per == if r < numNodes then 1 else Quot(r, numNodes)
  }

  /** The cluster of a CPU: the number of its node by the cluster size. */
  ghost predicate InCluster(nodes: seq<nat>, used: seq<bool>, numNodes: nat, n: nat, cl: seq<nat>, c: nat)
    requires c < |cl| && c < |nodes| && nodes[c] < |used| && numNodes <= |used| && n > 0
  {
    cl[c] == Quot(Counter(used, numNodes, nodes[c]), n)
  }

  lemma {:induction false} NextTurn(a: nat, r: nat)
    requires r > 0
    ensures Rem(Rem(a, r) + 1, r) == Rem(a + 1, r)
  {
    NextRem(a, r);
    QuotIs(Rem(a, r) + 1, r, if Rem(a, r) + 1 < r then 0 else 1);
  }

  /** The histogram and the numbering of the nodes. */
  method NumberNodes(nodes: seq<nat>, possible: nat, num: nat) returns (nodeMap: array<nat>)
    requires 0 < num <= possible && forall c :: 0 <= c < |nodes| ==> nodes[c] < possible
    ensures fresh(nodeMap) && nodeMap.Length == possible
    ensures Mapped(nodeMap[..], UsedNodes(nodes, possible), num, possible)
  {
    var hist := CountNodes(nodes, possible);
    nodeMap := MapNodes(hist, num, UsedNodes(nodes, possible));
  }

  /** The case of enough queues. */
  method PlaceOneEach(online: seq<bool>, r: nat) returns (count: nat, queue: array<nat>)
    requires 0 < r && OnlineBefore(online, |online|) <= r
    ensures fresh(queue) && OneEach(online, queue[..], r) && count == OnlineBefore(online, |online|) <= r
  {
    queue := new nat[|online|];
    var ix := 0;
    count := 0;
    QuotIs(0, r, 0);
    for cpu := 0 to |online|
      invariant ix == Turn(online, r, cpu) && count == OnlineBefore(online, cpu)
      invariant forall c :: 0 <= c < cpu ==> queue[c] == Turn(online, r, c)
    {
      queue[cpu] := ix;
      if online[cpu] {
        NextTurn(OnlineBefore(online, cpu), r);
        ix := Rem(ix + 1, r);
        count := count + 1;
      }
    }
  }

  /** The case of too few queues, over the cluster of every CPU. */
  method PlaceInClusters(online: seq<bool>, cl: seq<nat>, per: nat) returns (queue: array<nat>)
    requires |cl| == |online| && per > 0 && forall c :: 0 <= c < |cl| ==> cl[c] < MAX_QUEUES
    ensures fresh(queue) && Clustered(online, cl, queue[..], per)
  {
    queue := new nat[|online|];
    var inCluster := new nat[MAX_QUEUES](_ => 0);
    for cpu := 0 to |online|
      invariant forall k :: 0 <= k < MAX_QUEUES ==> inCluster[k] == Having(online, cl, k, cpu)
      invariant forall c :: 0 <= c < cpu ==> queue[c] == Place(online, cl, per, c)
    {
      var cluster := cl[cpu];
      queue[cpu] := cluster * per + Rem(inCluster[cluster], per);
      if online[cpu] {
        inCluster[cluster] := inCluster[cluster] + 1;
      }
    }
    assert forall c :: 0 <= c < |online| ==> PlacedAt(online, cl, queue[..], per, c);
  }

  /** Clusters, their size in nodes, and the queues each of them has. */
  method SizeClusters(numNodes: nat, r: nat) returns (queuesPerCluster: nat, nodesPerCluster: nat, clusterCount: nat)
    requires 0 < r && 0 < numNodes
    ensures BestSizes(numNodes, r, nodesPerCluster, queuesPerCluster)
    ensures clusterCount == ClustersOf(numNodes, nodesPerCluster) <= r
    ensures clusterCount * queuesPerCluster <= r
  {
    queuesPerCluster, nodesPerCluster, clusterCount := 1, 1, numNodes;
    if r < numNodes {
      nodesPerCluster, clusterCount := GrowClusters(numNodes, r);
    } else {
      queuesPerCluster := Quot(r, numNodes);
      QuotBetween(r, numNodes, 1, r + 1);
      QuotIs(numNodes, 1, numNodes);
    }
  }

  method CountOnline(online: seq<bool>) returns (n: nat)
    ensures n == OnlineBefore(online, |online|)
  {
    n := 0;
    for cpu := 0 to |online|
      invariant n == OnlineBefore(online, cpu)
    {
      if online[cpu] {
        n := n + 1;
      }
    }
  }

  /** Every queue is among the first k clusters' if and only if every cluster is among the first k. */
  lemma {:induction false} QueuesBelowIff(online: seq<bool>, cl: seq<nat>, queue: seq<nat>, per: nat, k: nat)
    requires Clustered(online, cl, queue, per)
    ensures (forall c :: 0 <= c < |queue| ==> queue[c] < k * per) <==> forall c :: 0 <= c < |cl| ==> cl[c] < k
  {
    forall c | 0 <= c < |queue|
      ensures queue[c] < k * per <==> cl[c] < k
    {
      assert PlacedAt(online, cl, queue, per, c);
      OneMore(cl[c], per);
      if cl[c] < k {
        Grows(cl[c] + 1, k, per);
      } else {
        Grows(k, cl[c], per);
      }
    }
  }

  /** The clusters of all CPUs. */
  ghost predicate InClusters(nodes: seq<nat>, used: seq<bool>, num: nat, n: nat, cl: seq<nat>)
    requires num <= |used| && n > 0 && |cl| == |nodes| && forall c :: 0 <= c < |nodes| ==> nodes[c] < |used|
  {
    forall c :: 0 <= c < |cl| ==> InCluster(nodes, used, num, n, cl, c)
  }

  /** All CPUs are in the first k clusters if and only if these have room. */
  lemma {:induction false} ClustersBelowIff(nodes: seq<nat>, possible: nat, num: nat, n: nat, cl: seq<nat>, k: nat)
    requires 0 < num <= possible && n > 0 && |cl| == |nodes| && ClustersOf(num, n) <= k
    requires forall c :: 0 <= c < |nodes| ==> nodes[c] < possible
    requires InClusters(nodes, UsedNodes(nodes, possible), num, n, cl)
    ensures (forall c :: 0 <= c < |cl| ==> cl[c] < k) <==> Room(UsedNodes(nodes, possible), num, n, k)
  {
    var used := UsedNodes(nodes, possible);
    ClustersExistIff(used, num, n, k);
    if forall c :: 0 <= c < |cl| ==> cl[c] < k {
      forall i | 0 <= i < |used| && used[i]
        ensures Quot(Counter(used, num, i), n) < k
      {
        var c :| 0 <= c < |nodes| && nodes[c] == i;
        assert InCluster(nodes, used, num, n, cl, c);
      }
    }
    if Room(used, num, n, k) {
      forall c | 0 <= c < |cl|
        ensures cl[c] < k
      {
        assert InCluster(nodes, used, num, n, cl, c) && used[nodes[c]];
      }
    }
  }

  /** What the code asserts when there are too few queues: cluster numbers are below the length of its table. */
  ghost predicate TableHolds(used: seq<bool>, num: nat, r: nat)
    requires 0 < num && used != []
  {
    forall n, per :: BestSizes(num, r, n, per) ==> Room(used, num, n, MAX_QUEUES)
  }

  lemma {:induction false} SmallTable(used: seq<bool>, num: nat, r: nat)
    requires 0 < num && used != [] && num + Excess(used, num) <= MAX_QUEUES
    ensures TableHolds(used, num, r)
  {
    forall n, per | BestSizes(num, r, n, per)
      ensures Room(used, num, n, MAX_QUEUES)
    {
      Grows(1, n, MAX_QUEUES);
    }
  }

  lemma {:induction false} OneLate(used: seq<bool>, num: nat, w: nat)
    requires num <= w < |used| && used[0] && used[w] && forall i :: num <= i < |used| && used[i] ==> i == w
    ensures Excess(used, num) == 1 && !Suited(used, num)
  {
    LateGrows(used, num, w, |used|);
    var v := LastLate(used, num, |used|);
    if Late(used, num, v) > 0 {
      var u := LastLate(used, num, v);
    }
  }

  lemma {:induction false} OneNodeEach(num: nat, n: nat, a: nat)
    requires n == 1
    ensures ClustersOf(num, n) == num && Quot(a, n) == a
  {
    QuotIs(num, n, num);
    QuotIs(a, n, a);
  }

  /** Nodes 0 and 2 of two online nodes, two queues: node 2 is given number 2, a cluster of its own with no queue. */
  lemma {:induction false} GapRunsOver(used: seq<bool>, num: nat, n: nat)
    requires used == [true, false, true] && num == 2 && n == 1
    ensures Counter(used, num, num) == num && ClustersOf(num, n) == num == Quot(num, n)
  {
    FromZero(used, num, num);
    OneNodeEach(num, n, num);
  }

  /** There is no room for it, and what the code asserts does not notice. */
  lemma {:induction false} GapUnnoticed(used: seq<bool>, num: nat, n: nat)
    requires used == [true, false, true] && num == 2 && n == 1
    ensures TableHolds(used, num, num) && !Room(used, num, n, num)
  {
    OneLate(used, num, 2);
    SmallTable(used, num, num);
  }

  /** Nodes 0, 1 and 3 of three online nodes, two queues: node 3 is numbered too high, and still has a queue. */
  lemma {:induction false} GapHasRoom(used: seq<bool>, num: nat, r: nat, n: nat)
    requires used == [true, true, false, true] && num == 3 && r == n == 2
    ensures !Suited(used, num) && Room(used, num, n, r)
  {
    OneLate(used, num, 3);
  }

  /** In that case there are two clusters of two nodes. */
  lemma {:induction false} TwoClusters(num: nat, r: nat, n: nat)
    requires num == 3 && r == n == 2
    ensures ClustersOf(num, n) == r
  {
    QuotIs(num + n - 1, n, r);
  }

  /**
   kfio_map_cpus_to_read_queues, when no CPU goes on- or offline meanwhile.  With too few queues every
   CPU gets a queue that there is exactly when the clusters have room for the nodes that are numbered too high.
   */
  method MapCpus(nodes: seq<nat>, online: seq<bool>, numNodes: nat, possible: nat, r: nat)
    returns (count: nat, queue: array<nat>, ghost cl: seq<nat>, ghost per: nat, ghost perCluster: nat)
    requires |nodes| == |online| && 0 < r <= MAX_QUEUES && 0 < numNodes <= possible
    requires forall c :: 0 <= c < |nodes| ==> nodes[c] < possible
    requires OnlineBefore(online, |online|) > r ==> TableHolds(UsedNodes(nodes, possible), numNodes, r)
    ensures queue.Length == |nodes| && count <= r
    ensures OnlineBefore(online, |online|) <= r ==>
              OneEach(online, queue[..], r) && count == OnlineBefore(online, |online|)
    ensures OnlineBefore(online, |online|) > r ==>
              && BestSizes(numNodes, r, perCluster, per) && count == ClustersOf(numNodes, perCluster) * per
              && Clustered(online, cl, queue[..], per)
              && InClusters(nodes, UsedNodes(nodes, possible), numNodes, perCluster, cl)
    ensures OnlineBefore(online, |online|) > r >= numNodes ==> perCluster == 1 && count <= r < count + numNodes
    ensures OnlineBefore(online, |online|) > r ==>
              ((forall c :: 0 <= c < |nodes| ==> queue[c] < count)
               <==> Room(UsedNodes(nodes, possible), numNodes, perCluster, ClustersOf(numNodes, perCluster)))
  {
    var nodeMap := NumberNodes(nodes, possible, numNodes);
    var cpus := CountOnline(online);
    cl, per, perCluster := [], 1, 1;
    if r >= cpus {
      count, queue := PlaceOneEach(online, r);
      return;
    }
    var queuesPerCluster, nodesPerCluster, clusterCount := SizeClusters(numNodes, r);
    var clusters := ClusterOfCpus(nodes, nodeMap, nodesPerCluster, numNodes, UsedNodes(nodes, possible));
    ClustersBelowIff(nodes, possible, numNodes, nodesPerCluster, clusters, MAX_QUEUES);
    queue := PlaceInClusters(online, clusters, queuesPerCluster);
    count := clusterCount * queuesPerCluster;
    cl, per, perCluster := clusters, queuesPerCluster, nodesPerCluster;
    ClustersBelowIff(nodes, possible, numNodes, perCluster, cl, clusterCount);
    QueuesBelowIff(online, cl, queue[..], per, clusterCount);
    if r >= numNodes {
      FewUnused(numNodes, r, perCluster, per);
    }
  }

  /** With a queue for every node, clusters are nodes, and less than one queue for each is left over. */
  lemma {:induction false} FewUnused(num: nat, r: nat, n: nat, per: nat)
    requires 0 < num <= r && BestSizes(num, r, n, per)
    ensures n == 1 && ClustersOf(num, n) == num && r < num * per + num
  {
    var one := 1;
    OneNodeEach(num, one, num);
    assert n == one;
    Commute(num, per);
  }

  lemma {:induction false} Commute(a: nat, b: nat)
    ensures a * b + a == (b + 1) * a
  {
  }

  /** node_map[node] / nodes_per_cluster for every CPU. */
  method ClusterOfCpus(nodes: seq<nat>, nodeMap: array<nat>, n: nat, ghost num: nat, ghost used: seq<bool>)
    returns (cl: seq<nat>)
    requires n > 0 && num <= |used| == nodeMap.Length && Mapped(nodeMap[..], used, num, |used|)
    requires forall c :: 0 <= c < |nodes| ==> nodes[c] < |used| && used[nodes[c]]
    ensures |cl| == |nodes| && InClusters(nodes, used, num, n, cl)
  {
    cl := [];
    for cpu := 0 to |nodes|
      invariant |cl| == cpu
      invariant forall c :: 0 <= c < cpu ==> cl[c] == Quot(Counter(used, num, nodes[c]), n)
    {
      assert nodeMap[nodes[cpu]] == nodeMap[..][nodes[cpu]] == Counter(used, num, nodes[cpu]);
      cl := cl + [Quot(nodeMap[nodes[cpu]], n)];
    }
  }
}
