/** The multi-threaded tree build of src/tree-parallel.ts and src/tree-worker.ts. */
module ParallelTree {
  import opened Bytes
  import opened Rfc6962
  import opened Sorting

  /** A range of leaves, `hi` excluded. */
  datatype Block = Block(lo: nat, hi: nat)

  function Size(b: Block): int {
    b.hi - b.lo
  }

  // ------------------------------------------------------------------ the blocks

  /** The nodes of the tree's own split over [lo, hi) that hold at most `cap` leaves. */
  function Blocks(lo: nat, hi: nat, cap: nat): seq<Block>
    requires lo < hi && cap >= 1
    decreases hi - lo
  {
    if hi - lo <= cap then [Block(lo, hi)] else
      var k := Split(hi - lo);
      Blocks(lo, lo + k, cap) + Blocks(lo + k, hi, cap)
  }

  lemma BlocksSplit(lo: nat, hi: nat, cap: nat)
    requires lo < hi && cap >= 1 && hi - lo > cap
    ensures var k := Split(hi - lo); Blocks(lo, hi, cap) == Blocks(lo, lo + k, cap) + Blocks(lo + k, hi, cap)
  {
  }

  class BlockList {
    var blocks: seq<Block>

    constructor ()
      ensures blocks == []
    {
      blocks := [];
    }

    method Walk(lo: nat, hi: nat, cap: nat)
      requires lo < hi && cap >= 1
      modifies this
      ensures blocks == old(blocks) + Blocks(lo, hi, cap)
      decreases hi - lo
    {
      if hi - lo <= cap {
        blocks := blocks + [Block(lo, hi)];
        return;
      }
      var k := ComputeSplit(hi - lo);
      ghost var before, left, right := blocks, Blocks(lo, lo + k, cap), Blocks(lo + k, hi, cap);
      BlocksSplit(lo, hi, cap);
      hide Split, Blocks;
      Walk(lo, lo + k, cap);
      Walk(lo + k, hi, cap);
      assert (before + left) + right == before + (left + right);
    }
  }

  /** Consecutive non-empty ranges from `lo` to `hi`. */
  ghost predicate Tiles(bs: seq<Block>, lo: nat, hi: nat) {
    && bs != [] && bs[0].lo == lo && Last(bs).hi == hi
    && (forall j :: 0 <= j < |bs| ==> bs[j].lo < bs[j].hi)
    && (forall j {:trigger bs[j].hi} :: 0 <= j < |bs| - 1 ==> bs[j].hi == bs[j + 1].lo)
  }

  /** A node of the tree over [lo, hi). */
  ghost predicate IsNode(b: Block, lo: nat, hi: nat)
    requires lo < hi
    decreases hi - lo
  {
    b == Block(lo, hi) ||
    (hi - lo >= 2 && var k := Split(hi - lo); IsNode(b, lo, lo + k) || IsNode(b, lo + k, hi))
  }

  lemma {:induction false} BlocksTile(lo: nat, hi: nat, cap: nat)
    requires lo < hi && cap >= 1
    ensures Tiles(Blocks(lo, hi, cap), lo, hi)
    ensures forall b :: b in Blocks(lo, hi, cap) ==> Size(b) <= cap && IsNode(b, lo, hi)
    decreases hi - lo
  {
    hide Split, Tiles, IsNode;
    if hi - lo > cap {
      var k := Split(hi - lo);
      var left, right := Blocks(lo, lo + k, cap), Blocks(lo + k, hi, cap);
      BlocksTile(lo, lo + k, cap);
      BlocksTile(lo + k, hi, cap);
      TilesJoin(left, right, lo, lo + k, hi);
      forall b | b in left + right ensures IsNode(b, lo, hi) {
        NodeOfHalf(b, lo, hi);
      }
    } else {
      OneTile(lo, hi);
    }
  }

  lemma TilesJoin(a: seq<Block>, b: seq<Block>, lo: nat, mid: nat, hi: nat)
    requires Tiles(a, lo, mid) && Tiles(b, mid, hi)
    ensures Tiles(a + b, lo, hi)
  {
    var all := a + b;
    assert Last(all) == Last(b);
    forall j {:trigger all[j].hi} | 0 <= j < |all| - 1 ensures all[j].hi == all[j + 1].lo {
      if j == |a| - 1 {
        assert all[j] == Last(a) && all[j + 1] == b[0];
      } else if j < |a| {
        assert all[j] == a[j] && all[j + 1] == a[j + 1];
      } else {
        assert all[j] == b[j - |a|] && all[j + 1] == b[j - |a| + 1];
      }
    }
  }

  lemma NodeOfHalf(b: Block, lo: nat, hi: nat)
    requires hi - lo >= 2
    requires var k := Split(hi - lo); IsNode(b, lo, lo + k) || IsNode(b, lo + k, hi)
    ensures IsNode(b, lo, hi)
  {
    hide Split;
  }

  lemma OneTile(lo: nat, hi: nat)
    requires lo < hi
    ensures Tiles([Block(lo, hi)], lo, hi) && IsNode(Block(lo, hi), lo, hi)
  {
    hide Split;
  }

  /** Every leaf lies in exactly one of the tiles. */
  lemma {:induction false} TileOf(bs: seq<Block>, lo: nat, hi: nat, p: nat) returns (j: nat)
    requires Tiles(bs, lo, hi) && lo <= p < hi
    ensures j < |bs| && bs[j].lo <= p < bs[j].hi
    ensures forall m :: 0 <= m < |bs| && bs[m].lo <= p < bs[m].hi ==> m == j
    decreases |bs|
  {
    if p < bs[0].hi {
      j := 0;
      forall m | 0 <= m < |bs| && bs[m].lo <= p < bs[m].hi ensures m == j {
        if m > 0 {
          TilesAscend(bs, lo, hi, m);
        }
      }
    } else {
      assert Last(bs).hi == hi;
      assert bs[0].hi == bs[1].lo;
      var j' := TileOf(bs[1..], bs[1].lo, hi, p);
      j := j' + 1;
      forall m | 0 <= m < |bs| && bs[m].lo <= p < bs[m].hi ensures m == j {
        assert m > 0 && bs[m] == bs[1..][m - 1];
      }
    }
  }

  lemma {:induction false} TilesAscend(bs: seq<Block>, lo: nat, hi: nat, m: nat)
    requires Tiles(bs, lo, hi) && 0 < m < |bs|
    ensures bs[0].hi <= bs[m].lo
    decreases m
  {
    assert bs[m - 1].hi == bs[m].lo;
    if m > 1 {
      TilesAscend(bs, lo, hi, m - 1);
    }
  }

  // ------------------------------------------------------------------ the shares

  function Sum(s: seq<int>): int {
    if s == [] then 0 else Sum(Init(s)) + Last(s)
  }

  function TotalSize(bs: seq<Block>): int {
    if bs == [] then 0 else TotalSize(Init(bs)) + Size(Last(bs))
  }

  /** The shares' blocks, all together. */
  ghost function Pooled(shares: seq<seq<Block>>): multiset<Block> {
    if shares == [] then multiset{} else Pooled(Init(shares)) + multiset(Last(shares))
  }

  lemma {:induction false} SumUpdate(s: seq<int>, w: nat, d: int)
    requires w < |s|
    ensures Sum(s[w := s[w] + d]) == Sum(s) + d
    decreases |s|
  {
    var t := s[w := s[w] + d];
    if w == |s| - 1 {
      assert Init(t) == Init(s);
    } else {
      SumUpdate(Init(s), w, d);
      assert Init(t) == Init(s)[w := s[w] + d];
    }
  }

  lemma {:induction false} PooledUpdate(shares: seq<seq<Block>>, w: nat, b: Block)
    requires w < |shares|
    ensures Pooled(shares[w := shares[w] + [b]]) == Pooled(shares) + multiset{b}
    decreases |shares|
  {
    var t := shares[w := shares[w] + [b]];
    if w == |shares| - 1 {
      assert Init(t) == Init(shares);
    } else {
      PooledUpdate(Init(shares), w, b);
      assert Init(t) == Init(shares)[w := shares[w] + [b]];
    }
  }

  lemma {:induction false} SumAtLeast(s: seq<int>, m: int)
    requires forall i :: 0 <= i < |s| ==> s[i] >= m
    ensures Sum(s) >= |s| * m
    decreases |s|
  {
    if s != [] {
      SumAtLeast(Init(s), m);
      assert |s| * m == |Init(s)| * m + m;
    }
  }

  lemma {:induction false} NothingYet(n: nat)
    ensures Sum(seq(n, _ => 0)) == 0 && Pooled(seq(n, _ => [])) == multiset{}
  {
    if n > 0 {
      NothingYet(n - 1);
      assert Init(seq(n, _ => 0)) == seq(n - 1, _ => 0);
      assert Init(seq<seq<Block>>(n, _ => [])) == seq<seq<Block>>(n - 1, _ => []);
    }
  }

  /** The worker with the least load so far, the first such worker on a tie. */
  method LeastLoaded(load: seq<int>) returns (w: nat)
    requires load != []
    ensures w < |load|
    ensures forall m :: 0 <= m < |load| ==> load[w] <= load[m]
    ensures forall m :: 0 <= m < w ==> load[w] < load[m]
  {
    w := 0;
    for i := 1 to |load|
      invariant 0 <= w < i
      invariant forall m :: 0 <= m < i ==> load[w] <= load[m]
      invariant forall m :: 0 <= m < w ==> load[w] < load[m]
    {
      if load[i] < load[w] {
        w := i;
      }
    }
  }

  /** No worker carries more than the mean and a part of one block. */
  ghost predicate Balanced(load: seq<int>, total: int, cap: nat) {
    forall w :: 0 <= w < |load| ==> Within(load[w], |load|, total, cap)
  }

  ghost predicate Within(mine: int, cores: nat, total: int, cap: nat) {
    cores * mine <= total + (cores - 1) * cap
  }

  lemma LeastTakesMore(load: seq<int>, w: nat, size: nat, cap: nat)
    requires w < |load| && size <= cap
    requires forall m :: 0 <= m < |load| ==> load[w] <= load[m]
    ensures Within(load[w] + size, |load|, Sum(load) + size, cap)
  {
    SumAtLeast(load, load[w]);
    MeanAndPart(|load|, load[w], size, Sum(load), cap);
  }

  lemma MulMono(a: nat, b: nat, c: nat)
    requires b <= c
    ensures a * b <= a * c
  {
  }

  lemma MeanAndPart(c: nat, m: int, size: nat, sum: int, cap: nat)
    requires c >= 1 && c * m <= sum && size <= cap
    ensures c * (m + size) <= sum + size + (c - 1) * cap
  {
    calc {
      c * (m + size);
      c * m + c * size;
      c * m + (size + (c - 1) * size);
    <= { MulMono(c - 1, size, cap); }
      c * m + (size + (c - 1) * cap);
    }
  }

  /** Each block goes to the least loaded worker: every block to exactly one, and the loads stay balanced. */
  method Assign(order: seq<Block>, cores: nat, cap: nat) returns (shares: seq<seq<Block>>, load: seq<int>)
    requires cores >= 1
    requires forall b :: b in order ==> 0 <= Size(b) <= cap
    ensures |shares| == |load| == cores
    ensures Pooled(shares) == multiset(order)
    ensures forall w :: 0 <= w < cores ==> load[w] == TotalSize(shares[w])
    ensures Sum(load) == TotalSize(order)
    ensures Balanced(load, TotalSize(order), cap)
  {
    hide Sum, Pooled, TotalSize, Balanced;
    shares, load := seq(cores, _ => []), seq(cores, _ => 0);
    NoneAssigned(cores, cap);
    for j := 0 to |order|
      invariant Assigned(shares, load, order[..j], cores, cap)
    {
      var b := order[j];
      var w := LeastLoaded(load);
      AssignNext(shares, load, order[..j], cores, cap, w, b);
      assert order[..j + 1] == order[..j] + [b];
      shares := shares[w := shares[w] + [b]];
      load := load[w := load[w] + Size(b)];
    }
    assert order[..|order|] == order;
  }

  lemma NoneAssigned(cores: nat, cap: nat)
    requires cores >= 1
    ensures Assigned(seq(cores, _ => []), seq(cores, _ => 0), [], cores, cap)
  {
    NothingYet(cores);
  }

  ghost predicate Assigned(shares: seq<seq<Block>>, load: seq<int>, done: seq<Block>, cores: nat, cap: nat) {
    && |shares| == |load| == cores
    && Pooled(shares) == multiset(done)
    && (forall w :: 0 <= w < cores ==> load[w] == TotalSize(shares[w]))
    && Sum(load) == TotalSize(done)
    && Balanced(load, Sum(load), cap)
  }

  lemma TotalSizeSnoc(bs: seq<Block>, b: Block)
    ensures TotalSize(bs + [b]) == TotalSize(bs) + Size(b)
  {
    Snoc(bs, b);
  }

  lemma AssignNext(shares: seq<seq<Block>>, load: seq<int>, done: seq<Block>, cores: nat, cap: nat, w: nat, b: Block)
    requires Assigned(shares, load, done, cores, cap) && w < cores && 0 <= Size(b) <= cap
    requires forall m :: 0 <= m < |load| ==> load[w] <= load[m]
    ensures Assigned(shares[w := shares[w] + [b]], load[w := load[w] + Size(b)], done + [b], cores, cap)
  {
    hide Sum, Pooled, TotalSize;
    TotalSizeSnoc(done, b);
    TotalSizeSnoc(shares[w], b);
    SumUpdate(load, w, Size(b));
    PooledUpdate(shares, w, b);
    LeastTakesMore(load, w, Size(b), cap);
    var load' := load[w := load[w] + Size(b)];
    forall m | 0 <= m < cores ensures Within(load'[m], cores, Sum(load'), cap) {
      assert Within(load[m], cores, Sum(load), cap);
    }
  }

  // ----------------------------------------------------------------- the workers

  /** A block's subtree root, as a worker reports it. */
  datatype Root<D> = Root(lo: nat, hi: nat, hash: D)

  /** One worker: its share, the block it is in, the next leaf of that block, and the roots it has. */
  datatype Worker<D> = Worker(share: seq<Block>, b: nat, i: nat, roots: seq<Root<D>>) {
    predicate Done() {
      b >= |share|
    }
  }

  /** The shared output and the workers writing it. */
  datatype Pool<D> = Pool(out: seq<D>, workers: seq<Worker<D>>)

  /** The recursion of a worker over the shared output. */
  function Subtree<D>(node: (D, D) -> D, out: seq<D>, lo: nat, hi: nat): D
    requires lo < hi <= |out|
    decreases hi - lo
  {
    if hi - lo == 1 then out[lo] else
      var k := Split(hi - lo);
      node(Subtree(node, out, lo, lo + k), Subtree(node, out, lo + k, hi))
  }

  lemma SliceSplit<D>(s: seq<D>, lo: nat, k: nat, hi: nat)
    requires lo + k <= hi <= |s|
    ensures s[lo..hi][..k] == s[lo..lo + k] && s[lo..hi][k..] == s[lo + k..hi]
  {
  }

  lemma {:induction false} SubtreeIsMth<D>(node: (D, D) -> D, out: seq<D>, lo: nat, hi: nat)
    requires lo < hi <= |out|
    ensures Subtree(node, out, lo, hi) == Mth(node, out[lo..hi])
    decreases hi - lo
  {
    hide Split, Mth;
    if hi - lo == 1 {
      MthOfOne(node, out[lo..hi]);
    } else {
      var k := Split(hi - lo);
      SubtreeIsMth(node, out, lo, lo + k);
      SubtreeIsMth(node, out, lo + k, hi);
      SliceSplit(out, lo, k, hi);
      MthSplits(node, out[lo..hi]);
    }
  }

  function Begin<D>(k: Worker<D>): Worker<D> {
    if k.b < |k.share| then k.(i := k.share[k.b].lo) else k
  }

  function Hashes<L, D>(leafHash: L -> D, leaves: seq<L>): (hs: seq<D>)
    ensures |hs| == |leaves| && forall i :: 0 <= i < |leaves| ==> hs[i] == leafHash(leaves[i])
  {
    seq(|leaves|, i requires 0 <= i < |leaves| => leafHash(leaves[i]))
  }

  ghost predicate Ranges(share: seq<Block>, n: nat) {
    forall m :: 0 <= m < |share| ==> share[m].lo < share[m].hi <= n
  }

  ghost predicate Placed<D>(k: Worker<D>, n: nat) {
    && Ranges(k.share, n)
    && k.b <= |k.share|
    && (k.b < |k.share| ==> k.share[k.b].lo <= k.i <= k.share[k.b].hi)
  }

  /** Leaf `p` of the worker's share is one it has already written. */
  ghost predicate Past<D>(k: Worker<D>, p: nat) {
    exists m :: 0 <= m < |k.share| && k.share[m].lo <= p < k.share[m].hi && (m < k.b || (m == k.b && p < k.i))
  }

  ghost predicate HasRoot<D>(roots: seq<Root<D>>, b: Block) {
    exists r :: r in roots && r.lo == b.lo && r.hi == b.hi
  }

  ghost predicate RootsOk<D>(node: (D, D) -> D, hs: seq<D>, k: Worker<D>) {
    && (forall r :: r in k.roots ==> r.lo < r.hi <= |hs| && r.hash == Mth(node, hs[r.lo..r.hi]))
    && (forall m :: 0 <= m < k.b <= |k.share| && Size(k.share[m]) >= 2 ==> HasRoot(k.roots, k.share[m]))
  }

  ghost predicate WorkerOk<D>(node: (D, D) -> D, hs: seq<D>, out: seq<D>, k: Worker<D>)
    requires |out| == |hs|
  {
    && Placed(k, |hs|)
    && (forall p :: 0 <= p < |hs| && Past(k, p) ==> out[p] == hs[p])
    && RootsOk(node, hs, k)
  }

  ghost predicate PoolOk<D>(node: (D, D) -> D, hs: seq<D>, shares: seq<seq<Block>>, pool: Pool<D>) {
    && |pool.out| == |hs| && |pool.workers| == |shares|
    && forall w :: 0 <= w < |shares| ==>
         pool.workers[w].share == shares[w] && WorkerOk(node, hs, pool.out, pool.workers[w])
  }

  lemma WriteKeepsOther<D>(node: (D, D) -> D, hs: seq<D>, out: seq<D>, k: Worker<D>, p: nat)
    requires |out| == |hs| && p < |hs| && WorkerOk(node, hs, out, k)
    ensures WorkerOk(node, hs, out[p := hs[p]], k)
  {
  }

  lemma WriteKeepsMine<D>(node: (D, D) -> D, hs: seq<D>, out: seq<D>, k: Worker<D>)
    requires |out| == |hs| && WorkerOk(node, hs, out, k) && k.b < |k.share| && k.i < k.share[k.b].hi
    ensures WorkerOk(node, hs, out[k.i := hs[k.i]], k.(i := k.i + 1))
  {
    var k' := k.(i := k.i + 1);
    forall p | 0 <= p < |hs| && Past(k', p) ensures p == k.i || Past(k, p) {
      var m :| 0 <= m < |k.share| && k.share[m].lo <= p < k.share[m].hi && (m < k.b || (m == k.b && p < k.i + 1));
    }
  }

  /** The worker after it has finished the block it is in. */
  function NextBlock<D>(node: (D, D) -> D, out: seq<D>, k: Worker<D>): Worker<D>
    requires k.b < |k.share| && k.share[k.b].lo < k.share[k.b].hi <= |out|
  {
    var b := k.share[k.b];
    var roots := if Size(b) >= 2 then k.roots + [Root(b.lo, b.hi, Subtree(node, out, b.lo, b.hi))] else k.roots;
    Begin(Worker(k.share, k.b + 1, 0, roots))
  }

  lemma FinishKeepsRoots<D>(node: (D, D) -> D, hs: seq<D>, out: seq<D>, k: Worker<D>)
    requires |out| == |hs| && WorkerOk(node, hs, out, k) && k.b < |k.share| && k.i == k.share[k.b].hi
    ensures RootsOk(node, hs, NextBlock(node, out, k))
  {
    var b := k.share[k.b];
    forall p | b.lo <= p < b.hi ensures out[p] == hs[p] {
      assert Past(k, p);
    }
    assert out[b.lo..b.hi] == hs[b.lo..b.hi];
    SubtreeIsMth(node, out, b.lo, b.hi);
    var k' := NextBlock(node, out, k);
    forall m | 0 <= m < k'.b && Size(k'.share[m]) >= 2 ensures HasRoot(k'.roots, k'.share[m]) {
      if m < k.b {
        assert HasRoot(k.roots, k.share[m]);
        var r :| r in k.roots && r.lo == k.share[m].lo && r.hi == k.share[m].hi;
        assert r in k'.roots;
      } else {
        assert Last(k'.roots) in k'.roots;
      }
    }
  }

  lemma FinishKeepsWorker<D>(node: (D, D) -> D, hs: seq<D>, out: seq<D>, k: Worker<D>)
    requires |out| == |hs| && WorkerOk(node, hs, out, k) && k.b < |k.share| && k.i == k.share[k.b].hi
    ensures WorkerOk(node, hs, out, NextBlock(node, out, k))
  {
    FinishKeepsRoots(node, hs, out, k);
    var k' := NextBlock(node, out, k);
    forall p | 0 <= p < |hs| && Past(k', p) ensures Past(k, p) {
      var m :| 0 <= m < |k.share| && k.share[m].lo <= p < k.share[m].hi && (m < k'.b || (m == k'.b && p < k'.i));
      assert m <= k.b;
    }
  }

  /** One step of one worker: the next leaf hash written, or the block's root pushed and the next block begun. */
  function Step<L, D>(leafHash: L -> D, node: (D, D) -> D, leaves: seq<L>, pool: Pool<D>, w: nat): Pool<D>
    requires w < |pool.workers| && !pool.workers[w].Done()
    requires |pool.out| == |leaves| && Placed(pool.workers[w], |leaves|)
  {
    var k := pool.workers[w];
    if k.i < k.share[k.b].hi then
      Pool(pool.out[k.i := leafHash(leaves[k.i])], pool.workers[w := k.(i := k.i + 1)])
    else
      Pool(pool.out, pool.workers[w := NextBlock(node, pool.out, k)])
  }

  /** Whichever worker moves next, nothing any worker has already done is spoilt. */
  lemma StepKeepsPool<L, D>(leafHash: L -> D, node: (D, D) -> D, leaves: seq<L>, shares: seq<seq<Block>>, pool: Pool<D>,
      w: nat)
    requires PoolOk(node, Hashes(leafHash, leaves), shares, pool)
    requires w < |shares| && !pool.workers[w].Done()
    ensures PoolOk(node, Hashes(leafHash, leaves), shares, Step(leafHash, node, leaves, pool, w))
  {
    var hs := Hashes(leafHash, leaves);
    var next := Step(leafHash, node, leaves, pool, w);
    var k := pool.workers[w];
    forall v | 0 <= v < |shares|
      ensures next.workers[v].share == shares[v] && WorkerOk(node, hs, next.out, next.workers[v])
    {
      if k.i == k.share[k.b].hi {
        if v == w {
          FinishKeepsWorker(node, hs, pool.out, k);
        }
      } else if v == w {
        WriteKeepsMine(node, hs, pool.out, k);
      } else {
        WriteKeepsOther(node, hs, pool.out, pool.workers[v], k.i);
      }
    }
  }

  /** The steps a worker has left. */
  ghost function Left<D>(k: Worker<D>, n: nat): nat
    requires Placed(k, n)
  {
    if k.Done() then 0 else k.share[k.b].hi - k.i + 1 + StepsOf(k.share[k.b + 1..], n)
  }

  ghost function StepsOf(share: seq<Block>, n: nat): nat
    requires Ranges(share, n)
  {
    if share == [] then 0 else share[0].hi - share[0].lo + 1 + StepsOf(share[1..], n)
  }

  ghost predicate AllPlaced<D>(ks: seq<Worker<D>>, n: nat) {
    forall w :: 0 <= w < |ks| ==> Placed(ks[w], n)
  }

  ghost function PoolLeft<D>(ks: seq<Worker<D>>, n: nat): nat
    requires AllPlaced(ks, n)
  {
    if ks == [] then 0 else PoolLeft(Init(ks), n) + Left(Last(ks), n)
  }

  lemma {:induction false} PoolLeftDrops<D>(ks: seq<Worker<D>>, n: nat, w: nat, k': Worker<D>)
    requires AllPlaced(ks, n) && Placed(k', n)
    requires w < |ks| && Left(k', n) < Left(ks[w], n)
    ensures AllPlaced(ks[w := k'], n) && PoolLeft(ks[w := k'], n) < PoolLeft(ks, n)
    decreases |ks|
  {
    var ks' := ks[w := k'];
    hide Left, Placed;
    if w == |ks| - 1 {
      assert Init(ks') == Init(ks);
    } else {
      PoolLeftDrops(Init(ks), n, w, k');
      assert Init(ks') == Init(ks)[w := k'];
    }
  }

  lemma StepLeft<L, D>(leafHash: L -> D, node: (D, D) -> D, leaves: seq<L>, pool: Pool<D>, w: nat)
    requires |pool.out| == |leaves| && AllPlaced(pool.workers, |leaves|)
    requires w < |pool.workers| && !pool.workers[w].Done()
    ensures var next := Step(leafHash, node, leaves, pool, w);
            AllPlaced(next.workers, |leaves|) && PoolLeft(next.workers, |leaves|) < PoolLeft(pool.workers, |leaves|)
  {
    var n := |leaves|;
    var k, k' := pool.workers[w], Step(leafHash, node, leaves, pool, w).workers[w];
    if k.i == k.share[k.b].hi && k.b + 1 < |k.share| {
      assert k.share[k.b + 1..][1..] == k.share[k.b + 2..];
    }
    PoolLeftDrops(pool.workers, n, w, k');
  }

  // -------------------------------------------------------------------- the join

  /** The root over [lo, hi) from the leaf hashes, taking a reported subtree root wherever there is one. */
  function JoinKnown<D>(node: (D, D) -> D, known: seq<Root<D>>, hs: seq<D>, lo: nat, hi: nat): D
    requires lo < hi <= |hs|
    decreases hi - lo
  {
    match Find(known, lo, hi)
    case Some(h) => h
    case None =>
      if hi - lo == 1 then hs[lo] else
        var k := Split(hi - lo);
        node(JoinKnown(node, known, hs, lo, lo + k), JoinKnown(node, known, hs, lo + k, hi))
  }

  function Find<D>(known: seq<Root<D>>, lo: nat, hi: nat): (h: Option<D>)
    ensures h.Some? ==> Root(lo, hi, h.value) in known
    ensures h.None? ==> forall r :: r in known ==> r.lo != lo || r.hi != hi
  {
    if known == [] then None
    else if known[0].lo == lo && known[0].hi == hi then assert known[0] in known; Some(known[0].hash)
    else
      assert known == [known[0]] + known[1..];
      Find(known[1..], lo, hi)
  }

  lemma {:induction false} JoinIsMth<D>(node: (D, D) -> D, known: seq<Root<D>>, hs: seq<D>, lo: nat, hi: nat)
    requires lo < hi <= |hs|
    requires forall r :: r in known ==> r.lo < r.hi <= |hs| && r.hash == Mth(node, hs[r.lo..r.hi])
    ensures JoinKnown(node, known, hs, lo, hi) == Mth(node, hs[lo..hi])
    decreases hi - lo
  {
    hide Split, Mth;
    if Find(known, lo, hi).Some? {
    } else if hi - lo == 1 {
      MthOfOne(node, hs[lo..hi]);
    } else {
      var k := Split(hi - lo);
      JoinIsMth(node, known, hs, lo, lo + k);
      JoinIsMth(node, known, hs, lo + k, hi);
      SliceSplit(hs, lo, k, hi);
      MthSplits(node, hs[lo..hi]);
    }
  }

  function Flat<D>(ks: seq<Worker<D>>): seq<Root<D>> {
    if ks == [] then [] else ks[0].roots + Flat(ks[1..])
  }

  lemma {:induction false} FlatHas<D>(ks: seq<Worker<D>>, r: Root<D>)
    ensures r in Flat(ks) <==> exists k :: k in ks && r in k.roots
  {
    if ks != [] {
      FlatHas(ks[1..], r);
      assert ks == [ks[0]] + ks[1..];
    }
  }

  // ------------------------------------------------------------------- the build

  lemma {:induction false} PooledHas(shares: seq<seq<Block>>, b: Block)
    ensures b in Pooled(shares) <==> exists w :: 0 <= w < |shares| && b in shares[w]
    decreases |shares|
  {
    if shares != [] {
      PooledHas(Init(shares), b);
      assert forall w :: 0 <= w < |Init(shares)| ==> Init(shares)[w] == shares[w];
      assert b in Last(shares) <==> b in shares[|shares| - 1];
    }
  }

  /** Once every worker has finished, the shared output is every leaf's hash. */
  lemma FinishedOutput<D>(node: (D, D) -> D, hs: seq<D>, shares: seq<seq<Block>>, pool: Pool<D>, cap: nat)
    requires |hs| >= 1 && cap >= 1
    requires PoolOk(node, hs, shares, pool)
    requires Pooled(shares) == multiset(Blocks(0, |hs|, cap))
    requires forall w :: 0 <= w < |pool.workers| ==> pool.workers[w].Done()
    ensures pool.out == hs
  {
    var bs := Blocks(0, |hs|, cap);
    BlocksTile(0, |hs|, cap);
    forall p | 0 <= p < |hs| ensures pool.out[p] == hs[p] {
      var j := TileOf(bs, 0, |hs|, p);
      assert bs[j] in multiset(bs);
      PooledHas(shares, bs[j]);
      var w :| 0 <= w < |shares| && bs[j] in shares[w];
      var m :| 0 <= m < |shares[w]| && shares[w][m] == bs[j];
      assert Past(pool.workers[w], p);
      assert WorkerOk(node, hs, pool.out, pool.workers[w]);
    }
  }

  lemma {:induction false} TileWithin(bs: seq<Block>, lo: nat, hi: nat, j: nat)
    requires Tiles(bs, lo, hi) && j < |bs|
    ensures bs[j].hi <= hi
    decreases |bs| - j
  {
    if j + 1 < |bs| {
      TileWithin(bs, lo, hi, j + 1);
      assert bs[j].hi == bs[j + 1].lo;
    }
  }

  /** The pool as the workers are started. */
  function Started<D>(shares: seq<seq<Block>>, blank: D, n: nat): Pool<D> {
    Pool(seq(n, _ => blank), seq(|shares|, w requires 0 <= w < |shares| => Begin(Worker(shares[w], 0, 0, []))))
  }

  lemma StartedPool<D>(node: (D, D) -> D, hs: seq<D>, shares: seq<seq<Block>>, blank: D, cap: nat)
    requires |hs| >= 1 && cap >= 1 && Pooled(shares) == multiset(Blocks(0, |hs|, cap))
    ensures PoolOk(node, hs, shares, Started(shares, blank, |hs|))
  {
    var bs := Blocks(0, |hs|, cap);
    BlocksTile(0, |hs|, cap);
    forall w, m | 0 <= w < |shares| && 0 <= m < |shares[w]| ensures shares[w][m].lo < shares[w][m].hi <= |hs| {
      PooledHas(shares, shares[w][m]);
      assert shares[w][m] in multiset(bs);
      var j :| 0 <= j < |bs| && bs[j] == shares[w][m];
      TileWithin(bs, 0, |hs|, j);
    }
    var pool := Started(shares, blank, |hs|);
    forall w | 0 <= w < |shares| ensures WorkerOk(node, hs, pool.out, pool.workers[w]) {
      assert Placed(pool.workers[w], |hs|);
      assert forall p :: !Past(pool.workers[w], p);
    }
  }

  function BySize(a: Block, b: Block): int {
    Size(b) - Size(a)
  }

  /** The blocks, largest first, shared out among the workers. */
  method Plan(n: nat, cores: nat, cap: nat) returns (shares: seq<seq<Block>>, load: seq<int>)
    requires n >= 1 && cores >= 1 && cap >= 1
    ensures |shares| == |load| == cores
    ensures Pooled(shares) == multiset(Blocks(0, n, cap))
    ensures forall w :: 0 <= w < cores ==> load[w] == TotalSize(shares[w])
    ensures Sum(load) == n && Balanced(load, n, cap)
  {
    hide Blocks, Sum, TotalSize, Balanced, SortBy, Pooled;
    var list := new BlockList();
    list.Walk(0, n, cap);
    BlocksTile(0, n, cap);
    var order := SortBy(BySize, list.blocks);
    SortKeeps(BySize, list.blocks);
    forall b | b in order ensures 0 <= Size(b) <= cap {
      SameElements(order, list.blocks, b);
      var j :| 0 <= j < |list.blocks| && list.blocks[j] == b;
    }
    shares, load := Assign(order, cores, cap);
    TotalSizeOfTiles(list.blocks, 0, n);
    TotalSizeAnyOrder(order, list.blocks);
  }

  lemma {:induction false} TotalSizeOfTiles(bs: seq<Block>, lo: nat, hi: nat)
    requires Tiles(bs, lo, hi)
    ensures TotalSize(bs) == hi - lo
    decreases |bs|
  {
    if |bs| > 1 {
      assert bs[|bs| - 2].hi == bs[|bs| - 1].lo;
      TotalSizeOfTiles(Init(bs), lo, bs[|bs| - 2].hi);
    }
  }

  lemma {:induction false} TotalSizeAnyOrder(s: seq<Block>, t: seq<Block>)
    requires multiset(s) == multiset(t)
    ensures TotalSize(s) == TotalSize(t)
    decreases |s|
  {
    assert |s| == |multiset(s)| == |multiset(t)| == |t|;
    if s != [] {
      SameElements(s, t, Last(s));
      var j :| 0 <= j < |t| && t[j] == Last(s);
      var rest := t[..j] + t[j + 1..];
      assert s == Init(s) + [Last(s)];
      assert t == t[..j] + [t[j]] + t[j + 1..];
      assert multiset(Init(s)) == multiset(s) - multiset{Last(s)};
      assert multiset(rest) == multiset(t) - multiset{Last(s)};
      TotalSizeAnyOrder(Init(s), rest);
      TotalSizeWithout(t, j);
    }
  }

  lemma {:induction false} TotalSizeWithout(t: seq<Block>, j: nat)
    requires j < |t|
    ensures TotalSize(t) == TotalSize(t[..j] + t[j + 1..]) + Size(t[j])
    decreases |t|
  {
    if j == |t| - 1 {
      assert t[..j] + t[j + 1..] == Init(t);
    } else {
      TotalSizeWithout(Init(t), j);
      assert t[..j] + t[j + 1..] == (Init(t)[..j] + Init(t)[j + 1..]) + [Last(t)];
      Snoc(Init(t)[..j] + Init(t)[j + 1..], Last(t));
    }
  }

  /**
   * The workers run to their end. Any worker that has work left may move next, so this stands for every interleaving.
   */
  method RunWorkers<L, D>(leafHash: L -> D, node: (D, D) -> D, leaves: seq<L>, shares: seq<seq<Block>>, blank: D,
      ghost cap: nat)
    returns (pool: Pool<D>)
    requires |leaves| >= 1 && cap >= 1 && Pooled(shares) == multiset(Blocks(0, |leaves|, cap))
    ensures PoolOk(node, Hashes(leafHash, leaves), shares, pool)
    ensures forall w :: 0 <= w < |pool.workers| ==> pool.workers[w].Done()
  {
    pool := Started(shares, blank, |leaves|);
    StartedPool(node, Hashes(leafHash, leaves), shares, blank, cap);
    while exists w :: 0 <= w < |shares| && !pool.workers[w].Done()
      invariant PoolOk(node, Hashes(leafHash, leaves), shares, pool)
      invariant AllPlaced(pool.workers, |leaves|)
      decreases PoolLeft(pool.workers, |leaves|)
    {
      var w :| 0 <= w < |shares| && !pool.workers[w].Done();
      StepKeepsPool(leafHash, node, leaves, shares, pool, w);
      StepLeft(leafHash, node, leaves, pool, w);
      pool := Step(leafHash, node, leaves, pool, w);
    }
  }

  lemma KnownRoots<D>(node: (D, D) -> D, hs: seq<D>, shares: seq<seq<Block>>, pool: Pool<D>)
    requires PoolOk(node, hs, shares, pool)
    ensures forall r :: r in Flat(pool.workers) ==> r.lo < r.hi <= |hs| && r.hash == Mth(node, hs[r.lo..r.hi])
  {
    forall r | r in Flat(pool.workers) ensures r.lo < r.hi <= |hs| && r.hash == Mth(node, hs[r.lo..r.hi]) {
      FlatHas(pool.workers, r);
      var k :| k in pool.workers && r in k.roots;
      var w :| 0 <= w < |pool.workers| && pool.workers[w] == k;
      assert WorkerOk(node, hs, pool.out, pool.workers[w]);
    }
  }

  /** The whole build: however the workers interleave, the leaf hashes and the root are those of the sequential tree. */
  method BuildTreeParallel<L, D>(leafHash: L -> D, node: (D, D) -> D, leaves: seq<L>, cores: nat, cap: nat, blank: D)
    returns (out: seq<D>, root: D)
    requires |leaves| >= 1 && cores >= 1 && cap >= 1
    ensures out == Hashes(leafHash, leaves)
    ensures root == Mth(node, Hashes(leafHash, leaves))
  {
    ghost var hs := Hashes(leafHash, leaves);
    var shares, load := Plan(|leaves|, cores, cap);
    var pool := RunWorkers(leafHash, node, leaves, shares, blank, cap);
    FinishedOutput(node, hs, shares, pool, cap);
    KnownRoots(node, hs, shares, pool);
    out := pool.out;
    var known := Flat(pool.workers);
    JoinIsMth(node, known, hs, 0, |hs|);
    assert hs[0..|hs|] == hs;
    root := JoinKnown(node, known, out, 0, |out|);
  }
}
