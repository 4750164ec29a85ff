/** The RFC 6962 Merkle tree of spec/tools/check.py, over an abstract node hash. */
module Rfc6962 {
  import opened Bytes

  // ------------------------------------------------------------------ the split

  ghost predicate IsPow2(k: nat)
    decreases k
  {
    k == 1 || (k > 1 && k % 2 == 0 && IsPow2(k / 2))
  }

  /** The largest power of two below `n`, for `n` of at least two: where a tree of `n` leaves splits. */
  function Split(n: nat): (k: nat)
    requires n >= 2
    ensures 1 <= k < n <= 2 * k
  {
    if n == 2 then 1 else 2 * Split((n + 1) / 2)
  }

  lemma {:induction false} SplitIsPow2(n: nat)
    requires n >= 2
    ensures IsPow2(Split(n))
  {
    if n > 2 {
      SplitIsPow2((n + 1) / 2);
    }
  }

  lemma {:induction false} Pow2Between(a: nat, b: nat, n: nat)
    requires IsPow2(a) && IsPow2(b) && a < n <= 2 * a && b < n <= 2 * b
    ensures a == b
  {
    if a > 1 && b > 1 {
      Pow2Between(a / 2, b / 2, (n + 1) / 2);
    }
  }

  /** The doubling loop every copy of `split` runs. */
  method ComputeSplit(n: nat) returns (k: nat)
    requires n >= 2
    ensures k == Split(n)
  {
    k := 1;
    while k * 2 < n
      invariant IsPow2(k) && k < n
    {
      k := k * 2;
    }
    SplitIsPow2(n);
    Pow2Between(k, Split(n), n);
  }

  // ------------------------------------------------------------- the tree's root

  /** The tree head of the leaf hashes `hs`. */
  function Mth<D>(node: (D, D) -> D, hs: seq<D>): D
    requires |hs| >= 1
    decreases |hs|
  {
    if |hs| == 1 then hs[0] else
      var k := Split(|hs|);
      node(Mth(node, hs[..k]), Mth(node, hs[k..]))
  }

  lemma MthOfOne<D>(node: (D, D) -> D, hs: seq<D>)
    requires |hs| == 1
    ensures Mth(node, hs) == hs[0]
  {
  }

  lemma MthSplits<D>(node: (D, D) -> D, hs: seq<D>)
    requires |hs| >= 2
    ensures var k := Split(|hs|); Mth(node, hs) == node(Mth(node, hs[..k]), Mth(node, hs[k..]))
  {
  }

  /** The audit path of leaf `i`, lowest sibling first (RFC 6962 section 2.1.1). */
  function AuditPath<D>(node: (D, D) -> D, hs: seq<D>, i: nat): seq<D>
    requires i < |hs|
    decreases |hs|
  {
    if |hs| == 1 then [] else
      var k := Split(|hs|);
      if i < k then AuditPath(node, hs[..k], i) + [Mth(node, hs[k..])]
      else AuditPath(node, hs[k..], i - k) + [Mth(node, hs[..k])]
  }

  // ------------------------------------------- climbing by the tree's own splits

  /** The root a path leads to from hash `h` at leaf `i` of `n`, read from the top of the tree down. */
  function Climb<D>(node: (D, D) -> D, i: nat, n: nat, h: D, path: seq<D>): Option<D>
    requires i < n
    decreases n
  {
    if n == 1 then (if path == [] then Some(h) else None)
    else if path == [] then None
    else
      var k := Split(n);
      if i < k then
        match Climb(node, i, k, h, Init(path))
        case Some(x) => Some(node(x, Last(path)))
        case None => None
      else
        match Climb(node, i - k, n - k, h, Init(path))
        case Some(x) => Some(node(Last(path), x))
        case None => None
  }

  // --------------------------------------------- climbing by shifting two numbers

  /** `fn` and `sn` halved together until `fn` is odd or zero. */
  function Strip(fn: nat, sn: nat): (nat, nat)
    decreases fn
  {
    if fn % 2 == 0 && fn != 0 then Strip(fn / 2, sn / 2) else (fn, sn)
  }

  /** What is left of (fn, sn) after one sibling is consumed. */
  function Shift(fn: nat, sn: nat): (nat, nat) {
    var t := if fn % 2 == 0 && fn == sn then Strip(fn, sn) else (fn, sn);
    (t.0 / 2, t.1 / 2)
  }

  function Join<D>(node: (D, D) -> D, fn: nat, sn: nat, r: D, p: D): D {
    if fn % 2 == 1 || fn == sn then node(p, r) else node(r, p)
  }

  /** The rest of the verifier's loop from the state (fn, sn, r). */
  function Fold<D>(node: (D, D) -> D, fn: nat, sn: nat, r: D, path: seq<D>): Option<D>
    decreases |path|
  {
    if path == [] then (if sn == 0 then Some(r) else None)
    else if sn == 0 then None
    else
      var next := Shift(fn, sn);
      Fold(node, next.0, next.1, Join(node, fn, sn, r, path[0]), path[1..])
  }

  /** The verifier's loop of RFC 9162 section 2.1.3.2, with the source's answers: no root for an index out of range. */
  method RootFromPath<D>(node: (D, D) -> D, leafh: D, index: int, size: int, path: seq<D>) returns (root: Option<D>)
    ensures 0 <= index < size ==> root == Climb(node, index, size, leafh, path)
    ensures !(0 <= index < size) ==> root == None
  {
    if !(0 <= index < size) {
      return None;
    }
    FoldIsClimb(node, index, size, leafh, path);
    var fn: nat, sn: nat, r := index, size - 1, leafh;
    var j := 0;
    while j < |path|
      invariant 0 <= j <= |path|
      invariant Fold(node, fn, sn, r, path[j..]) == Climb(node, index, size, leafh, path)
    {
      var p := path[j];
      assert path[j..][1..] == path[j + 1..];
      if sn == 0 {
        return None;
      }
      if fn % 2 == 1 || fn == sn {
        r := node(p, r);
        if fn % 2 == 0 {
          ghost var stripped := Strip(fn, sn);
          while fn % 2 == 0 && fn != 0
            invariant Strip(fn, sn) == stripped
          {
            fn := fn / 2;
            sn := sn / 2;
          }
        }
      } else {
        r := node(r, p);
      }
      fn := fn / 2;
      sn := sn / 2;
      j := j + 1;
    }
    assert path[j..] == [];
    root := if sn == 0 then Some(r) else None;
  }

  // ------------------------------------------ the loop is the recursion, both ways

  /** Climbing out of a full left subtree of `kk` leaves spends every sibling but the last inside it. */
  lemma {:induction false} LeavingLeft<D>(node: (D, D) -> D, fn: nat, kk: nat, sn: nat, r: D, path: seq<D>)
    requires IsPow2(kk) && fn < kk <= sn < 2 * kk
    ensures Fold(node, fn, sn, r, path) ==
            if path == [] then None else
              match Fold(node, fn, kk - 1, r, Init(path))
              case Some(x) => Some(node(x, Last(path)))
              case None => None
    decreases |path|
  {
    if |path| >= 2 && kk > 1 {
      var p, rest := path[0], path[1..];
      assert (kk - 1) / 2 == kk / 2 - 1;
      assert (kk - 1) % 2 == 1;
      LeavingLeft(node, fn / 2, kk / 2, sn / 2, Join(node, fn, sn, r, p), rest);
      assert Init(path)[1..] == Init(rest);
    }
  }

  /** Adding a power of two above both numbers commutes with halving them. */
  lemma {:induction false} StripAbove(n: nat, kk: nat) returns (kk2: nat)
    requires IsPow2(kk) && 0 < n < kk
    ensures Strip(n, n).0 == Strip(n, n).1 && Strip(n, n).0 % 2 == 1
    ensures IsPow2(kk2) && Strip(n, n).0 < kk2
    ensures Strip(n + kk, n + kk) == (Strip(n, n).0 + kk2, Strip(n, n).1 + kk2)
    decreases n
  {
    if n % 2 == 0 {
      kk2 := StripAbove(n / 2, kk / 2);
      assert (n + kk) / 2 == n / 2 + kk / 2;
    } else {
      kk2 := kk;
    }
  }

  lemma {:induction false} StripPow2(kk: nat)
    requires IsPow2(kk)
    ensures Strip(kk, kk) == (1, 1)
  {
    if kk > 1 {
      StripPow2(kk / 2);
    }
  }

  /** Climbing out of a right subtree behind `kk` leaves: the same decisions, then one sibling from the left. */
  lemma {:induction false} LeavingRight<D>(node: (D, D) -> D, fn: nat, sn: nat, kk: nat, r: D, path: seq<D>)
    requires IsPow2(kk) && fn <= sn < kk
    ensures Fold(node, fn + kk, sn + kk, r, path) ==
            if path == [] then None else
              match Fold(node, fn, sn, r, Init(path))
              case Some(x) => Some(node(Last(path), x))
              case None => None
    decreases |path|
  {
    hide Shift, IsPow2;
    if path == [] {
    } else if sn == 0 {
      LastShift(kk);
    } else {
      var next := Shift(fn, sn);
      var kk2 := ShiftAbove(fn, sn, kk);
      var r' := Join(node, fn, sn, r, path[0]);
      assert r' == Join(node, fn + kk, sn + kk, r, path[0]) by { BigPow2Even(kk); }
      LeavingRight(node, next.0, next.1, kk2, r', path[1..]);
      if |path| >= 2 {
        assert Init(path)[1..] == Init(path[1..]);
      }
    }
  }

  lemma LastShift(kk: nat)
    requires IsPow2(kk)
    ensures Shift(kk, kk) == (0, 0)
  {
    StripPow2(kk);
  }

  lemma BigPow2Even(kk: nat)
    requires IsPow2(kk)
    ensures kk == 1 || kk % 2 == 0
  {
  }

  lemma ShiftAbove(fn: nat, sn: nat, kk: nat) returns (kk2: nat)
    requires IsPow2(kk) && fn <= sn < kk && sn != 0
    ensures var next := Shift(fn, sn);
            IsPow2(kk2) && next.0 <= next.1 < kk2 && Shift(fn + kk, sn + kk) == (next.0 + kk2, next.1 + kk2)
  {
    if fn % 2 == 0 && fn == sn {
      var above := StripAbove(sn, kk);
      kk2 := above / 2;
    } else {
      kk2 := kk / 2;
    }
  }

  lemma FoldOne<D>(node: (D, D) -> D, h: D, path: seq<D>)
    ensures Fold(node, 0, 0, h, path) == Climb(node, 0, 1, h, path)
  {
  }

  lemma {:induction false} FoldIsClimb<D>(node: (D, D) -> D, i: nat, n: nat, h: D, path: seq<D>)
    requires i < n
    ensures Fold(node, i, n - 1, h, path) == Climb(node, i, n, h, path)
    decreases n
  {
    hide Split, Fold, IsPow2;
    if n == 1 {
      FoldOne(node, h, path);
    } else {
      var k := Split(n);
      SplitIsPow2(n);
      if i < k {
        LeavingLeft(node, i, k, n - 1, h, path);
        if path != [] {
          FoldIsClimb(node, i, k, h, Init(path));
        }
      } else {
        LeavingRight(node, i - k, n - k - 1, k, h, path);
        if path != [] {
          FoldIsClimb(node, i - k, n - k, h, Init(path));
        }
      }
    }
  }

  // -------------------------------------------------------- completeness, soundness

  lemma AuditPathSplits<D>(node: (D, D) -> D, hs: seq<D>, i: nat)
    requires i < |hs| && |hs| >= 2
    ensures var k := Split(|hs|);
            AuditPath(node, hs, i) ==
              if i < k then AuditPath(node, hs[..k], i) + [Mth(node, hs[k..])]
              else AuditPath(node, hs[k..], i - k) + [Mth(node, hs[..k])]
  {
  }

  lemma AuditPathOfOne<D>(node: (D, D) -> D, hs: seq<D>)
    requires |hs| == 1
    ensures AuditPath(node, hs, 0) == []
  {
  }

  /** Every leaf's audit path is accepted and gives the tree head. */
  lemma {:induction false} PathReachesRoot<D>(node: (D, D) -> D, hs: seq<D>, i: nat)
    requires i < |hs|
    ensures Climb(node, i, |hs|, hs[i], AuditPath(node, hs, i)) == Some(Mth(node, hs))
    decreases |hs|
  {
    hide Split, AuditPath;
    if |hs| == 1 {
      assert AuditPath(node, hs, i) == [] by { AuditPathOfOne(node, hs); }
    } else {
      var k := Split(|hs|);
      AuditPathSplits(node, hs, i);
      if i < k {
        PathReachesRoot(node, hs[..k], i);
        Snoc(AuditPath(node, hs[..k], i), Mth(node, hs[k..]));
      } else {
        PathReachesRoot(node, hs[k..], i - k);
        assert hs[k..][i - k] == hs[i];
        Snoc(AuditPath(node, hs[k..], i - k), Mth(node, hs[..k]));
      }
    }
  }

  /** The pairs hashed while building the tree over `hs`. */
  ghost function TreeInputs<D(!new)>(node: (D, D) -> D, hs: seq<D>): set<(D, D)>
    requires |hs| >= 1
    decreases |hs|
  {
    if |hs| == 1 then {} else
      var k := Split(|hs|);
      TreeInputs(node, hs[..k]) + TreeInputs(node, hs[k..]) + {(Mth(node, hs[..k]), Mth(node, hs[k..]))}
  }

  /** The pairs hashed while climbing a path. */
  ghost function ClimbInputs<D(!new)>(node: (D, D) -> D, i: nat, n: nat, h: D, path: seq<D>): set<(D, D)>
    requires i < n
    decreases n
  {
    if n == 1 || path == [] then {} else
      var k := Split(n);
      if i < k then
        ClimbInputs(node, i, k, h, Init(path)) +
        match Climb(node, i, k, h, Init(path)) { case Some(x) => {(x, Last(path))} case None => {} }
      else
        ClimbInputs(node, i - k, n - k, h, Init(path)) +
        match Climb(node, i - k, n - k, h, Init(path)) { case Some(x) => {(Last(path), x)} case None => {} }
  }

  /** No pair of the climb shares a hash with another pair of the tree. */
  ghost predicate NoClash<D(!new)>(node: (D, D) -> D, tree: set<(D, D)>, climb: set<(D, D)>) {
    forall a, b :: a in tree && b in climb && node(a.0, a.1) == node(b.0, b.1) ==> a == b
  }

  lemma OnePair<D(!new)>(node: (D, D) -> D, tree: set<(D, D)>, climb: set<(D, D)>, a: (D, D), b: (D, D))
    requires NoClash(node, tree, climb) && a in tree && b in climb && node(a.0, a.1) == node(b.0, b.1)
    ensures a == b
  {
  }

  lemma FewerInputs<D(!new)>(node: (D, D) -> D, tree: set<(D, D)>, climb: set<(D, D)>, tree': set<(D, D)>,
      climb': set<(D, D)>)
    requires NoClash(node, tree, climb) && tree' <= tree && climb' <= climb
    ensures NoClash(node, tree', climb')
  {
  }

  lemma OneLeaf<D>(node: (D, D) -> D, hs: seq<D>, h: D, path: seq<D>)
    requires |hs| == 1 && Climb(node, 0, 1, h, path) == Some(Mth(node, hs))
    ensures h == hs[0] && path == AuditPath(node, hs, 0)
  {
  }

  lemma TreeInputsSplit<D(!new)>(node: (D, D) -> D, hs: seq<D>)
    requires |hs| >= 2
    ensures var k := Split(|hs|);
            && TreeInputs(node, hs[..k]) <= TreeInputs(node, hs) && TreeInputs(node, hs[k..]) <= TreeInputs(node, hs)
            && (Mth(node, hs[..k]), Mth(node, hs[k..])) in TreeInputs(node, hs)
  {
    hide Split, Mth;
  }

  /** The last step of a climb to the head: the sibling it used is the tree's own. */
  lemma TopStep<D(!new)>(node: (D, D) -> D, hs: seq<D>, i: nat, h: D, path: seq<D>)
    requires i < |hs| && |hs| >= 2
    requires Climb(node, i, |hs|, h, path) == Some(Mth(node, hs))
    requires NoClash(node, TreeInputs(node, hs), ClimbInputs(node, i, |hs|, h, path))
    ensures path != []
    ensures var k := Split(|hs|);
            if i < k then
              && Climb(node, i, k, h, Init(path)) == Some(Mth(node, hs[..k])) && Last(path) == Mth(node, hs[k..])
              && NoClash(node, TreeInputs(node, hs[..k]), ClimbInputs(node, i, k, h, Init(path)))
            else
              && Climb(node, i - k, |hs| - k, h, Init(path)) == Some(Mth(node, hs[k..]))
              && Last(path) == Mth(node, hs[..k])
              && NoClash(node, TreeInputs(node, hs[k..]), ClimbInputs(node, i - k, |hs| - k, h, Init(path)))
  {
    hide Split, NoClash, Mth, TreeInputs;
    MthSplits(node, hs);
    TreeInputsSplit(node, hs);
    var k := Split(|hs|);
    var top := (Mth(node, hs[..k]), Mth(node, hs[k..]));
    if i < k {
      var x := Climb(node, i, k, h, Init(path)).value;
      OnePair(node, TreeInputs(node, hs), ClimbInputs(node, i, |hs|, h, path), top, (x, Last(path)));
      FewerInputs(node, TreeInputs(node, hs), ClimbInputs(node, i, |hs|, h, path), TreeInputs(node, hs[..k]),
        ClimbInputs(node, i, k, h, Init(path)));
    } else {
      var x := Climb(node, i - k, |hs| - k, h, Init(path)).value;
      OnePair(node, TreeInputs(node, hs), ClimbInputs(node, i, |hs|, h, path), top, (Last(path), x));
      FewerInputs(node, TreeInputs(node, hs), ClimbInputs(node, i, |hs|, h, path), TreeInputs(node, hs[k..]),
        ClimbInputs(node, i - k, |hs| - k, h, Init(path)));
    }
  }

  /**
   * Whatever path, of whatever length, leads hash `h` at leaf `i` to the head of the tree over `hs`:
   * `h` is that leaf's hash and the path is its audit path, unless a pair hashed on the way shares its hash with
   * another pair of the tree.
   */
  lemma {:induction false} PathBindsLeaf<D(!new)>(node: (D, D) -> D, hs: seq<D>, i: nat, h: D, path: seq<D>)
    requires i < |hs|
    requires Climb(node, i, |hs|, h, path) == Some(Mth(node, hs))
    requires NoClash(node, TreeInputs(node, hs), ClimbInputs(node, i, |hs|, h, path))
    ensures h == hs[i]
    ensures path == AuditPath(node, hs, i)
    decreases |hs|
  {
    hide Split, NoClash, TreeInputs, ClimbInputs, Mth, AuditPath;
    if |hs| == 1 {
      OneLeaf(node, hs, h, path);
    } else {
      var k := Split(|hs|);
      TopStep(node, hs, i, h, path);
      assert path == Init(path) + [Last(path)];
      AuditPathSplits(node, hs, i);
      if i < k {
        PathBindsLeaf(node, hs[..k], i, h, Init(path));
      } else {
        PathBindsLeaf(node, hs[k..], i - k, h, Init(path));
      }
    }
  }
}
