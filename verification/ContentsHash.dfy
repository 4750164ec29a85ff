/** The bundle's contents hash, as packages/audit/src/contents-hash.ts computes it. Paths are their UTF-8 bytes. */
module ContentsHash {
  import opened Bytes
  import opened Sorting
  import opened Lex

  const DIGEST: nat := 32

  datatype Entry = Entry(path: Bytes, content: Bytes)
  datatype Digested = Digested(path: Bytes, digest: Bytes)

  method CompareBytes(a: Bytes, b: Bytes) returns (d: int)
    ensures d == Compare(a, b)
  {
    var n := if |a| < |b| then |a| else |b|;
    for i := 0 to n
      invariant Compare(a, b) == Compare(a[i..], b[i..])
    {
      CompareStep(a, b, i);
      var diff: int := a[i] as int - b[i] as int;
      if diff != 0 {
        return diff;
      }
    }
    CompareEnd(a[n..], b[n..]);
    d := |a| - |b|;
  }

  lemma CompareStep(a: Bytes, b: Bytes, i: nat)
    requires i < |a| && i < |b|
    ensures Compare(a[i..], b[i..]) == if a[i] != b[i] then a[i] - b[i] else Compare(a[i + 1..], b[i + 1..])
  {
    assert a[i..][1..] == a[i + 1..] && b[i..][1..] == b[i + 1..];
  }

  lemma CompareEnd(a: Bytes, b: Bytes)
    requires a == [] || b == []
    ensures Compare(a, b) == |a| - |b|
  {
  }

  function ByPath(a: Digested, b: Digested): int {
    Compare(a.path, b.path)
  }

  /** What is hashed for an entry: its path, a NUL, its content. */
  function EntryInput(e: Entry): Bytes {
    e.path + [0] + e.content
  }

  function DigestOf(hash: Bytes -> Bytes, e: Entry): Digested {
    Digested(e.path, hash(EntryInput(e)))
  }

  function DigestAll(hash: Bytes -> Bytes, es: seq<Entry>): (ds: seq<Digested>)
    ensures |ds| == |es|
  {
    if es == [] then [] else DigestAll(hash, Init(es)) + [DigestOf(hash, Last(es))]
  }

  function Concat(ds: seq<Digested>): Bytes {
    if ds == [] then [] else ds[0].digest + Concat(ds[1..])
  }

  predicate NulFree(es: seq<Entry>) {
    forall i :: 0 <= i < |es| ==> 0 !in es[i].path
  }

  /** What is hashed in the end: the digests, in path order. */
  function OuterInput(hash: Bytes -> Bytes, es: seq<Entry>): Bytes {
    Concat(SortBy(ByPath, DigestAll(hash, es)))
  }

  /** The contents hash before its text form; Err where the source throws for a NUL in a path. */
  function HashOf(hash: Bytes -> Bytes, es: seq<Entry>): Result<Bytes> {
    if NulFree(es) then Ok(hash(OuterInput(hash, es))) else Err
  }

  method ComputeEntryDigest(hash: Bytes -> Bytes, e: Entry) returns (d: Result<Bytes>)
    ensures d == if 0 in e.path then Err else Ok(hash(EntryInput(e)))
  {
    if 0 in e.path {
      return Err;
    }
    var hashed := e.path;
    hashed := hashed + [0];
    hashed := hashed + e.content;
    d := Ok(hash(hashed));
  }

  method CombineEntryDigests(hash: Bytes -> Bytes, ds: seq<Digested>) returns (r: Result<Bytes>)
    ensures r == if forall i :: 0 <= i < |ds| ==> 0 !in ds[i].path then Ok(hash(Concat(SortBy(ByPath, ds)))) else Err
  {
    for k := 0 to |ds|
      invariant forall i :: 0 <= i < k ==> 0 !in ds[i].path
    {
      if 0 in ds[k].path {
        return Err;
      }
    }
    var sorted := SortBy(ByPath, ds);
    var hashed: Bytes := [];
    for k := 0 to |sorted|
      invariant hashed + Concat(sorted[k..]) == Concat(sorted)
    {
      ConcatStep(sorted, k);
      assert (hashed + sorted[k].digest) + Concat(sorted[k + 1..]) == hashed + Concat(sorted[k..]);
      hashed := hashed + sorted[k].digest;
    }
    assert hashed == Concat(sorted);
    r := Ok(hash(hashed));
  }

  lemma ConcatStep(ds: seq<Digested>, k: nat)
    requires k < |ds|
    ensures Concat(ds[k..]) == ds[k].digest + Concat(ds[k + 1..])
  {
    assert ds[k..][1..] == ds[k + 1..];
  }

  method ComputeContentsHash(hash: Bytes -> Bytes, es: seq<Entry>) returns (r: Result<Bytes>)
    ensures r == HashOf(hash, es)
  {
    hide SortBy, ByPath, EntryInput;
    var ds: seq<Digested> := [];
    for k := 0 to |es|
      invariant ds == DigestAll(hash, es[..k]) && NulFree(es[..k])
    {
      var d := ComputeEntryDigest(hash, es[k]);
      if d.Err? {
        assert !NulFree(es);
        return Err;
      }
      ds := ds + [Digested(es[k].path, d.value)];
      Snoc(es[..k], es[k]);
      assert es[..k + 1] == es[..k] + [es[k]];
    }
    assert es[..|es|] == es;
    forall i | 0 <= i < |ds| ensures 0 !in ds[i].path {
      DigestAt(hash, es, i);
    }
    r := CombineEntryDigests(hash, ds);
  }

  lemma {:induction false} DigestAt(hash: Bytes -> Bytes, es: seq<Entry>, i: nat)
    requires i < |es|
    ensures DigestAll(hash, es)[i] == DigestOf(hash, es[i])
  {
    if i < |es| - 1 {
      DigestAt(hash, Init(es), i);
    }
  }

  // ------------------------------------------------------------------ order does not matter

  /** No two different entries have one path. */
  ghost predicate OnePerPath(es: seq<Entry>) {
    forall i, j :: 0 <= i < |es| && 0 <= j < |es| && es[i].path == es[j].path ==> es[i] == es[j]
  }

  lemma ByPathOrders()
    ensures Ordering(ByPath)
  {
    hide Compare;
    CompareOrders();
  }

  lemma DigestSnoc(hash: Bytes -> Bytes, es: seq<Entry>, e: Entry)
    ensures DigestAll(hash, es + [e]) == DigestAll(hash, es) + [DigestOf(hash, e)]
  {
    Snoc(es, e);
  }

  lemma {:induction false} DigestInsert(hash: Bytes -> Bytes, a: seq<Entry>, e: Entry, b: seq<Entry>)
    ensures multiset(DigestAll(hash, a + [e] + b)) == multiset(DigestAll(hash, a + b)) + multiset{DigestOf(hash, e)}
    decreases |b|
  {
    hide DigestAll, DigestOf;
    if b == [] {
      assert a + [e] + b == a + [e] && a + b == a;
      DigestSnoc(hash, a, e);
    } else {
      var front, l := Init(b), Last(b);
      DigestInsert(hash, a, e, front);
      assert a + [e] + b == (a + [e] + front) + [l] && a + b == (a + front) + [l];
      DigestSnoc(hash, a + [e] + front, l);
      DigestSnoc(hash, a + front, l);
    }
  }

  /** The entries but one, and their digests. */
  lemma Without(hash: Bytes -> Bytes, es: seq<Entry>, k: nat) returns (rest: seq<Entry>)
    requires k < |es|
    ensures |rest| == |es| - 1 && forall e :: e in rest ==> e in es
    ensures multiset(es) == multiset(rest) + multiset{es[k]}
    ensures multiset(DigestAll(hash, es)) == multiset(DigestAll(hash, rest)) + multiset{DigestOf(hash, es[k])}
  {
    hide DigestAll, DigestOf;
    rest := es[..k] + es[k + 1..];
    assert es == es[..k] + [es[k]] + es[k + 1..];
    DigestInsert(hash, es[..k], es[k], es[k + 1..]);
  }

  lemma {:induction false} DigestKeeps(hash: Bytes -> Bytes, es: seq<Entry>, fs: seq<Entry>)
    requires multiset(es) == multiset(fs)
    ensures multiset(DigestAll(hash, es)) == multiset(DigestAll(hash, fs))
    decreases |es|
  {
    hide DigestOf;
    assert |es| == |multiset(es)| == |multiset(fs)| == |fs|;
    if es != [] {
      assert es[0] in multiset(fs);
      var k :| 0 <= k < |fs| && fs[k] == es[0];
      var es', fs' := Rests(hash, es, 0, fs, k);
      DigestKeeps(hash, es', fs');
    }
  }

  lemma Rests(hash: Bytes -> Bytes, es: seq<Entry>, i: nat, fs: seq<Entry>, k: nat)
    returns (es': seq<Entry>, fs': seq<Entry>)
    requires i < |es| && k < |fs| && es[i] == fs[k]
    ensures |es'| == |es| - 1 && (forall e :: e in es' ==> e in es) && forall f :: f in fs' ==> f in fs
    ensures multiset(es') == multiset(fs') <==> multiset(es) == multiset(fs)
    ensures multiset(DigestAll(hash, es')) == multiset(DigestAll(hash, fs')) <==>
      multiset(DigestAll(hash, es)) == multiset(DigestAll(hash, fs))
  {
    hide DigestAll, DigestOf;
    es' := Without(hash, es, i);
    fs' := Without(hash, fs, k);
    OneMore(multiset(es'), multiset(fs'), es[i]);
    OneMore(multiset(DigestAll(hash, es')), multiset(DigestAll(hash, fs')), DigestOf(hash, es[i]));
  }

  lemma OneMore<T>(a: multiset<T>, b: multiset<T>, x: T)
    ensures a == b <==> a + multiset{x} == b + multiset{x}
  {
    assert a == (a + multiset{x}) - multiset{x} && b == (b + multiset{x}) - multiset{x};
  }

  /** The hash is of the set: the order the entries come in makes no difference. */
  lemma OrderDoesNotMatter(hash: Bytes -> Bytes, es: seq<Entry>, fs: seq<Entry>)
    requires multiset(es) == multiset(fs) && OnePerPath(es)
    ensures HashOf(hash, es) == HashOf(hash, fs)
  {
    hide SortBy, Compare, Ascending, Concat, DigestAll;
    var a, b := DigestAll(hash, es), DigestAll(hash, fs);
    DigestKeeps(hash, es, fs);
    ByPathOrders();
    SortKeeps(ByPath, a);
    SortKeeps(ByPath, b);
    SortAscending(ByPath, a);
    SortAscending(ByPath, b);
    OneByPath(hash, es);
    AscendingUnique(ByPath, SortBy(ByPath, a), SortBy(ByPath, b));
    NulFreeEither(es, fs);
  }

  lemma DigestOfOne(hash: Bytes -> Bytes, es: seq<Entry>, x: Digested, y: Digested)
    requires OnePerPath(es) && x in DigestAll(hash, es) && y in DigestAll(hash, es) && x.path == y.path
    ensures x == y
  {
    hide DigestAll, EntryInput;
    var i :| 0 <= i < |es| && DigestAll(hash, es)[i] == x;
    var j :| 0 <= j < |es| && DigestAll(hash, es)[j] == y;
    DigestAt(hash, es, i);
    DigestAt(hash, es, j);
  }

  lemma NulFreeEither(es: seq<Entry>, fs: seq<Entry>)
    requires multiset(es) == multiset(fs)
    ensures NulFree(es) <==> NulFree(fs)
  {
    forall e ensures e in es <==> e in fs {
      SameElements(es, fs, e);
    }
    assert forall i :: 0 <= i < |es| ==> es[i] in es;
    assert forall i :: 0 <= i < |fs| ==> fs[i] in fs;
    if NulFree(es) {
      forall i | 0 <= i < |fs| ensures 0 !in fs[i].path {
        var j :| 0 <= j < |es| && es[j] == fs[i];
      }
    }
    if NulFree(fs) {
      forall i | 0 <= i < |es| ensures 0 !in es[i].path {
        var j :| 0 <= j < |fs| && fs[j] == es[i];
      }
    }
  }

  /** The hashes of path, NUL and content, one behind the other. */
  function InTurn(hash: Bytes -> Bytes, es: seq<Entry>): Bytes {
    if es == [] then [] else hash(es[0].path + [0] + es[0].content) + InTurn(hash, es[1..])
  }

  /** No path comes after the next one's, byte for byte. */
  ghost predicate PathsRise(es: seq<Entry>) {
    forall i :: 0 <= i < |es| - 1 ==> Compare(es[i].path, es[i + 1].path) <= 0
  }

  lemma {:induction false} DigestHead(hash: Bytes -> Bytes, es: seq<Entry>)
    requires es != []
    ensures DigestAll(hash, es) == [DigestOf(hash, es[0])] + DigestAll(hash, es[1..])
    decreases |es|
  {
    hide DigestOf;
    if |es| == 1 {
      assert Init(es) == [] && es[1..] == [];
    } else {
      DigestHead(hash, Init(es));
      assert Init(es)[1..] == Init(es[1..]);
    }
  }

  lemma {:induction false} RiseSorted(hash: Bytes -> Bytes, es: seq<Entry>)
    requires PathsRise(es)
    ensures Ascending(ByPath, DigestAll(hash, es)) && Concat(DigestAll(hash, es)) == InTurn(hash, es)
    decreases |es|
  {
    hide DigestAll, Compare;
    if es == [] {
      assert DigestAll(hash, es) == [];
    } else {
      var ds := DigestAll(hash, es);
      DigestHead(hash, es);
      assert ds[1..] == DigestAll(hash, es[1..]);
      RiseSorted(hash, es[1..]);
      if |es| > 1 {
        DigestHead(hash, es[1..]);
      }
    }
  }

  /**
   * What is hashed is the entries' hashes in the ascending order of their paths: in whatever order the entries come,
   * the result is that of the arrangement whose paths rise.
   */
  lemma HashedInPathOrder(hash: Bytes -> Bytes, es: seq<Entry>, rising: seq<Entry>)
    requires multiset(es) == multiset(rising) && OnePerPath(es) && PathsRise(rising) && NulFree(es)
    ensures HashOf(hash, es) == Ok(hash(InTurn(hash, rising)))
  {
    hide SortBy, Compare, Ascending, Concat, DigestAll, InTurn;
    var a, b := DigestAll(hash, es), DigestAll(hash, rising);
    DigestKeeps(hash, es, rising);
    ByPathOrders();
    SortKeeps(ByPath, a);
    SortAscending(ByPath, a);
    RiseSorted(hash, rising);
    OneByPath(hash, es);
    AscendingUnique(ByPath, SortBy(ByPath, a), b);
  }

  lemma OneByPath(hash: Bytes -> Bytes, es: seq<Entry>)
    requires OnePerPath(es)
    ensures var sorted := SortBy(ByPath, DigestAll(hash, es));
      forall x, y :: x in sorted && y in sorted && ByPath(x, y) <= 0 && ByPath(y, x) <= 0 ==> x == y
  {
    hide SortBy, Compare, DigestAll;
    var a := DigestAll(hash, es);
    SortKeeps(ByPath, a);
    forall x, y | x in SortBy(ByPath, a) && y in SortBy(ByPath, a) && ByPath(x, y) <= 0 && ByPath(y, x) <= 0
      ensures x == y
    {
      SameElements(SortBy(ByPath, a), a, x);
      SameElements(SortBy(ByPath, a), a, y);
      CompareFlips(x.path, y.path);
      CompareSame(x.path, y.path);
      DigestOfOne(hash, es, x, y);
    }
  }

  // ----------------------------------------------------------------------- it binds the set

  /** Everything hashed for `es`. */
  function Hashed(hash: Bytes -> Bytes, es: seq<Entry>): set<Bytes> {
    (set i | 0 <= i < |es| :: EntryInput(es[i])) + {OuterInput(hash, es)}
  }

  ghost predicate FullDigests(hash: Bytes -> Bytes, es: seq<Entry>) {
    forall i :: 0 <= i < |es| ==> |hash(EntryInput(es[i]))| == DIGEST
  }

  lemma {:induction false} ConcatLength(ds: seq<Digested>)
    requires forall d :: d in ds ==> |d.digest| == DIGEST
    ensures |Concat(ds)| == DIGEST * |ds|
  {
    if ds != [] {
      ConcatLength(ds[1..]);
    }
  }

  /** Digests of one width can be told apart in their concatenation. */
  lemma {:induction false} ConcatTells(a: seq<Digested>, b: seq<Digested>)
    requires (forall d :: d in a ==> |d.digest| == DIGEST) && (forall d :: d in b ==> |d.digest| == DIGEST)
    requires Concat(a) == Concat(b)
    ensures |a| == |b| && forall i :: 0 <= i < |a| ==> a[i].digest == b[i].digest
  {
    ConcatLength(a);
    ConcatLength(b);
    if a != [] {
      var c := Concat(a);
      assert a[0].digest == c[..DIGEST] == b[0].digest;
      assert Concat(a[1..]) == c[DIGEST..] == Concat(b[1..]);
      ConcatTells(a[1..], b[1..]);
      assert a == [a[0]] + a[1..] && b == [b[0]] + b[1..];
    }
  }

  /** The path ends at the first NUL. */
  lemma {:induction false} InputTells(p: Bytes, c: Bytes, q: Bytes, d: Bytes)
    requires 0 !in p && 0 !in q && p + [0] + c == q + [0] + d
    ensures p == q && c == d
  {
    var x, y := p + [0] + c, q + [0] + d;
    assert |p| == |q| by {
      assert x[|p|] == 0 && y[|q|] == 0;
      assert forall i :: 0 <= i < |p| ==> x[i] == p[i];
      assert forall i :: 0 <= i < |q| ==> y[i] == q[i];
    }
    assert p == x[..|p|] && q == y[..|q|] && c == x[|p| + 1..] && d == y[|q| + 1..];
  }

  /** A digest in path order is that of one of the entries. */
  lemma SortedIsDigest(hash: Bytes -> Bytes, es: seq<Entry>, k: nat)
    requires k < |es|
    ensures |SortBy(ByPath, DigestAll(hash, es))| == |es|
    ensures exists e :: e in es && SortBy(ByPath, DigestAll(hash, es))[k] == DigestOf(hash, e)
  {
    hide SortBy, DigestAll, EntryInput;
    var ds := DigestAll(hash, es);
    var sorted := SortBy(ByPath, ds);
    SortKeeps(ByPath, ds);
    SameElements(sorted, ds, sorted[k]);
    var i :| 0 <= i < |ds| && ds[i] == sorted[k];
    DigestAt(hash, es, i);
    assert es[i] in es;
  }

  /** Without collisions, one digest is one entry. */
  lemma DigestTells(hash: Bytes -> Bytes, es: seq<Entry>, fs: seq<Entry>, x: Entry, y: Entry)
    requires NulFree(es) && NulFree(fs) && CollisionFreeOn(hash, Hashed(hash, es) + Hashed(hash, fs))
    requires x in es && y in fs && hash(EntryInput(x)) == hash(EntryInput(y))
    ensures x == y
  {
    hide OuterInput;
    assert EntryInput(x) in Hashed(hash, es) && EntryInput(y) in Hashed(hash, fs);
    InputTells(x.path, x.content, y.path, y.content);
  }

  /** Equal hashes are of the same entries, each as often. */
  lemma HashBindsContents(hash: Bytes -> Bytes, es: seq<Entry>, fs: seq<Entry>)
    requires HashOf(hash, es).Ok? && HashOf(hash, es) == HashOf(hash, fs)
    requires FullDigests(hash, es) && FullDigests(hash, fs)
    requires CollisionFreeOn(hash, Hashed(hash, es) + Hashed(hash, fs))
    ensures multiset(es) == multiset(fs)
  {
    hide SortBy, DigestAll, EntryInput, Concat, ByPath, CollisionFreeOn, Hashed, OuterInput;
    OuterTells(hash, es, fs);
    var a, b := SortBy(ByPath, DigestAll(hash, es)), SortBy(ByPath, DigestAll(hash, fs));
    forall k | 0 <= k < |a| ensures a[k] == b[k] {
      SortedIsDigest(hash, es, k);
      SortedIsDigest(hash, fs, k);
      var x :| x in es && a[k] == DigestOf(hash, x);
      var y :| y in fs && b[k] == DigestOf(hash, y);
      DigestTells(hash, es, fs, x, y);
    }
    assert a == b;
    SortKeeps(ByPath, DigestAll(hash, es));
    SortKeeps(ByPath, DigestAll(hash, fs));
    AllHashed(hash, es);
    AllHashed(hash, fs);
    SameDigests(hash, es, fs, Hashed(hash, es) + Hashed(hash, fs));
  }

  lemma OuterTells(hash: Bytes -> Bytes, es: seq<Entry>, fs: seq<Entry>)
    requires HashOf(hash, es).Ok? && HashOf(hash, es) == HashOf(hash, fs)
    requires FullDigests(hash, es) && FullDigests(hash, fs)
    requires CollisionFreeOn(hash, Hashed(hash, es) + Hashed(hash, fs))
    ensures var a, b := SortBy(ByPath, DigestAll(hash, es)), SortBy(ByPath, DigestAll(hash, fs));
      |a| == |es| && |b| == |fs| && |a| == |b| && forall k :: 0 <= k < |a| ==> a[k].digest == b[k].digest
  {
    hide SortBy, DigestAll, EntryInput, Concat, ByPath;
    var a, b := SortBy(ByPath, DigestAll(hash, es)), SortBy(ByPath, DigestAll(hash, fs));
    assert OuterInput(hash, es) in Hashed(hash, es) && OuterInput(hash, fs) in Hashed(hash, fs);
    SortKeeps(ByPath, DigestAll(hash, es));
    SortKeeps(ByPath, DigestAll(hash, fs));
    AllFull(hash, es);
    AllFull(hash, fs);
    ConcatTells(a, b);
  }

  lemma AllFull(hash: Bytes -> Bytes, es: seq<Entry>)
    requires FullDigests(hash, es)
    ensures forall d :: d in SortBy(ByPath, DigestAll(hash, es)) ==> |d.digest| == DIGEST
  {
    hide SortBy, DigestAll, EntryInput;
    var sorted := SortBy(ByPath, DigestAll(hash, es));
    SortKeeps(ByPath, DigestAll(hash, es));
    forall d | d in sorted ensures |d.digest| == DIGEST {
      var k :| 0 <= k < |sorted| && sorted[k] == d;
      SortedIsDigest(hash, es, k);
    }
  }

  lemma AllHashed(hash: Bytes -> Bytes, es: seq<Entry>)
    ensures forall e :: e in es ==> EntryInput(e) in Hashed(hash, es)
  {
    hide EntryInput, OuterInput;
    forall e | e in es ensures EntryInput(e) in Hashed(hash, es) {
      var i :| 0 <= i < |es| && es[i] == e;
    }
  }

  lemma {:induction false} SameDigests(hash: Bytes -> Bytes, es: seq<Entry>, fs: seq<Entry>, inputs: set<Bytes>)
    requires NulFree(es) && NulFree(fs) && CollisionFreeOn(hash, inputs)
    requires (forall e :: e in es || e in fs ==> EntryInput(e) in inputs)
    requires multiset(DigestAll(hash, es)) == multiset(DigestAll(hash, fs))
    ensures multiset(es) == multiset(fs)
    decreases |es|
  {
    hide EntryInput, CollisionFreeOn, DigestAll, DigestOf;
    var ds, gs := DigestAll(hash, es), DigestAll(hash, fs);
    assert |ds| == |multiset(ds)| == |multiset(gs)| == |gs|;
    if es != [] {
      var k := Twin(hash, es, fs, inputs);
      var es', fs' := Rests(hash, es, 0, fs, k);
      assert forall e :: e in es' || e in fs' ==> e in es || e in fs;
      assert NulFree(es') && NulFree(fs') by {
        StillNulFree(es, es');
        StillNulFree(fs, fs');
      }
      SameDigests(hash, es', fs', inputs);
    }
  }

  lemma StillNulFree(es: seq<Entry>, some: seq<Entry>)
    requires NulFree(es) && forall e :: e in some ==> e in es
    ensures NulFree(some)
  {
    forall i | 0 <= i < |some| ensures 0 !in some[i].path {
      assert some[i] in es;
    }
  }

  /** Where the other side has the first entry, its digest being there. */
  lemma Twin(hash: Bytes -> Bytes, es: seq<Entry>, fs: seq<Entry>, inputs: set<Bytes>) returns (k: nat)
    requires es != [] && CollisionFreeOn(hash, inputs) && (forall e :: e in es || e in fs ==> EntryInput(e) in inputs)
    requires multiset(DigestAll(hash, es)) == multiset(DigestAll(hash, fs))
    ensures k < |fs| && fs[k] == es[0]
  {
    hide EntryInput, CollisionFreeOn, DigestAll;
    var ds, gs := DigestAll(hash, es), DigestAll(hash, fs);
    DigestAt(hash, es, 0);
    assert ds[0] in ds;
    SameElements(ds, gs, ds[0]);
    k :| 0 <= k < |gs| && gs[k] == ds[0];
    DigestAt(hash, fs, k);
    OneEntry(hash, inputs, es[0], fs[k]);
  }

  lemma OneEntry(hash: Bytes -> Bytes, inputs: set<Bytes>, x: Entry, y: Entry)
    requires CollisionFreeOn(hash, inputs) && EntryInput(x) in inputs && EntryInput(y) in inputs
    requires x.path == y.path && hash(EntryInput(x)) == hash(EntryInput(y))
    ensures x == y
  {
    assert EntryInput(x) == EntryInput(y);
    assert x.content == EntryInput(x)[|x.path| + 1..];
    assert y.content == EntryInput(y)[|y.path| + 1..];
  }
}
