/** Bytes, byte strings and the big-endian numbers every reader here decodes. */
module Bytes {

  type byte = b: int | 0 <= b < 256
  type Bytes = seq<byte>

  /** The answer of an operation that may have none. */
  datatype Option<+T> = None | Some(value: T)

  /** The outcome of an operation that may throw. */
  datatype Result<+T> = Ok(value: T) | Err

  /** What a loop has so far, before what the rest of it gives. */
  function FollowedBy<T>(done: seq<T>, rest: Result<seq<T>>): Result<seq<T>> {
    match rest
    case Err => Err
    case Ok(more) => Ok(done + more)
  }

  lemma FollowsNothing<T>(rest: Result<seq<T>>)
    ensures FollowedBy([], rest) == rest
  {
    if rest.Ok? {
      assert [] + rest.value == rest.value;
    }
  }

  lemma FollowsTwice<T>(a: seq<T>, b: seq<T>, rest: Result<seq<T>>)
    ensures FollowedBy(a, FollowedBy(b, rest)) == FollowedBy(a + b, rest)
  {
    if rest.Ok? {
      assert a + (b + rest.value) == (a + b) + rest.value;
    }
  }

  function Zeros(n: nat): (z: Bytes)
    ensures |z| == n && forall i :: 0 <= i < n ==> z[i] == 0
  {
    seq(n, _ => 0)
  }

  function Last<T>(s: seq<T>): T
    requires s != []
  {
    s[|s| - 1]
  }

  function Init<T>(s: seq<T>): seq<T>
    requires s != []
  {
    s[..|s| - 1]
  }

  /** Chunks, one after the other. */
  function Flat(chunks: seq<Bytes>): Bytes {
    if chunks == [] then [] else chunks[0] + Flat(chunks[1..])
  }

  lemma {:induction false} FlatSnoc(chunks: seq<Bytes>, c: Bytes)
    ensures Flat(chunks + [c]) == Flat(chunks) + c
  {
    if chunks == [] {
      assert [c][1..] == [];
    } else {
      FlatSnoc(chunks[1..], c);
      assert (chunks + [c])[1..] == chunks[1..] + [c];
    }
  }

  lemma FlatHead(chunks: seq<Bytes>)
    requires chunks != []
    ensures Flat(chunks) == chunks[0] + Flat(chunks[1..])
  {
  }

  /** `s` with `piece` written over it from `at` on. */
  function Put(s: Bytes, at: nat, piece: Bytes): (t: Bytes)
    requires at + |piece| <= |s|
    ensures |t| == |s|
  {
    s[..at] + piece + s[at + |piece|..]
  }

  lemma SliceOfSlice<T>(s: seq<T>, i: nat, j: nat, a: nat, b: nat)
    requires i <= j <= |s| && a <= b <= j - i
    ensures s[i..j][a..b] == s[i + a..i + b]
  {
    forall k | 0 <= k < b - a ensures s[i..j][a..b][k] == s[i + a..i + b][k] {
      assert s[i..j][a..b][k] == s[i..j][a + k];
    }
  }

  /** No two of the inputs share a hash. */
  ghost predicate CollisionFreeOn(hash: Bytes -> Bytes, inputs: set<Bytes>) {
    forall a, b :: a in inputs && b in inputs && hash(a) == hash(b) ==> a == b
  }

  lemma OneInput(hash: Bytes -> Bytes, inputs: set<Bytes>, a: Bytes, b: Bytes)
    requires CollisionFreeOn(hash, inputs) && a in inputs && b in inputs && hash(a) == hash(b)
    ensures a == b
  {
  }

  /** 256 to the power `n`. */
  function Pow256(n: nat): (p: nat)
    ensures p >= 1
  {
    if n == 0 then 1 else 256 * Pow256(n - 1)
  }

  /** A byte string read as a big-endian number. */
  function BeNat(bs: Bytes): (n: nat)
    ensures n < Pow256(|bs|)
  {
    if bs == [] then 0 else 256 * BeNat(Init(bs)) + Last(bs)
  }

  /** `n` as `width` big-endian bytes (the low ones, when it needs more). */
  function BeBytes(n: nat, width: nat): (bs: Bytes)
    ensures |bs| == width
  {
    if width == 0 then [] else BeBytes(n / 256, width - 1) + [n % 256]
  }

  /** `n` in as few big-endian bytes as it takes; zero takes none. */
  function MinBe(n: nat): (bs: Bytes)
    ensures bs != [] ==> bs[0] != 0
  {
    if n == 0 then [] else MinBe(n / 256) + [n % 256]
  }

  lemma DivMod256(a: nat, b: byte)
    ensures (256 * a + b) / 256 == a && (256 * a + b) % 256 == b
  {
  }

  lemma {:induction false} BeNatOfBeBytes(n: nat, width: nat)
    requires n < Pow256(width)
    ensures BeNat(BeBytes(n, width)) == n
  {
    if width > 0 {
      BeNatOfBeBytes(n / 256, width - 1);
      assert Init(BeBytes(n, width)) == BeBytes(n / 256, width - 1);
    }
  }

  lemma {:induction false} BeBytesOfBeNat(bs: Bytes)
    ensures BeBytes(BeNat(bs), |bs|) == bs
  {
    if bs != [] {
      BeBytesOfBeNat(Init(bs));
      DivMod256(BeNat(Init(bs)), Last(bs));
      assert bs == Init(bs) + [Last(bs)];
    }
  }

  lemma {:induction false} BeNatOfMinBe(n: nat)
    ensures BeNat(MinBe(n)) == n
  {
    if n > 0 {
      BeNatOfMinBe(n / 256);
      assert Init(MinBe(n)) == MinBe(n / 256);
    }
  }

  lemma Snoc<T>(s: seq<T>, x: T)
    ensures Init(s + [x]) == s && Last(s + [x]) == x
  {
  }

  lemma MinBeSnoc(n: nat, b: byte)
    requires n > 0 || b > 0
    ensures MinBe(256 * n + b) == MinBe(n) + [b]
  {
    DivMod256(n, b);
  }

  lemma {:induction false} BeNatPositive(bs: Bytes)
    requires bs != [] && bs[0] != 0
    ensures BeNat(bs) > 0
  {
    if |bs| > 1 {
      BeNatPositive(Init(bs));
    }
  }

  /** A byte string without a leading zero is the shortest form of its number. */
  lemma {:induction false} MinBeOfBeNat(bs: Bytes)
    requires bs != [] ==> bs[0] != 0
    ensures MinBe(BeNat(bs)) == bs
  {
    hide MinBe;
    if bs == [] {
      assert MinBe(0) == [] by { MinBeZero(); }
    } else {
      if |bs| > 1 {
        BeNatPositive(Init(bs));
      }
      MinBeOfBeNat(Init(bs));
      MinBeSnoc(BeNat(Init(bs)), Last(bs));
      assert bs == Init(bs) + [Last(bs)];
    }
  }

  lemma MinBeZero()
    ensures MinBe(0) == []
  {
  }

  lemma {:induction false} MinBeLength(n: nat, width: nat)
    requires n < Pow256(width)
    ensures |MinBe(n)| <= width
  {
    if n > 0 {
      MinBeLength(n / 256, width - 1);
    }
  }

  /** No byte string is a shorter name for the number than its shortest form. */
  lemma {:induction false} MinBeShortest(bs: Bytes)
    ensures |MinBe(BeNat(bs))| <= |bs|
  {
    MinBeLength(BeNat(bs), |bs|);
  }

  /** The bytes `e` stand in `buf` from position `p` on. */
  ghost predicate At(buf: Bytes, p: nat, e: Bytes) {
    p + |e| <= |buf| && buf[p..p + |e|] == e
  }

  lemma AtConcat(buf: Bytes, p: nat, a: Bytes, b: Bytes)
    ensures At(buf, p, a + b) <==> At(buf, p, a) && At(buf, p + |a|, b)
  {
    if At(buf, p, a + b) {
      var e := a + b;
      assert buf[p..p + |a|] == buf[p..p + |e|][..|a|] == e[..|a|] == a;
      assert buf[p + |a|..p + |e|] == buf[p..p + |e|][|a|..] == e[|a|..] == b;
    }
    if At(buf, p, a) && At(buf, p + |a|, b) {
      assert buf[p..p + |a + b|] == buf[p..p + |a|] + buf[p + |a|..p + |a| + |b|];
    }
  }

  lemma AtIs(buf: Bytes, p: nat, e: Bytes)
    requires At(buf, p, e)
    ensures p + |e| <= |buf| && buf[p..p + |e|] == e
  {
  }

  lemma AtNothing(buf: Bytes, p: nat)
    requires p <= |buf|
    ensures At(buf, p, [])
  {
  }

  lemma AtSlice(buf: Bytes, p: nat, q: nat)
    requires p <= q <= |buf|
    ensures At(buf, p, buf[p..q])
  {
  }

  /** Standing at a position fixes the bytes there. */
  lemma AtByte(buf: Bytes, p: nat, e: Bytes, i: nat)
    requires At(buf, p, e) && i < |e|
    ensures buf[p + i] == e[i]
  {
    assert buf[p..p + |e|][i] == e[i];
  }
}
