/** The OP Stack blob encoding, version 0: decodeOpBlob of packages/audit/src/settlement-blobs.ts. */
module OpBlob {
  import opened Bytes

  const BLOB_BYTES: nat := 131072
  const MAX_DATA: nat := 130044
  const ROUNDS: nat := 1024

  // ------------------------------------------------------- one round, both directions

  /**
   * Four field elements, each a six-bit byte and 31 bytes, as 127 bytes: the four six-bit
   * bytes are three more bytes, put between the runs of 31.
   */
  function UnpackRound(f: Bytes): (v: Bytes)
    requires |f| == 128
    ensures |v| == 127
  {
    f[1..32] + [X(f[0], f[32])] + f[33..64] + [Y(f[32], f[96])] + f[65..96] + [Z(f[64], f[96])] + f[97..128]
  }

  function X(e0: byte, e1: byte): byte { e0 % 64 + 64 * (e1 / 16 % 4) }
  function Y(e1: byte, e3: byte): byte { e1 % 16 + 16 * (e3 % 16) }
  function Z(e2: byte, e3: byte): byte { e2 % 64 + 64 * (e3 / 16 % 4) }

  function E1(x: byte, y: byte): byte { 16 * (x / 64) + y % 16 }
  function E3(z: byte, y: byte): byte { 16 * (z / 64) + y / 16 }

  function PackRound(v: Bytes): (f: Bytes)
    requires |v| == 127
    ensures |f| == 128
  {
    var x, y, z := v[31], v[63], v[95];
    [x % 64] + v[0..31] + [E1(x, y)] + v[32..63] + [z % 64] + v[64..95] + [E3(z, y)] + v[96..127]
  }

  /** The four leading bytes of a round leave their top two bits clear. */
  predicate LowRound(f: Bytes)
    requires |f| == 128
  {
    f[0] < 64 && f[32] < 64 && f[64] < 64 && f[96] < 64
  }

  lemma Halves(a: nat, b: nat)
    requires a < 16 && b < 16
    ensures (16 * a + b) / 16 == a && (16 * a + b) % 16 == b
  {
  }

  lemma Quarters(a: nat, b: nat)
    requires a < 4 && b < 64
    ensures (64 * a + b) / 64 == a && (64 * a + b) % 64 == b && a % 4 == a && b % 64 == b
  {
  }

  lemma ThreeBytes(x: byte, y: byte, z: byte)
    ensures X(x % 64, E1(x, y)) == x && Y(E1(x, y), E3(z, y)) == y && Z(z % 64, E3(z, y)) == z
    ensures x % 64 < 64 && E1(x, y) < 64 && z % 64 < 64 && E3(z, y) < 64
  {
    Halves(x / 64, y % 16);
    Halves(z / 64, y / 16);
  }

  lemma FourSixes(e0: byte, e1: byte, e2: byte, e3: byte)
    requires e0 < 64 && e1 < 64 && e2 < 64 && e3 < 64
    ensures X(e0, e1) % 64 == e0 && Z(e2, e3) % 64 == e2
    ensures E1(X(e0, e1), Y(e1, e3)) == e1 && E3(Z(e2, e3), Y(e1, e3)) == e3
  {
    Quarters(e1 / 16, e0);
    Quarters(e3 / 16, e2);
    Halves(e3 % 16, e1 % 16);
  }

  lemma UnpackPackRound(v: Bytes)
    requires |v| == 127
    ensures LowRound(PackRound(v)) && UnpackRound(PackRound(v)) == v
  {
    hide X, Y, Z, E1, E3;
    ThreeBytes(v[31], v[63], v[95]);
    var f := PackRound(v);
    assert f[1..32] == v[0..31] && f[33..64] == v[32..63] && f[65..96] == v[64..95] && f[97..128] == v[96..127];
    assert v == v[0..31] + [v[31]] + v[32..63] + [v[63]] + v[64..95] + [v[95]] + v[96..127];
  }

  lemma PackUnpackRound(f: Bytes)
    requires |f| == 128 && LowRound(f)
    ensures PackRound(UnpackRound(f)) == f
  {
    hide X, Y, Z, E1, E3;
    FourSixes(f[0], f[32], f[64], f[96]);
    var v := UnpackRound(f);
    assert v[0..31] == f[1..32] && v[32..63] == f[33..64] && v[64..95] == f[65..96] && v[96..127] == f[97..128];
    assert f == [f[0]] + f[1..32] + [f[32]] + f[33..64] + [f[64]] + f[65..96] + [f[96]] + f[97..128];
  }

  // ----------------------------------------------------------------------- many rounds

  function Unpack(b: Bytes, n: nat): (v: Bytes)
    requires |b| == 128 * n
    ensures |v| == 127 * n
  {
    if n == 0 then [] else Unpack(b[..128 * (n - 1)], n - 1) + UnpackRound(b[128 * (n - 1)..])
  }

  function Pack(v: Bytes, n: nat): (b: Bytes)
    requires |v| == 127 * n
    ensures |b| == 128 * n
  {
    if n == 0 then [] else Pack(v[..127 * (n - 1)], n - 1) + PackRound(v[127 * (n - 1)..])
  }

  predicate Low(b: Bytes, n: nat)
    requires |b| == 128 * n
  {
    n == 0 || (Low(b[..128 * (n - 1)], n - 1) && LowRound(b[128 * (n - 1)..]))
  }

  lemma {:induction false} UnpackPack(v: Bytes, n: nat)
    requires |v| == 127 * n
    ensures Low(Pack(v, n), n) && Unpack(Pack(v, n), n) == v
  {
    hide UnpackRound, PackRound, LowRound;
    if n > 0 {
      var head, tail := v[..127 * (n - 1)], v[127 * (n - 1)..];
      UnpackPack(head, n - 1);
      UnpackPackRound(tail);
      var b := Pack(v, n);
      assert b[..128 * (n - 1)] == Pack(head, n - 1) && b[128 * (n - 1)..] == PackRound(tail);
      assert v == head + tail;
    }
  }

  lemma {:induction false} PackUnpack(b: Bytes, n: nat)
    requires |b| == 128 * n && Low(b, n)
    ensures Pack(Unpack(b, n), n) == b
  {
    hide UnpackRound, PackRound, LowRound;
    if n > 0 {
      var head, tail := b[..128 * (n - 1)], b[128 * (n - 1)..];
      PackUnpack(head, n - 1);
      PackUnpackRound(tail);
      var v := Unpack(b, n);
      assert v[..127 * (n - 1)] == Unpack(head, n - 1) && v[127 * (n - 1)..] == UnpackRound(tail);
      assert b == head + tail;
    }
  }

  ghost predicate AllZero(s: Bytes) {
    forall i :: 0 <= i < |s| ==> s[i] == 0
  }

  lemma ZeroConcat(a: Bytes, b: Bytes)
    ensures AllZero(a + b) <==> AllZero(a) && AllZero(b)
  {
    if AllZero(a + b) {
      assert forall i :: 0 <= i < |a| ==> (a + b)[i] == a[i];
      assert forall i :: 0 <= i < |b| ==> (a + b)[|a| + i] == b[i];
    }
  }

  lemma ZeroByte(x: byte)
    ensures AllZero([x]) <==> x == 0
  {
    assert [x][0] == x;
  }

  lemma ZeroSeven(a: Bytes, x: byte, b: Bytes, y: byte, c: Bytes, z: byte, d: Bytes)
    ensures AllZero(a + [x] + b + [y] + c + [z] + d) <==>
      AllZero(a) && AllZero(b) && AllZero(c) && AllZero(d) && x == y == z == 0
  {
    hide AllZero;
    ZeroByte(x);
    ZeroByte(y);
    ZeroByte(z);
    ZeroConcat(a, [x]);
    ZeroConcat(a + [x], b);
    ZeroConcat(a + [x] + b, [y]);
    ZeroConcat(a + [x] + b + [y], c);
    ZeroConcat(a + [x] + b + [y] + c, [z]);
    ZeroConcat(a + [x] + b + [y] + c + [z], d);
  }

  lemma ZeroSixes(e0: byte, e1: byte, e2: byte, e3: byte)
    ensures e0 == e1 == e2 == e3 == 0 <==>
      e0 < 64 && e1 < 64 && e2 < 64 && e3 < 64 && X(e0, e1) == Y(e1, e3) == Z(e2, e3) == 0
  {
    hide X, Y, Z, E1, E3;
    ZeroValues();
    if e0 < 64 && e1 < 64 && e2 < 64 && e3 < 64 && X(e0, e1) == Y(e1, e3) == Z(e2, e3) == 0 {
      FourSixes(e0, e1, e2, e3);
    }
  }

  lemma ZeroValues()
    ensures X(0, 0) == Y(0, 0) == Z(0, 0) == E1(0, 0) == E3(0, 0) == 0
  {
    hide X, Y, Z, E1, E3;
    ThreeBytes(0, 0, 0);
    ZeroParts();
    assert 0 % 64 == 0;
  }

  lemma ZeroParts()
    ensures E1(0, 0) == 0 && E3(0, 0) == 0
  {
  }

  lemma ZeroRound(f: Bytes)
    requires |f| == 128
    ensures AllZero(f) <==> LowRound(f) && AllZero(UnpackRound(f))
  {
    hide AllZero, X, Y, Z;
    var a, b, c, d := f[1..32], f[33..64], f[65..96], f[97..128];
    ZeroSeven(a, X(f[0], f[32]), b, Y(f[32], f[96]), c, Z(f[64], f[96]), d);
    ZeroSeven(a, f[32], b, f[64], c, f[96], d);
    ZeroConcat([f[0]], a + [f[32]] + b + [f[64]] + c + [f[96]] + d);
    ZeroByte(f[0]);
    assert f == [f[0]] + (a + [f[32]] + b + [f[64]] + c + [f[96]] + d);
    ZeroSixes(f[0], f[32], f[64], f[96]);
  }

  // ---------------------------------------------------------------- the whole encoding

  /** The encoding of a payload: version, length, payload and zeros, packed. */
  function OpEncode(data: Bytes): (blob: Bytes)
    requires |data| <= MAX_DATA
    ensures |blob| == BLOB_BYTES
  {
    Pack(Framed(data), ROUNDS)
  }

  function Framed(data: Bytes): (v: Bytes)
    requires |data| <= MAX_DATA
    ensures |v| == 127 * ROUNDS
  {
    [0] + BeBytes(|data|, 3) + data + Zeros(MAX_DATA - |data|)
  }

  /** A blob the version-0 encoding produced, and its payload. */
  ghost predicate Accepted(blob: Bytes, data: Bytes) {
    && |blob| == BLOB_BYTES && Low(blob, ROUNDS)
    && var v := Unpack(blob, ROUNDS);
       && v[0] == 0 && BeNat(v[1..4]) == |data| <= MAX_DATA
       && v[4..4 + |data|] == data && AllZero(v[4 + |data|..])
  }

  /** A blob is accepted with a payload exactly when it is that payload's encoding. */
  lemma AcceptedIsEncoded(blob: Bytes, data: Bytes)
    ensures Accepted(blob, data) <==> |data| <= MAX_DATA && blob == OpEncode(data)
  {
    hide Pack, Unpack, Low, BeBytes, BeNat;
    if Accepted(blob, data) {
      var v := Unpack(blob, ROUNDS);
      BeBytesOfBeNat(v[1..4]);
      assert v[4 + |data|..] == Zeros(MAX_DATA - |data|);
      assert v == [v[0]] + v[1..4] + v[4..4 + |data|] + v[4 + |data|..];
      PackUnpack(blob, ROUNDS);
    }
    if |data| <= MAX_DATA && blob == OpEncode(data) {
      var v := Framed(data);
      UnpackPack(v, ROUNDS);
      assert v[1..4] == BeBytes(|data|, 3) && v[4..4 + |data|] == data && v[4 + |data|..] == Zeros(MAX_DATA - |data|);
      ThreeBytesHold(|data|);
    }
  }

  lemma ThreeBytesHold(n: nat)
    requires n <= MAX_DATA
    ensures BeNat(BeBytes(n, 3)) == n
  {
    hide BeNat, BeBytes;
    assert Pow256(3) == 0x100_0000;
    BeNatOfBeBytes(n, 3);
  }

  /** Two accepted blobs with the same payload are the same blob. */
  lemma OneBlobPerPayload(a: Bytes, b: Bytes, data: Bytes)
    requires Accepted(a, data) && Accepted(b, data)
    ensures a == b
  {
    hide Accepted, OpEncode;
    AcceptedIsEncoded(a, data);
    AcceptedIsEncoded(b, data);
  }

  // ------------------------------------------------------------------- as it runs

  /** The 31 bytes of the field element at `ipos`, put at `opos`; its leading byte must leave its top two bits clear. */
  method FieldElement(blob: Bytes, ipos: nat, out: array<byte>, opos: nat) returns (r: Result<byte>)
    requires ipos + 32 <= |blob| && opos + 31 <= out.Length
    modifies out
    ensures r == if blob[ipos] < 64 then Ok(blob[ipos]) else Err
    ensures r.Ok? ==> out[..] == Put(old(out[..]), opos, blob[ipos + 1..ipos + 32])
  {
    if blob[ipos] / 64 != 0 {
      return Err;
    }
    forall k | 0 <= k < 31 {
      out[opos + k] := blob[ipos + 1 + k];
    }
    r := Ok(blob[ipos]);
  }

  /** What one round leaves in the output from its second field element on. */
  lemma RoundTail(f: Bytes)
    requires |f| == 128
    ensures UnpackRound(f)[..31] == f[1..32]
    ensures UnpackRound(f)[31..] ==
      [X(f[0], f[32])] + f[33..64] + [Y(f[32], f[96])] + f[65..96] + [Z(f[64], f[96])] + f[97..128]
  {
    hide X, Y, Z;
  }

  /** The three bytes the leading six-bit bytes make, put in their places. */
  method Reassemble(out: array<byte>, opos: nat, enc: seq<byte>)
    requires |enc| == 4 && 96 <= opos < out.Length
    modifies out
    ensures out[..] ==
      old(out[..])[opos - 32 := Z(enc[2], enc[3])][opos - 64 := Y(enc[1], enc[3])][opos - 96 := X(enc[0], enc[1])]
  {
    out[opos - 32] := Z(enc[2], enc[3]);
    out[opos - 64] := Y(enc[1], enc[3]);
    out[opos - 96] := X(enc[0], enc[1]);
  }

  /** The rest of a round whose first field element is read: the other three, and the bytes between. */
  method FinishRound(blob: Bytes, ipos: nat, out: array<byte>, opos: nat) returns (ok: bool)
    requires 32 <= ipos && ipos + 96 <= |blob| && 28 <= opos && opos + 96 <= out.Length
    requires blob[ipos - 32] < 64
    modifies out
    ensures ok == LowRound(blob[ipos - 32..ipos + 96])
    ensures ok ==> out[..] == Put(old(out[..]), opos - 1, UnpackRound(blob[ipos - 32..ipos + 96])[31..])
  {
    hide X, Y, Z, UnpackRound, Put;
    ghost var f, was := blob[ipos - 32..ipos + 96], out[..];
    RoundTail(f);
    var e1 := FieldElement(blob, ipos, out, opos);
    if e1.Err? {
      return false;
    }
    var e2 := FieldElement(blob, ipos + 32, out, opos + 32);
    if e2.Err? {
      return false;
    }
    var e3 := FieldElement(blob, ipos + 64, out, opos + 64);
    if e3.Err? {
      return false;
    }
    Reassemble(out, opos + 95, [blob[ipos - 32], e1.value, e2.value, e3.value]);
    ok := true;
    assert f[33..64] == blob[ipos + 1..ipos + 32] && f[65..96] == blob[ipos + 33..ipos + 64] &&
      f[97..128] == blob[ipos + 65..ipos + 96];
    PiecesInPlace(was, f, opos);
  }

  lemma PiecesInPlace(was: Bytes, f: Bytes, opos: nat)
    requires |f| == 128 && 28 <= opos && opos + 96 <= |was|
    ensures Put(Put(Put(was, opos, f[33..64]), opos + 32, f[65..96]), opos + 64, f[97..128])
              [opos + 63 := Z(f[64], f[96])][opos + 31 := Y(f[32], f[96])][opos - 1 := X(f[0], f[32])]
            == Put(was, opos - 1, UnpackRound(f)[31..])
  {
    hide X, Y, Z, UnpackRound;
    RoundTail(f);
    var fes := Put(Put(Put(was, opos, f[33..64]), opos + 32, f[65..96]), opos + 64, f[97..128]);
    assert fes == was[..opos] + f[33..64] + was[opos + 31..opos + 32] + f[65..96] + was[opos + 63..opos + 64] +
      f[97..128] + was[opos + 95..];
  }

  /** Whether all of `s` from `i` up to `j` is zero. */
  method ZeroBetween(s: Bytes, i: nat, j: nat) returns (zero: bool)
    requires i <= j <= |s|
    ensures zero <==> AllZero(s[i..j])
  {
    var k := i;
    while k < j
      invariant i <= k <= j
      invariant forall m :: i <= m < k ==> s[m] == 0
    {
      if s[k] != 0 {
        assert s[i..j][k - i] != 0;
        return false;
      }
      k := k + 1;
    }
    zero := true;
  }

  /**
   * What is known after `n` rounds: they are all low, and the output holds what they unpack to, but for the four header
   * bytes.
   */
  ghost predicate RoundsRead(blob: Bytes, out: Bytes, n: nat) {
    && 1 <= n <= ROUNDS && |blob| == BLOB_BYTES && |out| == MAX_DATA + 128
    && Low(blob[..128 * n], n)
    && Unpack(blob[..128 * n], n)[4..] == out[..127 * n - 4]
  }

  method FirstRound(blob: Bytes, out: array<byte>) returns (ok: bool)
    requires |blob| == BLOB_BYTES && out.Length == MAX_DATA + 128
    modifies out
    ensures ok == LowRound(blob[..128])
    ensures ok ==> RoundsRead(blob, out[..], 1)
  {
    hide UnpackRound, Low, Unpack;
    if blob[0] / 64 != 0 {
      return false;
    }
    forall k | 0 <= k < 27 {
      out[k] := blob[5 + k];
    }
    ghost var was := out[..];
    assert was[..27] == blob[5..32];
    ok := FinishRound(blob, 32, out, 28);
    assert blob[0..128] == blob[..128];
    if ok {
      ghost var f := blob[..128];
      RoundTail(f);
      assert f[1..32] == blob[1..32];
      assert UnpackRound(f) == UnpackRound(f)[..31] + UnpackRound(f)[31..];
      OneRound(f);
    }
  }

  lemma OneRound(f: Bytes)
    requires |f| == 128
    ensures Unpack(f, 1) == UnpackRound(f) && Low(f, 1) == LowRound(f)
  {
    hide UnpackRound, LowRound;
    assert f[..0] == [] && f[0..] == f;
    assert Unpack([], 0) == [] && Low([], 0);
  }

  lemma OneMoreRound(blob: Bytes, n: nat)
    requires 128 * (n + 1) <= |blob|
    ensures var f := blob[128 * n..128 * n + 128];
            && Unpack(blob[..128 * (n + 1)], n + 1) == Unpack(blob[..128 * n], n) + UnpackRound(f)
            && (Low(blob[..128 * (n + 1)], n + 1) <==> Low(blob[..128 * n], n) && LowRound(f))
  {
    hide UnpackRound, LowRound;
    var b := blob[..128 * (n + 1)];
    assert b[..128 * n] == blob[..128 * n] && b[128 * n..] == blob[128 * n..128 * n + 128];
  }

  method NextRound(blob: Bytes, out: array<byte>, n: nat) returns (ok: bool)
    requires n < ROUNDS && RoundsRead(blob, out[..], n)
    modifies out
    ensures ok == LowRound(blob[128 * n..128 * n + 128])
    ensures ok ==> RoundsRead(blob, out[..], n + 1)
  {
    hide UnpackRound, Low, Unpack, Put, RoundsRead, LowRound;
    RoundsReadSizes(blob, out[..], n);
    var ipos, opos := 128 * n, 127 * n - 4;
    ghost var f, was := blob[ipos..ipos + 128], out[..];
    var e0 := FieldElement(blob, ipos, out, opos);
    if e0.Err? {
      FirstOfRound(blob, ipos);
      return false;
    }
    ok := FinishRound(blob, ipos + 32, out, opos + 32);
    if ok {
      SliceOfSlice(blob, ipos, ipos + 128, 1, 32);
      NextRoundRead(blob, was, n, out[..]);
    }
  }

  lemma RoundsReadSizes(blob: Bytes, out: Bytes, n: nat)
    requires RoundsRead(blob, out, n)
    ensures |blob| == BLOB_BYTES && |out| == MAX_DATA + 128 && 1 <= n
  {
  }

  lemma FirstOfRound(blob: Bytes, ipos: nat)
    requires ipos + 128 <= |blob| && blob[ipos] >= 64
    ensures !LowRound(blob[ipos..ipos + 128])
  {
  }

  lemma NextRoundRead(blob: Bytes, was: Bytes, n: nat, now: Bytes)
    requires n < ROUNDS && RoundsRead(blob, was, n)
    requires var f, opos := blob[128 * n..128 * n + 128], 127 * n - 4;
             LowRound(f) && now == Put(Put(was, opos, f[1..32]), opos + 31, UnpackRound(f)[31..])
    ensures RoundsRead(blob, now, n + 1)
  {
    hide UnpackRound, Low, Unpack, Put, LowRound;
    var f, opos := blob[128 * n..128 * n + 128], 127 * n - 4;
    OneMoreRound(blob, n);
    RoundInPlace(was, f, opos);
    assert Unpack(blob[..128 * (n + 1)], n + 1)[4..] == Unpack(blob[..128 * n], n)[4..] + UnpackRound(f);
  }

  lemma RoundInPlace(was: Bytes, f: Bytes, opos: nat)
    requires |f| == 128 && opos + 128 <= |was|
    ensures Put(Put(was, opos, f[1..32]), opos + 31, UnpackRound(f)[31..])[..opos + 127] == was[..opos] + UnpackRound(f)
  {
    hide UnpackRound;
    RoundTail(f);
    assert UnpackRound(f) == UnpackRound(f)[..31] + UnpackRound(f)[31..];
  }

  /** The rounds that were not read are zero exactly when they are low and unpack to zero. */
  lemma {:induction false} ZeroRest(blob: Bytes, n: nat, rounds: nat)
    requires n <= rounds && |blob| == 128 * rounds
    ensures Low(blob, rounds) ==> Low(blob[..128 * n], n)
    ensures Unpack(blob, rounds)[..127 * n] == Unpack(blob[..128 * n], n)
    ensures AllZero(blob[128 * n..]) && Low(blob[..128 * n], n) <==>
      Low(blob, rounds) && AllZero(Unpack(blob, rounds)[127 * n..])
    decreases rounds
  {
    hide UnpackRound, LowRound, AllZero;
    if n == rounds {
      assert blob[..128 * n] == blob;
      assert blob[128 * n..] == [] && Unpack(blob, rounds)[127 * n..] == [];
      NoneZero();
    } else {
      var head, f := blob[..128 * (rounds - 1)], blob[128 * (rounds - 1)..];
      ZeroRest(head, n, rounds - 1);
      assert head[..128 * n] == blob[..128 * n];
      assert blob[128 * n..] == head[128 * n..] + f;
      assert Unpack(blob, rounds)[127 * n..] == Unpack(head, rounds - 1)[127 * n..] + UnpackRound(f);
      ZeroConcat(head[128 * n..], f);
      ZeroConcat(Unpack(head, rounds - 1)[127 * n..], UnpackRound(f));
      ZeroRound(f);
    }
  }

  lemma NoneZero()
    ensures AllZero([])
  {
  }

  lemma SameFront(v: Bytes, i: nat, j: nat, out: Bytes, k: nat)
    requires i + k <= j <= |v| && j - i <= |out| && v[i..j] == out[..j - i]
    ensures v[i..i + k] == out[..k]
  {
    assert v[i..j][..k] == v[i..i + k] && out[..j - i][..k] == out[..k];
  }

  lemma SameBack(v: Bytes, i: nat, j: nat, out: Bytes, k: nat)
    requires i + k <= j <= |v| && j - i <= |out| && v[i..j] == out[..j - i]
    ensures v[i + k..j] == out[k..j - i]
  {
    assert v[i..j][k..] == v[i + k..j] && out[..j - i][k..] == out[k..j - i];
  }

  /** Once enough rounds are read, what is left to check is that the rest is zero. */
  lemma AcceptedAfter(blob: Bytes, out: Bytes, n: nat, outLen: nat)
    requires RoundsRead(blob, out, n) && (outLen <= 127 * n - 4 || n == ROUNDS) && outLen <= MAX_DATA
    requires blob[1] == 0 && outLen == BeNat(blob[2..5])
    ensures Accepted(blob, out[..outLen]) <==> AllZero(out[outLen..127 * n - 4]) && AllZero(blob[128 * n..])
  {
    hide Unpack, Low, AllZero, BeNat;
    var v := Unpack(blob, ROUNDS);
    ZeroRest(blob, n, ROUNDS);
    HeaderBytes(blob);
    assert v[4..127 * n] == v[..127 * n][4..] == out[..127 * n - 4];
    SameFront(v, 4, 127 * n, out, outLen);
    assert out[outLen..127 * n - 4] == v[4 + outLen..127 * n] by { SameBack(v, 4, 127 * n, out, outLen); }
    assert v[4 + outLen..] == out[outLen..127 * n - 4] + v[127 * n..];
    ZeroConcat(out[outLen..127 * n - 4], v[127 * n..]);
  }

  lemma HeaderBytes(blob: Bytes)
    requires |blob| == BLOB_BYTES
    ensures var v := Unpack(blob, ROUNDS); v[0] == blob[1] && v[1..4] == blob[2..5]
  {
    hide Unpack, Low, AllZero, UnpackRound;
    ZeroRest(blob, 1, ROUNDS);
    var f, v := blob[..128], Unpack(blob, ROUNDS);
    OneRound(f);
    RoundTail(f);
    assert v[..127] == UnpackRound(f);
    assert v[..31] == v[..127][..31] == f[1..32];
    assert v[0] == v[..31][0] && v[1..4] == v[..31][1..4];
    assert f[1..32][0] == f[1] == blob[1];
    SliceOfSlice(f, 1, 32, 1, 4);
    SliceOfSlice(blob, 0, 128, 2, 5);
    assert blob[0..128] == f;
  }

  lemma WrongHeader(blob: Bytes)
    requires |blob| == BLOB_BYTES && (blob[1] != 0 || BeNat(blob[2..5]) > MAX_DATA)
    ensures forall data :: !Accepted(blob, data)
  {
    hide Unpack, Low, AllZero, BeNat;
    HeaderBytes(blob);
  }

  lemma WrongRound(blob: Bytes, n: nat)
    requires |blob| == BLOB_BYTES && n < ROUNDS && !LowRound(blob[128 * n..128 * n + 128])
    ensures forall data :: !Accepted(blob, data)
  {
    hide Unpack, Low, AllZero, LowRound, BeNat;
    ZeroRest(blob, n + 1, ROUNDS);
    OneMoreRound(blob, n);
  }

  /** Whatever payload the blob could have, it is the bytes at the front of the output. */
  lemma OnlyPayload(blob: Bytes, out: Bytes, n: nat, outLen: nat)
    requires RoundsRead(blob, out, n) && outLen <= 127 * n - 4 && outLen <= MAX_DATA && outLen == BeNat(blob[2..5])
    ensures forall data :: Accepted(blob, data) ==> data == out[..outLen]
  {
    hide Unpack, Low, AllZero, BeNat;
    var v := Unpack(blob, ROUNDS);
    ZeroRest(blob, n, ROUNDS);
    HeaderBytes(blob);
    assert v[4..127 * n] == v[..127 * n][4..] == out[..127 * n - 4];
    SameFront(v, 4, 127 * n, out, outLen);
  }

  lemma ThreeByteLength(b: Bytes, high: nat, middle: nat, low: nat)
    requires |b| == 3 && b[0] == high && b[1] == middle && b[2] == low
    ensures BeNat(b) == high * 65536 + middle * 256 + low
  {
    assert Init(b) == b[..2] && Init(b[..2]) == b[..1] && Init(b[..1]) == [];
    assert BeNat(b[..1]) == high;
    assert BeNat(b[..2]) == 256 * high + middle;
  }

  /** The payload of a blob, or a refusal: accepted are exactly the encodings. */
  method DecodeOpBlob(blob: Bytes) returns (r: Result<Bytes>)
    ensures r.Ok? ==> Accepted(blob, r.value)
    ensures r.Err? ==> forall data :: !Accepted(blob, data)
  {
    hide Unpack, Low, AllZero, LowRound, BeNat;
    if |blob| != BLOB_BYTES {
      return Err;
    }
    var high: nat, middle: nat, low: nat := blob[2], blob[3], blob[4];
    var outLen := high * 65536 + middle * 256 + low;
    ThreeByteLength(blob[2..5], high, middle, low);
    if blob[1] != 0 || outLen > MAX_DATA {
      WrongHeader(blob);
      return Err;
    }
    r := DecodeRounds(blob, outLen);
  }

  /** The rounds, as many as the payload takes, and the zeros after it. */
  method DecodeRounds(blob: Bytes, outLen: nat) returns (r: Result<Bytes>)
    requires |blob| == BLOB_BYTES && blob[1] == 0 && outLen == BeNat(blob[2..5]) && outLen <= MAX_DATA
    ensures r.Ok? ==> Accepted(blob, r.value)
    ensures r.Err? ==> forall data :: !Accepted(blob, data)
  {
    hide Unpack, Low, AllZero, LowRound, RoundsRead, Accepted, BeNat;
    var out := new byte[MAX_DATA + 128](_ => 0);
    var ok := FirstRound(blob, out);
    if !ok {
      assert blob[0..128] == blob[..128];
      WrongRound(blob, 0);
      return Err;
    }
    var round := 1;
    while round < ROUNDS && 127 * round - 4 < outLen
      invariant 1 <= round <= ROUNDS && RoundsRead(blob, out[..], round)
    {
      ok := NextRound(blob, out, round);
      if !ok {
        WrongRound(blob, round);
        return Err;
      }
      round := round + 1;
    }
    var opos, ipos := 127 * round - 4, 128 * round;
    AcceptedAfter(blob, out[..], round, outLen);
    OnlyPayload(blob, out[..], round, outLen);
    var padding := ZeroBetween(out[..], outLen, opos);
    if !padding {
      return Err;
    }
    assert blob[ipos..BLOB_BYTES] == blob[ipos..];
    var rest := ZeroBetween(blob, ipos, BLOB_BYTES);
    if !rest {
      return Err;
    }
    r := Ok(out[..outLen]);
  }
}
