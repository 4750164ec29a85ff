/** The placements of spec/tools/check.py: how an original and its slot commitment become the committed bytes. */
module Placement {
  import opened Bytes
  import opened Numerals
  import opened TarNumbers
  import opened TarHeader
  import opened TarArchive

  const MARK: Bytes := [66, 71, 70, 85, 83, 69, 48, 49]
  const MANIFEST: Bytes := [98, 105, 116, 103, 114, 97, 112, 104, 45, 102, 117, 115, 101, 47, 109, 97, 110, 105, 102,
    101, 115, 116, 46, 106, 115, 111, 110]
  const ORIGINAL: Bytes := [98, 105, 116, 103, 114, 97, 112, 104, 45, 102, 117, 115, 101, 47, 111, 114, 105, 103, 105,
    110, 97, 108]

  /** SHA-256, and the manifest text made of a commitment and an original's hash. */
  datatype Env = Env(hash: Bytes -> Bytes, payload: (Bytes, Bytes) -> Bytes)

  // ------------------------------------------------------------------------- written

  const MODE: Bytes := [48, 48, 48, 48, 54, 52, 52, 0]
  const NOBODY: Bytes := [48, 48, 48, 48, 48, 48, 48, 0]

  function Clip(n: nat, max: nat): nat {
    if n < max then n else max
  }

  /** h[from:to] = piece, for a bytearray: the slice is taken out and the piece put in, whatever their lengths. */
  function Splice(h: Bytes, from: nat, to: nat, piece: Bytes): Bytes
    requires from <= to
  {
    h[..Clip(from, |h|)] + piece + h[Clip(to, |h|)..]
  }

  function SizeText(size: nat): Bytes {
    PadLeft(Digits(size, 8), 11) + [0]
  }

  /** The checker's header before its checksum: up to the times, and the rest. */
  function UstarFront(name: Bytes, size: nat): Bytes {
    var h := Splice(Zeros(BLOCK), 0, |name|, name);
    var h := Splice(Splice(Splice(h, 100, 108, MODE), 108, 116, NOBODY), 116, 124, NOBODY);
    Splice(Splice(h, 124, 136, SizeText(size)), 136, 148, seq(11, _ => 48) + [0])
  }

  function UstarBack(h: Bytes): Bytes {
    var h := Splice(Splice(h, 148, 156, seq(8, _ => 32)), 156, 157, [FILE]);
    Splice(Splice(h, 257, 263, USTAR + [0]), 263, 265, [48, 48])
  }

  function UstarOf(name: Bytes, size: nat): Bytes {
    var h := UstarBack(UstarFront(name, size));
    Splice(h, 148, 156, PadLeft(Digits(Sum(h), 8), 6) + [0, 32])
  }

  /**
   * The checker's own header writer: the archive writer's block while eleven digits hold the size, a longer one after.
   */
  method Ustar(name: Bytes, size: nat) returns (h: Bytes)
    ensures h == UstarOf(name, size)
    ensures |name| <= 100 && size < Pow(8, 11) ==> h == Header(name, [], size, FILE)
    ensures |name| <= 100 && size >= Pow(8, 11) ==> |h| > BLOCK
  {
    hide Sum, Digits, PadLeft, Pow, Header;
    h := Zeros(BLOCK);
    h := Splice(h, 0, |name|, name);
    h := Splice(h, 100, 108, MODE);
    h := Splice(h, 108, 116, NOBODY);
    h := Splice(h, 116, 124, NOBODY);
    h := Splice(h, 124, 136, PadLeft(Digits(size, 8), 11) + [0]);
    h := Splice(h, 136, 148, seq(11, _ => 48) + [0]);
    assert h == UstarFront(name, size);
    h := Splice(h, 148, 156, seq(8, _ => 32));
    h := Splice(h, 156, 157, [FILE]);
    h := Splice(h, 257, 263, USTAR + [0]);
    h := Splice(h, 263, 265, [48, 48]);
    var sum := SumOf(h);
    h := Splice(h, 148, 156, PadLeft(Digits(sum, 8), 6) + [0, 32]);
    if |name| <= 100 {
      if size < Pow(8, 11) {
        UstarIsHeader(name, size);
      } else {
        UstarTooLong(name, size);
      }
    }
  }

  method SumOf(block: Bytes) returns (sum: nat)
    ensures sum == Sum(block)
  {
    hide Sum;
    SumNothing();
    assert block[..0] == [];
    sum := 0;
    for i := 0 to |block|
      invariant sum == Sum(block[..i])
    {
      SumNext(block, i);
      sum := sum + block[i];
    }
    assert block[..|block|] == block;
  }

  lemma SpliceIsPut(h: Bytes, from: nat, to: nat, piece: Bytes)
    requires from <= to <= |h| && |piece| == to - from
    ensures Splice(h, from, to, piece) == Put(h, from, piece)
  {
  }

  /** A piece of the slice's length put over the zeros behind what is done. */
  lemma SpliceNext(done: Bytes, n: nat, piece: Bytes)
    requires |piece| <= n
    ensures Splice(done + Zeros(n), |done|, |done| + |piece|, piece) == (done + piece) + Zeros(n - |piece|)
  {
    SpliceIsPut(done + Zeros(n), |done|, |done| + |piece|, piece);
    PutNext(done, n, piece);
  }

  lemma Texts()
    ensures OctalField(420, 8) == MODE && OctalField(0, 8) == NOBODY && OctalField(0, 12) == seq(11, _ => 48) + [0]
  {
    assert Digits(0, 8) == [48];
    assert Digits(420, 8) == [54, 52, 52];
  }

  lemma SizeTextFits(size: nat)
    requires size < Pow(8, 11)
    ensures SizeText(size) == OctalField(size, 12)
  {
    hide Digits, PadLeft, Pow;
    PaddedDigits(size, 11);
    var t := PadLeft(Digits(size, 8), 11);
    assert t[..11] == t;
  }

  lemma UstarFrontIs(name: Bytes, size: nat)
    requires |name| <= 100 && size < Pow(8, 11)
    ensures UstarFront(name, size) == Front(name, OctalField(size, 12)) + Zeros(364)
  {
    hide Splice, Zeros, OctalField, SizeText, Pow;
    Texts();
    SizeTextFits(size);
    var none: Bytes := [];
    assert none + Zeros(512) == Zeros(512) && none + name == name;
    SpliceNext(none, 512, name);
    NameGap(name);
    var done := Field(name, 100);
    SpliceNext(done, 412, MODE);
    SpliceNext(done + MODE, 404, NOBODY);
    SpliceNext(done + MODE + NOBODY, 396, NOBODY);
    done := done + MODE + NOBODY + NOBODY;
    SpliceNext(done, 388, SizeText(size));
    SpliceNext(done + SizeText(size), 376, OctalField(0, 12));
    assert done == Field(name, 100) + (MODE + NOBODY + NOBODY);
  }

  lemma NameGap(name: Bytes)
    requires |name| <= 100
    ensures name + Zeros(512 - |name|) == Field(name, 100) + Zeros(412)
  {
  }

  lemma UstarBackIs(front: Bytes)
    requires |front| == 148
    ensures UstarBack(front + Zeros(364)) == (front + seq(8, _ => 32)) + Back(POSIX, [], FILE)
  {
    hide Splice, Zeros, Field;
    var spaces: Bytes := seq(8, _ => 32);
    var done := front + spaces;
    SpliceNext(front, 364, spaces);
    SpliceNext(done, 356, [FILE]);
    ZerosSplit(done + [FILE], 100, 255);
    var magic := done + [FILE] + Zeros(100);
    SpliceNext(magic, 255, USTAR + [0]);
    SpliceNext(magic + (USTAR + [0]), 249, [48, 48]);
    BackTail(magic + (USTAR + [0]) + [48, 48]);
    assert magic + (USTAR + [0]) + [48, 48] + (Zeros(80) + Field([], 155) + Zeros(12)) == done + Back(POSIX, [], FILE);
  }

  lemma BackTail(done: Bytes)
    ensures done + Zeros(247) == done + (Zeros(80) + Field([], 155) + Zeros(12))
  {
  }

  /** While eleven digits hold the size, the header is the one the archive writer makes. */
  lemma UstarIsHeader(name: Bytes, size: nat)
    requires |name| <= 100 && size < Pow(8, 11)
    ensures UstarOf(name, size) == Header(name, [], size, FILE)
  {
    hide UstarFront, UstarBack, Splice, Front, Back, OctalField, Sum, Digits, PadLeft, Pow;
    var front, spaces, back := Front(name, OctalField(size, 12)), seq(8, _ => 32 as byte), Back(POSIX, [], FILE);
    UstarFrontIs(name, size);
    UstarBackIs(front);
    SumOfHeader(front, spaces, back);
    SumSmall(front, back);
    ChecksumAtOnce(front, spaces, back, SumAround(front, back));
  }

  lemma ChecksumAtOnce(front: Bytes, spaces: Bytes, back: Bytes, sum: nat)
    requires |front| == 148 && |spaces| == 8 && |back| == 356 && |PadLeft(Digits(sum, 8), 6)| == 6
    ensures Splice((front + spaces) + back, 148, 156, PadLeft(Digits(sum, 8), 6) + [0, 32])
      == front + ChecksumField(sum) + back
  {
    hide Digits, PadLeft;
    var text := PadLeft(Digits(sum, 8), 6);
    assert text[..6] == text;
  }

  /** A piece at least as long as its slice makes nothing shorter. */
  lemma SpliceLength(h: Bytes, from: nat, to: nat, piece: Bytes)
    requires from <= to <= |h| && |piece| >= to - from
    ensures |Splice(h, from, to, piece)| == |h| + |piece| - (to - from)
  {
  }

  /** A longer size pushes out what stands behind it, so that the header is no block any more. */
  lemma UstarTooLong(name: Bytes, size: nat)
    requires |name| <= 100 && size >= Pow(8, 11)
    ensures |UstarOf(name, size)| > BLOCK
  {
    hide Splice, Sum, Digits, PadLeft, Pow;
    SizeTextLong(size);
    var h := Splice(Zeros(BLOCK), 0, |name|, name);
    SpliceLength(Zeros(BLOCK), 0, |name|, name);
    SpliceLength(h, 100, 108, MODE);
    h := Splice(h, 100, 108, MODE);
    SpliceLength(h, 108, 116, NOBODY);
    h := Splice(h, 108, 116, NOBODY);
    SpliceLength(h, 116, 124, NOBODY);
    h := Splice(h, 116, 124, NOBODY);
    SpliceLength(h, 124, 136, SizeText(size));
    h := Splice(h, 124, 136, SizeText(size));
    SpliceLength(h, 136, 148, seq(11, _ => 48) + [0]);
    BackLength(UstarFront(name, size));
    h := UstarBack(UstarFront(name, size));
    SpliceLength(h, 148, 156, PadLeft(Digits(Sum(h), 8), 6) + [0, 32]);
  }

  lemma BackLength(h: Bytes)
    requires |h| >= BLOCK
    ensures |UstarBack(h)| == |h|
  {
  }

  lemma SizeTextLong(size: nat)
    requires size >= Pow(8, 11)
    ensures |SizeText(size)| > 12
  {
    hide Digits, Pow;
    DigitsLonger(size, 11);
  }

  lemma {:induction false} DigitsLonger(n: nat, k: nat)
    requires n >= Pow(8, k)
    ensures |Digits(n, 8)| > k
  {
    if k > 0 {
      EightPositive(k - 1);
      DigitsLonger(n / 8, k - 1);
    }
  }

  lemma {:induction false} EightPositive(k: nat)
    ensures Pow(8, k) >= 1
  {
    if k > 0 {
      EightPositive(k - 1);
    }
  }

  function Tar2(name: Bytes, a: Bytes, name': Bytes, b: Bytes): Bytes {
    UstarOf(name, |a|) + PadBlock(a) + (UstarOf(name', |b|) + PadBlock(b) + Zeros(1024))
  }

  /** The committed bytes; Err for a code there is no placement of. */
  function Place(env: Env, code: byte, original: Bytes, commitment: Bytes): (r: Result<Bytes>)
    ensures r.Ok? <==> code <= 3
  {
    if code == 0 then Ok(original)
    else if code == 1 then Ok(original + (MARK + Zeros(8) + commitment))
    else
      var m := env.payload(commitment, env.hash(original));
      if code == 2 then Ok(Tar2(MANIFEST, m, ORIGINAL, original))
      else if code == 3 then Ok(Tar2(ORIGINAL, original, MANIFEST, m))
      else Err
  }

  /** The bytes of a text. */
  function Spelled(text: string): Bytes
    requires forall i :: 0 <= i < |text| ==> text[i] < 256 as char
  {
    seq(|text|, i requires 0 <= i < |text| => text[i] as int)
  }

  lemma NamesSpelled()
    ensures MARK == Spelled("BGFUSE01")
    ensures MANIFEST == Spelled("bitgraph-fuse/manifest.json") && ORIGINAL == Spelled("bitgraph-fuse/original")
  {
  }

  /** A trailer of 48 bytes: the mark, eight zeros, the commitment; all before it is the original. */
  lemma TrailerIs(env: Env, original: Bytes, commitment: Bytes)
    requires |commitment| == 32
    ensures var file, n := Place(env, 1, original, commitment).value, |original|;
      && |file| == n + 48 && file[..n] == original && file[n..n + 8] == Spelled("BGFUSE01")
      && (forall i :: n + 8 <= i < n + 16 ==> file[i] == 0) && file[n + 16..] == commitment
  {
    NamesSpelled();
    var file, n := Place(env, 1, original, commitment).value, |original|;
    assert file == (original + MARK) + (Zeros(8) + commitment);
  }
}
