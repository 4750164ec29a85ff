/**
 * The ustar header block of packages/audit/src/tar.ts, written and read. Text is its UTF-8 bytes;
 * reading text drops a leading byte-order mark, as the source's decoder does.
 */
module TarHeader {
  import opened Bytes
  import opened Numerals
  import opened TarNumbers

  const BLOCK: nat := 512
  const USTAR: Bytes := [117, 115, 116, 97, 114]
  const POSIX: Bytes := USTAR + [0]
  const SLASH: byte := 47
  const FILE: byte := 48
  const PAX: byte := 120

  // --------------------------------------------------------------------- text fields

  function Decode(b: Bytes): Bytes {
    if |b| >= 3 && b[..3] == [0xef, 0xbb, 0xbf] then b[3..] else b
  }

  function UpToNul(s: Bytes): (t: Bytes)
    ensures t <= s && (forall i :: 0 <= i < |t| ==> t[i] != 0) && (|t| < |s| ==> s[|t|] == 0)
  {
    if s == [] || s[0] == 0 then [] else [s[0]] + UpToNul(s[1..])
  }

  /** Text in a field of `len` bytes, cut to it, zeros after. */
  function Field(text: Bytes, len: nat): (f: Bytes)
    ensures |f| == len
  {
    if |text| <= len then text + Zeros(len - |text|) else text[..len]
  }

  lemma {:induction false} FieldUpToNul(text: Bytes, len: nat)
    requires |text| <= len
    ensures UpToNul(Field(text, len)) == UpToNul(text)
  {
    var f := Field(text, len);
    if text == [] {
    } else if text[0] != 0 {
      FieldUpToNul(text[1..], len - 1);
      assert f[1..] == Field(text[1..], len - 1);
    }
  }

  // ------------------------------------------------------------------- the checksum

  function Sum(s: Bytes): nat {
    if s == [] then 0 else Sum(Init(s)) + Last(s)
  }

  lemma {:induction false} SumConcat(a: Bytes, b: Bytes)
    ensures Sum(a + b) == Sum(a) + Sum(b)
    decreases |b|
  {
    if b == [] {
      assert a + b == a;
    } else {
      SumConcat(a, Init(b));
      assert Init(a + b) == a + Init(b);
    }
  }

  lemma {:induction false} SumBound(s: Bytes)
    ensures Sum(s) <= 255 * |s|
  {
    if s != [] {
      SumBound(Init(s));
    }
  }

  /** The sum of the block's bytes, its checksum field counted as eight spaces. */
  function ChecksumOf(block: Bytes): nat
    requires |block| == BLOCK
  {
    Sum(block[..148]) + 8 * 32 + Sum(block[156..])
  }

  method VerifyChecksum(block: Bytes) returns (ok: bool)
    requires |block| == BLOCK
    ensures ok <==> ParseNumeric(block[148..156]) == Ok(ChecksumOf(block))
  {
    hide ParseNumeric;
    var stored := ParseNumeric(block[148..156]);
    var sum: nat := 0;
    for i := 0 to BLOCK
      invariant i <= 148 ==> sum == Sum(block[..i])
      invariant 148 <= i <= 156 ==> sum == Sum(block[..148]) + (i - 148) * 32
      invariant 156 <= i ==> sum == Sum(block[..148]) + 256 + Sum(block[156..i])
    {
      if i < 148 {
        assert Init(block[..i + 1]) == block[..i];
      } else if i >= 156 {
        assert Init(block[156..i + 1]) == block[156..i];
      }
      sum := sum + if 148 <= i < 156 then 32 else block[i];
    }
    assert block[156..BLOCK] == block[156..];
    ok := stored == Ok(sum);
  }

  // ----------------------------------------------------------------- a header, as bytes

  function Front(name: Bytes, size: Bytes): (f: Bytes)
    requires |size| == 12
    ensures |f| == 148
  {
    Field(name, 100) + (OctalField(420, 8) + OctalField(0, 8) + OctalField(0, 8)) + size + OctalField(0, 12)
  }

  function Back(magic: Bytes, prefix: Bytes, typeflag: byte): (b: Bytes)
    requires |magic| == 6
    ensures |b| == 356
  {
    [typeflag] + Zeros(100) + magic + [48, 48] + Zeros(80) + Field(prefix, 155) + Zeros(12)
  }

  function ChecksumField(sum: nat): (c: Bytes)
    ensures |c| == 8
  {
    PadLeft(Digits(sum, 8), 6)[..6] + [0, 32]
  }

  /** What the checksum of a block with these two parts is. */
  function SumAround(front: Bytes, back: Bytes): nat {
    Sum(front) + 256 + Sum(back)
  }

  /** A block with its checksum between the parts it is the sum of. */
  function Sealed(front: Bytes, back: Bytes): (h: Bytes)
    requires |front| == 148 && |back| == 356
    ensures |h| == BLOCK
  {
    front + ChecksumField(SumAround(front, back)) + back
  }

  /** A header of any writer: its size field may be octal or binary, and its magic may be another than POSIX's. */
  datatype Head = Head(name: Bytes, size: Bytes, magic: Bytes, prefix: Bytes, typeflag: byte)

  predicate Shaped(h: Head) {
    |h.name| <= 100 && |h.size| == 12 && |h.magic| == 6 && |h.prefix| <= 155
  }

  function HeadBlock(h: Head): (b: Bytes)
    requires Shaped(h)
    ensures |b| == BLOCK
  {
    Sealed(Front(h.name, h.size), Back(h.magic, h.prefix, h.typeflag))
  }

  /** The header this writer makes. */
  function Header(name: Bytes, prefix: Bytes, size: nat, typeflag: byte): (h: Bytes)
    ensures |h| == BLOCK
  {
    Sealed(Front(name, OctalField(size, 12)), Back(POSIX, prefix, typeflag))
  }

  method Set(block: array<byte>, at: nat, piece: Bytes)
    requires at + |piece| <= block.Length
    modifies block
    ensures block[..] == Put(old(block[..]), at, piece)
  {
    forall k | 0 <= k < |piece| {
      block[at + k] := piece[k];
    }
  }

  /** What is written next to a part that is done, over the zeros after it. */
  lemma PutNext(done: Bytes, n: nat, piece: Bytes)
    requires |piece| <= n
    ensures Put(done + Zeros(n), |done|, piece) == (done + piece) + Zeros(n - |piece|)
  {
  }

  lemma ZerosSplit(done: Bytes, k: nat, n: nat)
    ensures done + Zeros(k + n) == (done + Zeros(k)) + Zeros(n)
  {
  }

  /** Text cut to its field, put over zeros, is the field. */
  lemma PutText(done: Bytes, n: nat, text: Bytes, len: nat)
    requires len <= n
    ensures var cut := if |text| < len then text else text[..len];
      Put(done + Zeros(n), |done|, cut) == (done + Field(text, len)) + Zeros(n - len)
  {
    var cut := if |text| < len then text else text[..len];
    PutNext(done, n, cut);
    ZerosSplit(done + cut, len - |cut|, n - len);
    assert (done + cut) + Zeros(len - |cut|) == done + Field(text, len);
  }

  method SetText(block: array<byte>, at: nat, text: Bytes, len: nat)
    requires at + len <= block.Length
    modifies block
    ensures block[..] == Put(old(block[..]), at, if |text| < len then text else text[..len])
  {
    Set(block, at, if |text| < len then text else text[..len]);
  }

  /** What comes next, over the zeros behind what is done. */
  method SetNext(block: array<byte>, ghost done: Bytes, n: nat, piece: Bytes)
    requires |piece| <= n && block[..] == done + Zeros(n)
    modifies block
    ensures block[..] == (done + piece) + Zeros(n - |piece|)
  {
    hide Put, Zeros;
    PutNext(done, n, piece);
    Set(block, block.Length - n, piece);
  }

  method SetFront(block: array<byte>, name: Bytes, size: nat)
    requires block.Length == BLOCK && block[..] == Zeros(BLOCK)
    modifies block
    ensures block[..] == Front(name, OctalField(size, 12)) + Zeros(364)
  {
    hide Field, OctalField, Put, Front, Zeros;
    ghost var none: Bytes := [];
    assert Zeros(512) == none + Zeros(512);
    PutText(none, 512, name, 100);
    SetText(block, 0, name, 100);
    ghost var done := none + Field(name, 100);
    var mode := Octal(420, 8);
    var zero8 := Octal(0, 8);
    SetNext(block, done, 412, mode);
    SetNext(block, done + mode, 404, zero8);
    SetNext(block, done + mode + zero8, 396, zero8);
    done := done + mode + zero8 + zero8;
    var size12 := Octal(size, 12);
    var mtime := Octal(0, 12);
    SetNext(block, done, 388, size12);
    SetNext(block, done + size12, 376, mtime);
    FrontIs(name, size12);
  }

  lemma FrontIs(name: Bytes, size: Bytes)
    requires |size| == 12
    ensures Front(name, size) ==
      [] + Field(name, 100) + OctalField(420, 8) + OctalField(0, 8) + OctalField(0, 8) + size + OctalField(0, 12)
  {
    hide Field, OctalField;
  }

  method SetBack(block: array<byte>, ghost front: Bytes, prefix: Bytes, typeflag: byte)
    requires block.Length == BLOCK && |front| == 156 && block[..] == front + Zeros(356)
    modifies block
    ensures block[..] == front + Back(POSIX, prefix, typeflag)
  {
    hide Field, Put, Zeros;
    ghost var b: Bytes := [];
    assert front + b == front;
    b := NextPiece(front, b, 356, [typeflag]);
    Set(block, 156, [typeflag]);
    b := NextGap(front, b, 100, 255);
    b := NextPiece(front, b, 255, USTAR);
    Set(block, 257, USTAR);
    b := NextGap(front, b, 1, 249);
    b := NextPiece(front, b, 249, [48, 48]);
    Set(block, 263, [48, 48]);
    b := NextGap(front, b, 80, 167);
    PutText(front + b, 167, prefix, 155);
    SetText(block, 345, prefix, 155);
    assert (front + b) + Field(prefix, 155) == front + (b + Field(prefix, 155));
    b := b + Field(prefix, 155);
    b := NextGap(front, b, 12, 0);
    BackIs(prefix, typeflag);
    assert b == Back(POSIX, prefix, typeflag);
    assert (front + b) + Zeros(0) == front + b;
  }

  lemma NextPiece(front: Bytes, b: Bytes, n: nat, piece: Bytes) returns (b': Bytes)
    requires |piece| <= n
    ensures b' == b + piece
    ensures Put((front + b) + Zeros(n), |front + b|, piece) == (front + b') + Zeros(n - |piece|)
  {
    b' := b + piece;
    PutNext(front + b, n, piece);
    assert (front + b) + piece == front + b';
  }

  lemma NextGap(front: Bytes, b: Bytes, k: nat, n: nat) returns (b': Bytes)
    ensures b' == b + Zeros(k)
    ensures (front + b) + Zeros(k + n) == (front + b') + Zeros(n)
  {
    b' := b + Zeros(k);
    ZerosSplit(front + b, k, n);
    assert (front + b) + Zeros(k) == front + b';
  }

  lemma BackIs(prefix: Bytes, typeflag: byte)
    ensures Back(POSIX, prefix, typeflag) ==
      [] + [typeflag] + Zeros(100) + USTAR + Zeros(1) + [48, 48] + Zeros(80) + Field(prefix, 155) + Zeros(12)
  {
    hide Field;
    assert Zeros(1) == [0];
    assert [typeflag] + Zeros(100) + (USTAR + [0]) == [] + [typeflag] + Zeros(100) + USTAR + Zeros(1);
  }

  /** A header, filled in place: the fields, the sum of them with the checksum as spaces, then the checksum. */
  method WriteHeader(name: Bytes, prefix: Bytes, size: nat, typeflag: byte) returns (h: Bytes)
    ensures h == Header(name, prefix, size, typeflag)
  {
    hide Front, Back, Sum, ChecksumField, Put;
    var block := new byte[BLOCK](_ => 0);
    assert block[..] == Zeros(BLOCK);
    SetFront(block, name, size);
    ghost var front, spaces := Front(name, OctalField(size, 12)), seq(8, _ => 32 as byte);
    PutNext(front, 364, spaces);
    Set(block, 148, seq(8, _ => 32));
    SetBack(block, front + spaces, prefix, typeflag);
    ghost var back := Back(POSIX, prefix, typeflag);
    var sum: nat := 0;
    SumNothing();
    assert block[..0] == [];
    for i := 0 to BLOCK
      invariant block[..] == (front + spaces) + back
      invariant sum == Sum(block[..i])
    {
      SumNext(block[..], i);
      sum := sum + block[i];
    }
    assert block[..BLOCK] == block[..] == (front + spaces) + back;
    SumOfHeader(front, spaces, back);
    SumSmall(front, back);
    var text := PadLeft(Digits(sum, 8), 6);
    SetText(block, 148, text, 6);
    Set(block, 154, [0]);
    Set(block, 155, [32]);
    h := block[..];
    ChecksumInPlace(front, spaces, back, sum);
  }

  lemma SumNothing()
    ensures Sum([]) == 0
  {
  }

  lemma SumNext(s: Bytes, i: nat)
    requires i < |s|
    ensures Sum(s[..i + 1]) == Sum(s[..i]) + s[i]
  {
    assert Init(s[..i + 1]) == s[..i];
  }

  lemma SumOfHeader(front: Bytes, spaces: Bytes, back: Bytes)
    requires spaces == seq(8, _ => 32)
    ensures Sum((front + spaces) + back) == Sum(front) + 256 + Sum(back)
  {
    SumConcat(front + spaces, back);
    SumConcat(front, spaces);
    SumSpaces(8);
  }

  lemma {:induction false} SumSpaces(n: nat)
    ensures Sum(seq(n, _ => 32)) == 32 * n
  {
    if n > 0 {
      SumSpaces(n - 1);
      assert Init(seq(n, _ => 32 as byte)) == seq(n - 1, _ => 32 as byte);
    }
  }

  /** The six digits of the checksum field always hold the sum. */
  lemma SumSmall(front: Bytes, back: Bytes)
    requires |front| == 148 && |back| == 356
    ensures var text := PadLeft(Digits(SumAround(front, back), 8), 6);
            |text| == 6 && OctalText(text) && DigitsValue(text, 8) == SumAround(front, back) <= MAX_SAFE
  {
    hide Sum, Digits, DigitsValue, Pow;
    SumBound(front);
    SumBound(back);
    Octal11();
    PaddedDigits(SumAround(front, back), 6);
  }

  lemma ChecksumInPlace(front: Bytes, spaces: Bytes, back: Bytes, sum: nat)
    requires |front| == 148 && |spaces| == 8 && |back| == 356 && |PadLeft(Digits(sum, 8), 6)| == 6
    ensures var text := PadLeft(Digits(sum, 8), 6);
            Put(Put(Put((front + spaces) + back, 148, text[..6]), 154, [0]), 155, [32]) ==
              front + ChecksumField(sum) + back
  {
    hide Digits, PadLeft;
    var text := PadLeft(Digits(sum, 8), 6);
    assert text[..6] == text;
    assert Put((front + spaces) + back, 148, text) == front + text + (spaces[6..] + back);
  }

  // -------------------------------------------------------------------- and read back

  datatype RawHeader = RawHeader(name: Bytes, size: nat, typeflag: byte)

  function FullName(prefix: Bytes, name: Bytes): Bytes {
    if prefix == [] then name else prefix + [SLASH] + name
  }

  function ParseHeader(block: Bytes): Result<RawHeader>
    requires |block| == BLOCK
  {
    if ParseNumeric(block[148..156]) != Ok(ChecksumOf(block)) then Err else
      var name := Decode(UpToNul(block[0..100]));
      var prefix := if Decode(UpToNul(block[257..263])) == USTAR then Decode(UpToNul(block[345..500])) else [];
      match ParseNumeric(block[124..136])
      case Err => Err
      case Ok(size) => Ok(RawHeader(FullName(prefix, name), size, block[156]))
  }

  method ReadHeader(block: Bytes) returns (r: Result<RawHeader>)
    requires |block| == BLOCK
    ensures r == ParseHeader(block)
  {
    hide ParseNumeric, ChecksumOf, UpToNul, Decode;
    var ok := VerifyChecksum(block);
    if !ok {
      return Err;
    }
    var name := Decode(UpToNul(block[0..100]));
    if Decode(UpToNul(block[257..263])) == USTAR {
      var prefix := Decode(UpToNul(block[345..500]));
      if |prefix| > 0 {
        name := prefix + [SLASH] + name;
      }
    }
    var size := ParseNumeric(block[124..136]);
    r := if size.Err? then Err else Ok(RawHeader(name, size.value, block[156]));
  }

  /** The fields of a sealed block, where a reader looks for them. */
  lemma SealedFields(front: Bytes, back: Bytes)
    requires |front| == 148 && |back| == 356
    ensures var h := Sealed(front, back);
            && h[0..100] == front[0..100] && h[124..136] == front[124..136]
            && h[..148] == front && h[148..156] == ChecksumField(SumAround(front, back)) && h[156..] == back
            && h[156] == back[0] && h[257..263] == back[101..107] && h[345..500] == back[189..344]
  {
    hide ChecksumField, Sum;
    var h := Sealed(front, back);
    assert h[0..148] == front && h[156..512] == back;
    SliceOfSlice(h, 0, 148, 0, 100);
    SliceOfSlice(h, 0, 148, 124, 136);
    SliceOfSlice(h, 156, 512, 101, 107);
    SliceOfSlice(h, 156, 512, 189, 344);
    assert h[156] == h[156..512][0];
  }

  lemma FrontFields(name: Bytes, size: Bytes)
    requires |size| == 12
    ensures Front(name, size)[0..100] == Field(name, 100) && Front(name, size)[124..136] == size
  {
    hide Field, OctalField;
  }

  lemma BackFields(magic: Bytes, prefix: Bytes, typeflag: byte)
    requires |magic| == 6
    ensures Back(magic, prefix, typeflag)[0] == typeflag && Back(magic, prefix, typeflag)[101..107] == magic
    ensures Back(magic, prefix, typeflag)[189..344] == Field(prefix, 155)
  {
    hide Field;
  }

  /** The magic of POSIX, and no other, makes a reader look at the prefix. */
  lemma MagicIs(magic: Bytes)
    requires |magic| == 6
    ensures Decode(UpToNul(magic)) == USTAR <==> magic == POSIX
  {
    hide UpToNul;
    if magic == POSIX {
      NulEnds(USTAR);
      assert USTAR[..3] == [117, 115, 116];
    }
    if Decode(UpToNul(magic)) == USTAR {
      assert UpToNul(magic) == USTAR;
      assert magic[5] == 0 && magic == magic[..5] + [magic[5]];
    }
  }

  lemma {:induction false} NulEnds(a: Bytes)
    requires forall i :: 0 <= i < |a| ==> a[i] != 0
    ensures UpToNul(a + [0]) == a
  {
    if a != [] {
      NulEnds(a[1..]);
      assert (a + [0])[1..] == a[1..] + [0];
    }
  }

  /** Every sealed block has its checksum, and is read by its fields. */
  lemma SealedReads(front: Bytes, back: Bytes)
    requires |front| == 148 && |back| == 356
    ensures ParseNumeric(Sealed(front, back)[148..156]) == Ok(ChecksumOf(Sealed(front, back)))
    ensures ParseHeader(Sealed(front, back)) ==
            var prefix := if back[101..107] == POSIX then Decode(UpToNul(back[189..344])) else [];
            match ParseNumeric(front[124..136])
            case Err => Err
            case Ok(size) => Ok(RawHeader(FullName(prefix, Decode(UpToNul(front[0..100]))), size, back[0]))
  {
    hide ParseNumeric, Sum, UpToNul, Decode, Pow, Sealed, ChecksumField, Digits, DigitsValue;
    SealedFields(front, back);
    MagicIs(back[101..107]);
    SumSmall(front, back);
    ChecksumReads(SumAround(front, back));
  }

  /** The name a header gives: its name field, behind its prefix when its magic is POSIX's. */
  function NameIn(h: Head): Bytes {
    FullName(if h.magic == POSIX then Decode(UpToNul(h.prefix)) else [], Decode(UpToNul(h.name)))
  }

  /** A header of any writer is read: its name, the number in its size field or a refusal, and its kind. */
  lemma HeadReads(h: Head)
    requires Shaped(h)
    ensures ParseHeader(HeadBlock(h)) ==
            match ParseNumeric(h.size) case Err => Err case Ok(size) => Ok(RawHeader(NameIn(h), size, h.typeflag))
  {
    hide Field, ParseNumeric, Sealed, Front, Back, UpToNul, Decode, ParseHeader;
    SealedReads(Front(h.name, h.size), Back(h.magic, h.prefix, h.typeflag));
    FrontFields(h.name, h.size);
    BackFields(h.magic, h.prefix, h.typeflag);
    FieldUpToNul(h.name, 100);
    FieldUpToNul(h.prefix, 155);
  }

  /** A header of this writer is read back: the text of its name and prefix, its size and its kind. */
  lemma HeaderReads(name: Bytes, prefix: Bytes, size: nat, typeflag: byte)
    requires |name| <= 100 && |prefix| <= 155 && size < Pow(8, 11)
    ensures ParseHeader(Header(name, prefix, size, typeflag)) ==
            Ok(RawHeader(FullName(Decode(UpToNul(prefix)), Decode(UpToNul(name))), size, typeflag))
  {
    hide OctalField, ParseNumeric, Sealed, Front, Back, UpToNul, Decode, Pow, ParseHeader;
    SizeFieldRoundTrip(size);
    HeadReads(Head(name, OctalField(size, 12), POSIX, prefix, typeflag));
  }

  lemma ChecksumReads(sum: nat)
    requires var text := PadLeft(Digits(sum, 8), 6);
      |text| == 6 && OctalText(text) && DigitsValue(text, 8) == sum <= MAX_SAFE
    ensures ParseNumeric(ChecksumField(sum)) == Ok(sum)
  {
    hide Digits, DigitsValue, PadLeft, ParseNumeric;
    var text := PadLeft(Digits(sum, 8), 6);
    assert text[..6] == text;
    DigitsRead(text);
  }

  /** A block of zeros marks the archive's end; no header is one. */
  predicate IsZeroBlock(block: Bytes) {
    forall i :: 0 <= i < |block| ==> block[i] == 0
  }

  lemma SealedIsNotZero(front: Bytes, back: Bytes)
    requires |front| == 148 && |back| == 356
    ensures !IsZeroBlock(Sealed(front, back))
  {
    hide Sealed;
    SealedFields(front, back);
    assert Sealed(front, back)[155] == Sealed(front, back)[148..156][7] == 32;
  }

  /** The same of the headers this writer makes. */
  lemma HeaderFields(name: Bytes, prefix: Bytes, size: nat, typeflag: byte)
    ensures var h := Header(name, prefix, size, typeflag);
      h[0..100] == Field(name, 100) && h[124..136] == OctalField(size, 12) && !IsZeroBlock(h)
  {
    hide Field, OctalField, Sealed, Front, Back;
    var front, back := Front(name, OctalField(size, 12)), Back(POSIX, prefix, typeflag);
    SealedFields(front, back);
    SealedIsNotZero(front, back);
    FrontFields(name, OctalField(size, 12));
  }

  /** Any one byte of a sealed block changed outside the checksum is noticed. */
  lemma OneByteOff(front: Bytes, back: Bytes, i: nat, v: byte)
    requires |front| == 148 && |back| == 356 && i < BLOCK && !(148 <= i < 156) && v != Sealed(front, back)[i]
    ensures ParseHeader(Sealed(front, back)[i := v]) == Err && !IsZeroBlock(Sealed(front, back)[i := v])
  {
    hide ParseNumeric, Sum, UpToNul, Decode, Sealed;
    var h := Sealed(front, back);
    var off := h[i := v];
    SealedReads(front, back);
    SealedFields(front, back);
    assert off[148..156] == h[148..156];
    assert off[155] == h[148..156][7] == 32;
    if i < 148 {
      assert off[156..] == h[156..] && off[..148] == h[..148][i := v];
      SumOneOff(h[..148], i, v);
    } else {
      assert off[..148] == h[..148] && off[156..] == h[156..][i - 156 := v];
      SumOneOff(h[156..], i - 156, v);
    }
  }

  lemma {:induction false} SumOneOff(s: Bytes, i: nat, v: byte)
    requires i < |s|
    ensures Sum(s[i := v]) == Sum(s) - s[i] + v
    decreases |s|
  {
    var t := s[i := v];
    if i == |s| - 1 {
      assert Init(t) == Init(s);
    } else {
      assert Init(t) == Init(s)[i := v];
      SumOneOff(Init(s), i, v);
    }
  }
}
