/**
 * The two tolerant RLP readers: packages/audit/src/rlp.ts, which checks every bound as it goes,
 * and the one of spec/tools/check.py, which slices past the end and checks the total.
 */
module RlpTolerant {
  import opened Bytes
  import opened Rlp

  // ----------------------------------------------------------- rlp.ts, as functions

  /** What an item's first bytes announce: a payload of `n` bytes from `start`. */
  datatype Head = Head(isList: bool, start: nat, n: nat)

  function LengthIn(b: Bytes, p: nat, k: nat): Result<nat> {
    if p + k > |b| then Err
    else if BeNat(b[p..p + k]) > |b| then Err
    else Ok(BeNat(b[p..p + k]))
  }

  function HeadAt(b: Bytes, p: nat): (r: Result<Head>)
    ensures r.Ok? ==>
      p < |b| && p <= r.value.start && p < r.value.start + r.value.n && (r.value.isList ==> p < r.value.start)
  {
    if p >= |b| then Err else
      var t := b[p];
      if t < 0x80 then Ok(Head(false, p, 1))
      else if t <= 0xb7 then Ok(Head(false, p + 1, t - 0x80))
      else if t <= 0xbf then
        match LengthIn(b, p + 1, t - 0xb7) { case Err => Err case Ok(n) => Ok(Head(false, p + 1 + (t - 0xb7), n)) }
      else if t <= 0xf7 then Ok(Head(true, p + 1, t - 0xc0))
      else
        match LengthIn(b, p + 1, t - 0xf7) { case Err => Err case Ok(n) => Ok(Head(true, p + 1 + (t - 0xf7), n)) }
  }

  /** An item and where it ends. */
  datatype Read = Read(item: Item, end: nat)

  /** The item at `p`. */
  function DecodeItem(b: Bytes, p: nat): (r: Result<Read>)
    ensures r.Ok? ==> p < r.value.end <= |b|
    decreases |b| - p, 0
  {
    match HeadAt(b, p)
    case Err => Err
    case Ok(h) => if h.start + h.n > |b| then Err else Body(b, p, h)
  }

  function Body(b: Bytes, p: nat, h: Head): (r: Result<Read>)
    requires p < |b| && p <= h.start && h.start + h.n <= |b| && (h.isList ==> p < h.start)
    ensures r.Ok? ==> r.value.end == h.start + h.n
    decreases |b| - p, 0, 0
  {
    if h.isList then
      match DecodePayload(b, h.start, h.start + h.n)
      case Err => Err
      case Ok(xs) => Ok(Read(List(xs), h.start + h.n))
    else Ok(Read(Str(b[h.start..h.start + h.n]), h.start + h.n))
  }

  /** The items of a list's payload [p, end). */
  function DecodePayload(b: Bytes, p: nat, end: nat): Result<seq<Item>>
    requires end <= |b|
    decreases |b| - p, 1
  {
    if p >= end then Ok([]) else
      match DecodeItem(b, p)
      case Err => Err
      case Ok(d) =>
        if d.end > end then Err else
          match DecodePayload(b, d.end, end)
          case Err => Err
          case Ok(rest) => Ok([d.item] + rest)
  }

  // ------------------------------------------------------------- rlp.ts, as it runs

  method ReadLength(b: Bytes, p: nat, k: nat) returns (r: Result<nat>)
    requires 1 <= k <= 8
    ensures r == LengthIn(b, p, k)
  {
    var n: nat := 0;
    for i := 0 to k
      invariant p + i <= |b| || i == 0
      invariant i > 0 ==> n == BeNat(b[p..p + i])
      invariant i == 0 ==> n == 0
    {
      if p + i >= |b| {
        return Err;
      }
      assert Init(b[p..p + i + 1]) == b[p..p + i];
      n := n * 256 + b[p + i];
    }
    r := if n > |b| then Err else Ok(n);
  }

  method ReadPayload(b: Bytes, start: nat, end: nat) returns (r: Result<seq<Item>>)
    requires start <= end <= |b|
    ensures r == DecodePayload(b, start, end)
    decreases |b| - start, 1
  {
    hide DecodePayload, DecodeItem;
    var items: seq<Item> := [];
    var cursor := start;
    FollowsNothing(DecodePayload(b, start, end));
    while cursor < end
      invariant start <= cursor <= end
      invariant DecodePayload(b, start, end) == FollowedBy(items, DecodePayload(b, cursor, end))
    {
      PayloadStep(b, cursor, end);
      var decoded := ReadItem(b, cursor);
      if decoded.Err? || decoded.value.end > end {
        return Err;
      }
      var x, next := decoded.value.item, decoded.value.end;
      ghost var after := DecodePayload(b, next, end);
      if after.Ok? {
        assert items + ([x] + after.value) == (items + [x]) + after.value;
      }
      items := items + [x];
      cursor := next;
    }
    PayloadStep(b, cursor, end);
    assert items + [] == items;
    r := Ok(items);
  }

  method ReadItem(b: Bytes, p: nat) returns (r: Result<Read>)
    ensures r == DecodeItem(b, p)
    decreases |b| - p, 0
  {
    hide DecodePayload, LengthIn;
    if p >= |b| {
      return Err;
    }
    var t := b[p];
    if t < 0x80 {
      assert b[p..p + 1] == [t];
      return Ok(Read(Str([t]), p + 1));
    }
    var isList := t >= 0xc0;
    var short: nat := if isList then t - 0xc0 else t - 0x80;
    var start, n := p + 1, short;
    if short > 55 {
      var k := short - 55;
      var length := ReadLength(b, p + 1, k);
      if length.Err? {
        return Err;
      }
      start, n := p + 1 + k, length.value;
    }
    if start + n > |b| {
      return Err;
    }
    if !isList {
      return Ok(Read(Str(b[start..start + n]), start + n));
    }
    var items := ReadPayload(b, start, start + n);
    r := if items.Err? then Err else Ok(Read(List(items.value), start + n));
  }

  lemma PayloadStep(b: Bytes, p: nat, end: nat)
    requires end <= |b|
    ensures DecodePayload(b, p, end) ==
            if p >= end then Ok([]) else
              match DecodeItem(b, p)
              case Err => Err
              case Ok(d) => if d.end > end then Err else FollowedBy([d.item], DecodePayload(b, d.end, end))
  {
  }

  /** A whole buffer, which must be one list and nothing after it. */
  method DecodeRlpList(b: Bytes) returns (r: Result<seq<Item>>)
    ensures r.Ok? <==> DecodeItem(b, 0).Ok? && DecodeItem(b, 0).value.end == |b| && DecodeItem(b, 0).value.item.List?
    ensures r.Ok? ==> DecodeItem(b, 0).value.item == List(r.value)
  {
    if |b| == 0 {
      return Err;
    }
    var decoded := ReadItem(b, 0);
    if decoded.Err? || decoded.value.end != |b| || decoded.value.item.Str? {
      return Err;
    }
    r := Ok(decoded.value.item.items);
  }

  // ------------------------------------------------------- it inverts the encoder

  lemma HeadOfHeader(b: Bytes, p: nat, n: nat, isList: bool)
    requires n < Pow256(8) && n <= |b| && At(b, p, Header(n, Offset(isList)))
    ensures HeadAt(b, p) == Ok(Head(isList, p + |Header(n, Offset(isList))|, n))
  {
    hide Pow256, MinBe, At, BeNat;
    var h := Header(n, Offset(isList));
    AtIs(b, p, h);
    AtByte(b, p, h, 0);
    if n >= 56 {
      MinBeLength(n, 8);
      LengthFound(b, p + 1, n, [h[0]]);
      BeNatOfMinBe(n);
    }
  }

  lemma {:induction false} DecodesEncoding(b: Bytes, p: nat, x: Item)
    requires Fits(x) && At(b, p, Encode(x))
    ensures DecodeItem(b, p) == Ok(Read(x, p + |Encode(x)|))
    decreases x, 1
  {
    hide EncodeAll, HeadAt, Header, At, DecodePayload;
    AtIs(b, p, Encode(x));
    var body := if x.Str? then x.bytes else EncodeAll(x.items);
    if x.Str? && |body| == 1 && body[0] < 0x80 {
      AtByte(b, p, body, 0);
      LowHead(b, p);
      AtIs(b, p, body);
    } else {
      var h := Header(|body|, Offset(x.List?));
      AtConcat(b, p, h, body);
      HeadOfHeader(b, p, |body|, x.List?);
      AtIs(b, p + |h|, body);
      if x.List? {
        DecodesPayload(b, p + |h|, x.items);
      }
    }
  }

  lemma LowHead(b: Bytes, p: nat)
    requires p < |b| && b[p] < 0x80
    ensures HeadAt(b, p) == Ok(Head(false, p, 1))
  {
  }

  lemma {:induction false} DecodesPayload(b: Bytes, p: nat, xs: seq<Item>)
    requires FitsAll(xs) && At(b, p, EncodeAll(xs)) && p + |EncodeAll(xs)| <= |b|
    ensures DecodePayload(b, p, p + |EncodeAll(xs)|) == Ok(xs)
    decreases xs, 0
  {
    hide Encode, At, DecodeItem, DecodePayload;
    var end := p + |EncodeAll(xs)|;
    PayloadStep(b, p, end);
    if xs != [] {
      var e, rest := Encode(xs[0]), EncodeAll(xs[1..]);
      AtConcat(b, p, e, rest);
      DecodesEncoding(b, p, xs[0]);
      DecodesPayload(b, p + |e|, xs[1..]);
      assert p + |e| + |rest| == end;
      assert FollowedBy([xs[0]], Ok(xs[1..])) == Ok(xs) by { assert xs == [xs[0]] + xs[1..]; }
    }
  }

  // ----------------------------------- what it accepts besides, and what that costs

  lemma {:induction false} MinBeMono(m: nat, n: nat)
    requires m <= n
    ensures |MinBe(m)| <= |MinBe(n)|
  {
    if m > 0 {
      MinBeMono(m / 256, n / 256);
    }
  }

  lemma HeaderMono(m: nat, n: nat, off: nat)
    requires m <= n && (off == 0x80 || off == 0xc0)
    ensures |Header(m, off)| <= |Header(n, off)|
  {
    MinBeMono(m, n);
  }

  /** A head is never shorter than the encoder's, and as short only when it is the encoder's. */
  lemma HeadCost(b: Bytes, p: nat, h: Head)
    requires HeadAt(b, p) == Ok(h) && h.start > p
    ensures h.n < Pow256(8)
    ensures |Header(h.n, Offset(h.isList))| <= h.start - p
    ensures |Header(h.n, Offset(h.isList))| == h.start - p ==> At(b, p, Header(h.n, Offset(h.isList)))
  {
    hide Pow256, MinBe, BeNat, At;
    EightBytes();
    var t := b[p];
    if 0xb7 < t <= 0xbf {
      LongHeadCost(b, p, t - 0xb7, 0x80);
    } else if t > 0xf7 {
      LongHeadCost(b, p, t - 0xf7, 0xc0);
    } else {
      AtSlice(b, p, p + 1);
      assert b[p..p + 1] == [t];
    }
  }

  lemma LongHeadCost(b: Bytes, p: nat, k: nat, off: nat)
    requires (off == 0x80 || off == 0xc0) && 1 <= k <= 8 && p + 1 + k <= |b| && b[p] == off + 55 + k
    ensures var n := BeNat(b[p + 1..p + 1 + k]);
            n < Pow256(8) && |Header(n, off)| <= 1 + k && (|Header(n, off)| == 1 + k ==> At(b, p, Header(n, off)))
  {
    hide Pow256, MinBe, BeNat;
    var nb := b[p + 1..p + 1 + k];
    var n := BeNat(nb);
    Pow256Mono(k, 8);
    MinBeShortest(nb);
    if n >= 56 && |MinBe(n)| == k {
      BeNatOfMinBe(n);
      BeBytesOfBeNat(nb);
      BeBytesOfBeNat(MinBe(n));
      assert b[p..p + 1 + k] == [b[p]] + nb;
    }
  }

  /**
   * Whatever the reader accepts, encoding it again is never longer, and it is as long only when
   * the bytes read were already the encoder's.
   */
  lemma {:induction false} Reencoding(b: Bytes, p: nat, x: Item, end: nat)
    requires DecodeItem(b, p) == Ok(Read(x, end))
    ensures Fits(x) && |Encode(x)| <= end - p
    ensures |Encode(x)| == end - p ==> At(b, p, Encode(x))
    decreases |b| - p, 0
  {
    hide HeadAt, Header, At, EncodeAll, DecodePayload;
    var h := HeadAt(b, p).value;
    EightBytes();
    if h.start == p {
      OnlyLowByte(b, p, h);
      AtSlice(b, p, p + 1);
    } else {
      HeadCost(b, p, h);
      var body := if x.Str? then x.bytes else EncodeAll(x.items);
      if x.List? {
        ReencodingAll(b, h.start, end, x.items);
      } else {
        AtSlice(b, h.start, end);
      }
      HeaderMono(|body|, h.n, Offset(h.isList));
      AtConcat(b, p, Header(|body|, Offset(h.isList)), body);
    }
  }

  lemma OnlyLowByte(b: Bytes, p: nat, h: Head)
    requires HeadAt(b, p) == Ok(h) && h.start == p
    ensures !h.isList && h.n == 1 && b[p] < 0x80
  {
  }

  lemma {:induction false} ReencodingAll(b: Bytes, p: nat, end: nat, xs: seq<Item>)
    requires p <= end <= |b| && DecodePayload(b, p, end) == Ok(xs)
    ensures FitsAll(xs) && |EncodeAll(xs)| <= end - p
    ensures |EncodeAll(xs)| == end - p ==> At(b, p, EncodeAll(xs))
    decreases |b| - p, 1
  {
    hide DecodeItem, DecodePayload, Encode, At, Fits;
    PayloadStep(b, p, end);
    if p < end {
      var x, next := DecodeItem(b, p).value.item, DecodeItem(b, p).value.end;
      assert xs[0] == x && xs[1..] == DecodePayload(b, next, end).value;
      Reencoding(b, p, x, next);
      ReencodingAll(b, next, end, xs[1..]);
      AtConcat(b, p, Encode(x), EncodeAll(xs[1..]));
    } else {
      AtNothing(b, p);
    }
  }

  // ------------------------------------------------------------ check.py's rlp_decode

  /** A Python slice: bounds past the end are cut back to it. */
  function Slice(b: Bytes, i: nat, j: nat): Bytes {
    var lo := if i < |b| then i else |b|;
    var hi := if j < |b| then j else |b|;
    if lo <= hi then b[lo..hi] else []
  }

  function PyHead(b: Bytes, p: nat): (h: Head)
    requires p < |b|
    ensures p <= h.start && p < h.start + h.n && (h.isList ==> p < h.start)
  {
    var t := b[p];
    if t < 0x80 then Head(false, p, 1)
    else if t < 0xb8 then Head(false, p + 1, t - 0x80)
    else if t < 0xc0 then var k := t - 0xb7; Head(false, p + 1 + k, BeNat(Slice(b, p + 1, p + 1 + k)))
    else if t < 0xf8 then Head(true, p + 1, t - 0xc0)
    else var k := t - 0xf7; Head(true, p + 1 + k, BeNat(Slice(b, p + 1, p + 1 + k)))
  }

  function PyItem(b: Bytes, p: nat): (r: Result<Read>)
    ensures r.Ok? ==> p < r.value.end
    decreases |b| - p, 0
  {
    if p >= |b| then Err else
      var h := PyHead(b, p);
      var stop := h.start + h.n;
      if h.isList then
        match PyList(b, h.start, stop) { case Err => Err case Ok(xs) => Ok(Read(List(xs), stop)) }
      else Ok(Read(Str(Slice(b, h.start, stop)), stop))
  }

  function PyList(b: Bytes, q: nat, stop: nat): Result<seq<Item>>
    decreases |b| - q, 1
  {
    if q > stop then Err
    else if q == stop then Ok([])
    else
      match PyItem(b, q)
      case Err => Err
      case Ok(d) =>
        match PyList(b, d.end, stop)
        case Err => Err
        case Ok(rest) => Ok([d.item] + rest)
  }

  function RlpDecode(b: Bytes): Result<Item> {
    match PyItem(b, 0)
    case Err => Err
    case Ok(d) => if d.end == |b| then Ok(d.item) else Err
  }

  /** Inside the buffer the two readers find the same items. */
  lemma {:induction false} PyIsDecode(b: Bytes, p: nat)
    ensures DecodeItem(b, p).Ok? ==> PyItem(b, p) == DecodeItem(b, p)
    ensures PyItem(b, p).Ok? && PyItem(b, p).value.end <= |b| ==> DecodeItem(b, p) == PyItem(b, p)
    decreases |b| - p, 0
  {
    hide HeadAt, PyHead, DecodePayload, PyList;
    if p < |b| {
      var h := PyHead(b, p);
      PyHeadIsHead(b, p);
      if h.start + h.n <= |b| && h.isList {
        PyListIsDecode(b, h.start, h.start + h.n);
      }
    } else {
      NoHead(b, p);
    }
  }

  lemma NoHead(b: Bytes, p: nat)
    requires p >= |b|
    ensures HeadAt(b, p) == Err
  {
  }

  lemma PyHeadIsHead(b: Bytes, p: nat)
    requires p < |b|
    ensures PyHead(b, p).start + PyHead(b, p).n <= |b| ==> HeadAt(b, p) == Ok(PyHead(b, p))
    ensures HeadAt(b, p).Ok? ==> HeadAt(b, p).value == PyHead(b, p)
  {
    hide BeNat;
  }

  lemma {:induction false} PyListIsDecode(b: Bytes, q: nat, stop: nat)
    requires q <= stop <= |b|
    ensures PyList(b, q, stop) == DecodePayload(b, q, stop)
    decreases |b| - q, 1
  {
    hide DecodeItem, PyItem, DecodePayload;
    PayloadStep(b, q, stop);
    if q < stop {
      PyIsDecode(b, q);
      if PyItem(b, q).Ok? && PyItem(b, q).value.end <= stop {
        PyListIsDecode(b, PyItem(b, q).value.end, stop);
      }
    }
  }

  /** check.py reads back what it encodes, and only reads what rlp.ts reads whole. */
  lemma RlpDecodeIs(b: Bytes, x: Item)
    ensures RlpDecode(b) == Ok(x) <==> DecodeItem(b, 0) == Ok(Read(x, |b|))
  {
    hide PyItem, DecodeItem;
    PyIsDecode(b, 0);
  }

  lemma RlpDecodeInverts(x: Item)
    requires Fits(x)
    ensures RlpDecode(Encode(x)) == Ok(x)
  {
    hide Encode, DecodeItem, RlpDecode;
    var b := Encode(x);
    AtSlice(b, 0, |b|);
    assert b[0..|b|] == b;
    DecodesEncoding(b, 0, x);
    RlpDecodeIs(b, x);
  }

  /** Of all the byte strings check.py reads as `x`, the encoder's is the shortest, and the only one so short. */
  lemma RlpDecodeShortest(b: Bytes, x: Item)
    requires RlpDecode(b) == Ok(x)
    ensures Fits(x) && |Encode(x)| <= |b|
    ensures |Encode(x)| == |b| ==> b == Encode(x)
  {
    hide Encode, DecodeItem, RlpDecode, Fits;
    RlpDecodeIs(b, x);
    Reencoding(b, 0, x, |b|);
    if |Encode(x)| == |b| {
      AtIs(b, 0, Encode(x));
    }
  }
}
