/**
 * RLP (Ethereum Yellow Paper, appendix B): the encoder of spec/tools/check.py and the strict
 * reader of packages/audit/src/settlement-blobs.ts.
 */
module Rlp {
  import opened Bytes

  datatype Item = Str(bytes: Bytes) | List(items: seq<Item>)

  // ------------------------------------------------------------------ the encoder

  /** The bytes that announce a payload of `n` bytes: `off` is 0x80 for a string, 0xc0 for a list. */
  function Header(n: nat, off: nat): (h: Bytes)
    requires off == 0x80 || off == 0xc0
    ensures |h| >= 1
  {
    if n < 56 then [off + n] else
      var nb := MinBe(n);
      [LowByte(off + 55 + |nb|)] + nb
  }

  /**
   * The source refuses an item whose length takes more than eight bytes; no item that fits reaches the other branch.
   */
  function LowByte(n: nat): byte {
    if n < 256 then n else 255
  }

  function Encode(x: Item): (e: Bytes)
    ensures |e| >= 1
  {
    match x
    case Str(b) => if |b| == 1 && b[0] < 0x80 then b else Header(|b|, 0x80) + b
    case List(xs) => var body := EncodeAll(xs); Header(|body|, 0xc0) + body
  }

  function EncodeAll(xs: seq<Item>): Bytes {
    if xs == [] then [] else Encode(xs[0]) + EncodeAll(xs[1..])
  }

  /** No payload anywhere in the item takes more than eight bytes to count. */
  ghost predicate Fits(x: Item) {
    match x
    case Str(b) => |b| < Pow256(8)
    case List(xs) => FitsAll(xs) && |EncodeAll(xs)| < Pow256(8)
  }

  ghost predicate FitsAll(xs: seq<Item>) {
    xs == [] || (Fits(xs[0]) && FitsAll(xs[1..]))
  }

  // ------------------------------------------------------------ one item's extent

  /** An item's payload, `end` excluded. */
  datatype Span = Span(isList: bool, start: nat, end: nat)

  /** A long form's length: no leading zero, and not one the short form could say. */
  function LengthAt(buf: Bytes, pos: nat, k: nat): (r: Result<nat>)
    requires 1 <= k && pos + k <= |buf|
  {
    if buf[pos] == 0 then Err
    else if BeNat(buf[pos..pos + k]) < 56 then Err
    else Ok(BeNat(buf[pos..pos + k]))
  }

  method ReadLen(buf: Bytes, pos: nat, k: nat) returns (r: Result<nat>)
    requires 1 <= k && pos + k <= |buf|
    ensures r == LengthAt(buf, pos, k)
  {
    if buf[pos] == 0 {
      return Err;
    }
    var n: nat := 0;
    for i := 0 to k
      invariant n == BeNat(buf[pos..pos + i])
    {
      assert Init(buf[pos..pos + i + 1]) == buf[pos..pos + i];
      n := n * 256 + buf[pos + i];
    }
    r := if n < 56 then Err else Ok(n);
  }

  /** The item at `pos`; none when its header runs past `limit`. The payload itself may still run past it. */
  function SpanAt(buf: Bytes, pos: nat, limit: nat): (r: Result<Option<Span>>)
    requires limit <= |buf|
    ensures r.Ok? && r.value.Some? ==>
      var s := r.value.value; pos < limit && pos <= s.start <= limit && s.start <= s.end && pos < s.end
    ensures r.Ok? && r.value.Some? && r.value.value.isList ==> pos < r.value.value.start
  {
    if pos >= limit then Ok(None) else
      var b := buf[pos];
      if b < 0x80 then Ok(Some(Span(false, pos, pos + 1)))
      else if b <= 0xb7 then
        if b == 0x81 && pos + 1 < limit && buf[pos + 1] < 0x80 then Err
        else Ok(Some(Span(false, pos + 1, pos + 1 + (b - 0x80))))
      else if b <= 0xbf then LongSpan(buf, pos, limit, b - 0xb7, false)
      else if b <= 0xf7 then Ok(Some(Span(true, pos + 1, pos + 1 + (b - 0xc0))))
      else LongSpan(buf, pos, limit, b - 0xf7, true)
  }

  function LongSpan(buf: Bytes, pos: nat, limit: nat, k: nat, isList: bool): (r: Result<Option<Span>>)
    requires pos < limit <= |buf| && 1 <= k <= 8
    ensures r.Ok? && r.value.Some? ==> pos < r.value.value.start <= limit && r.value.value.start <= r.value.value.end
    ensures r.Ok? && r.value.Some? ==> r.value.value.isList == isList
  {
    if pos + 1 + k > limit then Ok(None) else
      match LengthAt(buf, pos + 1, k)
      case Err => Err
      case Ok(n) => Ok(Some(Span(isList, pos + 1 + k, pos + 1 + k + n)))
  }

  // ------------------------------------------------- a header and its span, both ways

  function Offset(isList: bool): nat {
    if isList then 0xc0 else 0x80
  }

  lemma EightBytes()
    ensures Pow256(8) == 0x1_0000_0000_0000_0000
  {
  }

  /** The header a span was read from is the one the encoder writes for its payload; a single low byte has none. */
  lemma SpanHeader(buf: Bytes, pos: nat, limit: nat, s: Span)
    requires limit <= |buf| && SpanAt(buf, pos, limit) == Ok(Some(s))
    ensures s.end - s.start < Pow256(8)
    ensures if s.start == pos then !s.isList && s.end == pos + 1 && buf[pos] < 0x80
            else && At(buf, pos, Header(s.end - s.start, Offset(s.isList)))
                 && s.start == pos + |Header(s.end - s.start, Offset(s.isList))|
  {
    hide Pow256, MinBe, At;
    EightBytes();
    var b := buf[pos];
    if 0xb7 < b <= 0xbf {
      LongHeader(buf, pos, limit, b - 0xb7, 0x80);
    } else if b > 0xf7 {
      LongHeader(buf, pos, limit, b - 0xf7, 0xc0);
    } else if b >= 0x80 {
      AtSlice(buf, pos, pos + 1);
      assert buf[pos..pos + 1] == [b];
    }
  }

  lemma LongHeader(buf: Bytes, pos: nat, limit: nat, k: nat, off: nat)
    requires pos < limit <= |buf| && 1 <= k <= 8 && pos + 1 + k <= limit
    requires off == 0x80 || off == 0xc0
    requires buf[pos] == off + 55 + k
    requires LengthAt(buf, pos + 1, k).Ok?
    ensures var n := LengthAt(buf, pos + 1, k).value;
            n < Pow256(8) && At(buf, pos, Header(n, off)) && |Header(n, off)| == 1 + k
  {
    hide Pow256, MinBe;
    var nb := buf[pos + 1..pos + 1 + k];
    MinBeOfBeNat(nb);
    Pow256Mono(k, 8);
    assert buf[pos..pos + 1 + k] == [buf[pos]] + nb;
  }

  lemma {:induction false} Pow256Mono(a: nat, b: nat)
    requires a <= b
    ensures Pow256(a) <= Pow256(b)
  {
    if a > 0 {
      Pow256Mono(a - 1, b - 1);
    } else if b > 0 {
      Pow256Mono(0, b - 1);
    }
  }

  /** A payload behind the encoder's header is found whole. */
  lemma HeaderSpan(buf: Bytes, pos: nat, limit: nat, n: nat, isList: bool)
    requires n < Pow256(8)
    requires limit <= |buf| && pos + |Header(n, Offset(isList))| <= limit
    requires At(buf, pos, Header(n, Offset(isList)))
    requires !isList && n == 1 && pos + 1 < limit ==> buf[pos + 1] >= 0x80
    ensures var start := pos + |Header(n, Offset(isList))|;
            SpanAt(buf, pos, limit) == Ok(Some(Span(isList, start, start + n)))
  {
    hide Pow256, MinBe, At;
    var h := Header(n, Offset(isList));
    AtByte(buf, pos, h, 0);
    if n >= 56 {
      var nb := MinBe(n);
      MinBeLength(n, 8);
      LengthFound(buf, pos + 1, n, [h[0]]);
      assert SpanAt(buf, pos, limit) == LongSpan(buf, pos, limit, |nb|, isList);
    }
  }

  lemma LengthFound(buf: Bytes, pos: nat, n: nat, first: Bytes)
    requires |first| == 1 && pos >= 1 && n >= 56 && At(buf, pos - 1, first + MinBe(n))
    ensures MinBe(n) != [] && pos + |MinBe(n)| <= |buf| && LengthAt(buf, pos, |MinBe(n)|) == Ok(n)
  {
    hide MinBe;
    BeNatOfMinBe(n);
    AtConcat(buf, pos - 1, first, MinBe(n));
    AtByte(buf, pos, MinBe(n), 0);
  }

  /** An encoded item, found where it was written: `end` is where it stops, and its payload stands before that. */
  lemma ItemSpan(buf: Bytes, pos: nat, limit: nat, x: Item)
    requires Fits(x) && At(buf, pos, Encode(x)) && pos + |Encode(x)| <= limit <= |buf|
    ensures var end := pos + |Encode(x)|; var body := if x.Str? then x.bytes else EncodeAll(x.items);
            |body| <= |Encode(x)| && SpanAt(buf, pos, limit) == Ok(Some(Span(x.List?, end - |body|, end))) &&
              At(buf, end - |body|, body)
  {
    hide EncodeAll, SpanAt, Header, At;
    var body := if x.Str? then x.bytes else EncodeAll(x.items);
    if x.Str? && |body| == 1 && body[0] < 0x80 {
      AtByte(buf, pos, body, 0);
      LowByteSpan(buf, pos, limit);
    } else {
      var h := Header(|body|, Offset(x.List?));
      AtConcat(buf, pos, h, body);
      if x.Str? && |body| == 1 {
        AtByte(buf, pos + |h|, body, 0);
        ShortHeader(1, 0x80);
      }
      HeaderSpan(buf, pos, limit, |body|, x.List?);
    }
  }

  lemma LowByteSpan(buf: Bytes, pos: nat, limit: nat)
    requires pos < limit <= |buf| && buf[pos] < 0x80
    ensures SpanAt(buf, pos, limit) == Ok(Some(Span(false, pos, pos + 1)))
  {
  }

  lemma ShortHeader(n: nat, off: nat)
    requires n < 56 && (off == 0x80 || off == 0xc0)
    ensures Header(n, off) == [off + n]
  {
  }

  // ------------------------------------------------------------- the strict reader

  /** The items of [p, end), nested lists read whole; an item that does not end inside its list is refused. */
  function ItemsFrom(buf: Bytes, p: nat, end: nat): (r: Result<seq<Item>>)
    requires end <= |buf|
    decreases if p < end then end - p else 0
  {
    if p >= end then Ok([]) else
      match SpanAt(buf, p, end)
      case Err => Err
      case Ok(None) => Err
      case Ok(Some(it)) =>
        if it.end > end then Err else
          match ItemOf(buf, p, end, it)
          case Err => Err
          case Ok(x) =>
            match ItemsFrom(buf, it.end, end)
            case Err => Err
            case Ok(rest) => Ok([x] + rest)
  }

  function ItemOf(buf: Bytes, p: nat, end: nat, it: Span): (r: Result<Item>)
    requires p <= it.start <= it.end <= end <= |buf| && p < end && (it.isList ==> p < it.start)
    decreases end - p, 0
  {
    if it.isList then
      match ItemsFrom(buf, it.start, it.end)
      case Err => Err
      case Ok(xs) => Ok(List(xs))
    else Ok(Str(buf[it.start..it.end]))
  }

  lemma NoItem(buf: Bytes, p: nat, end: nat)
    requires p < end <= |buf|
    requires var at := SpanAt(buf, p, end); at.Err? || at.value.None? || at.value.value.end > end
    ensures ItemsFrom(buf, p, end) == Err
  {
  }

  method ListItems(buf: Bytes, s: Span) returns (r: Result<seq<Item>>)
    requires s.start <= s.end <= |buf|
    ensures r == ItemsFrom(buf, s.start, s.end)
    decreases s.end - s.start
  {
    hide ItemsFrom, SpanAt;
    var items: seq<Item> := [];
    var p := s.start;
    FollowsNothing(ItemsFrom(buf, p, s.end));
    while p < s.end
      invariant s.start <= p <= s.end
      invariant ItemsFrom(buf, s.start, s.end) == FollowedBy(items, ItemsFrom(buf, p, s.end))
    {
      var at := SpanAt(buf, p, s.end);
      if at.Err? || at.value.None? || at.value.value.end > s.end {
        NoItem(buf, p, s.end);
        return Err;
      }
      var it := at.value.value;
      MoreItems(buf, p, s.end, it);
      var x: Item;
      if it.isList {
        var inner := ListItems(buf, it);
        if inner.Err? {
          return Err;
        }
        x := List(inner.value);
      } else {
        x := Str(buf[it.start..it.end]);
      }
      ghost var after := ItemsFrom(buf, it.end, s.end);
      if after.Ok? {
        assert items + ([x] + after.value) == (items + [x]) + after.value;
      }
      items := items + [x];
      p := it.end;
    }
    NoItems(buf, p, s.end);
    assert items + [] == items;
    r := Ok(items);
  }

  lemma NoItems(buf: Bytes, p: nat, end: nat)
    requires end <= |buf| && p >= end
    ensures ItemsFrom(buf, p, end) == Ok([])
  {
  }

  lemma MoreItems(buf: Bytes, p: nat, end: nat, it: Span)
    requires p < end <= |buf| && SpanAt(buf, p, end) == Ok(Some(it)) && it.end <= end
    ensures ItemsFrom(buf, p, end) ==
            match (ItemOf(buf, p, end, it), ItemsFrom(buf, it.end, end)) {
              case (Ok(x), Ok(rest)) => Ok([x] + rest)
              case _ => Err
            }
  {
  }

  /** Reading gives back what was written ... */
  lemma {:induction false} ReadsEncoding(buf: Bytes, p: nat, xs: seq<Item>)
    requires FitsAll(xs) && At(buf, p, EncodeAll(xs))
    ensures ItemsFrom(buf, p, p + |EncodeAll(xs)|) == Ok(xs)
    decreases xs
  {
    hide ItemsFrom, SpanAt, Encode, At;
    var end := p + |EncodeAll(xs)|;
    AtIs(buf, p, EncodeAll(xs));
    if xs == [] {
      NoItems(buf, p, end);
    } else {
      var x, e := xs[0], Encode(xs[0]);
      AtConcat(buf, p, e, EncodeAll(xs[1..]));
      ItemSpan(buf, p, end, x);
      var it := SpanAt(buf, p, end).value.value;
      assert ItemOf(buf, p, end, it) == Ok(x) by {
        if x.List? {
          ReadsEncoding(buf, it.start, x.items);
        } else {
          assert buf[it.start..it.end] == x.bytes by { AtIs(buf, it.start, x.bytes); }
        }
      }
      ReadsEncoding(buf, it.end, xs[1..]);
      MoreItems(buf, p, end, it);
      assert xs == [x] + xs[1..];
    }
  }

  /** ... and nothing is read that was not written so. */
  lemma {:induction false} EncodesReading(buf: Bytes, p: nat, end: nat, xs: seq<Item>)
    requires p <= end <= |buf| && ItemsFrom(buf, p, end) == Ok(xs)
    ensures FitsAll(xs) && At(buf, p, EncodeAll(xs)) && end == p + |EncodeAll(xs)|
    decreases end - p, 1
  {
    hide SpanAt, Encode, At, ItemOf, Fits;
    if p < end {
      var it := SpanAt(buf, p, end).value.value;
      var x := ItemOf(buf, p, end, it).value;
      assert xs == [x] + ItemsFrom(buf, it.end, end).value;
      assert xs[1..] == ItemsFrom(buf, it.end, end).value;
      EncodesItem(buf, p, end, it, x);
      EncodesReading(buf, it.end, end, xs[1..]);
      AtConcat(buf, p, Encode(x), EncodeAll(xs[1..]));
    } else {
      AtNothing(buf, p);
    }
  }

  lemma {:induction false} EncodesItem(buf: Bytes, p: nat, end: nat, it: Span, x: Item)
    requires p < end <= |buf| && SpanAt(buf, p, end) == Ok(Some(it)) && it.end <= end
    requires ItemOf(buf, p, end, it) == Ok(x)
    ensures Fits(x) && At(buf, p, Encode(x)) && it.end == p + |Encode(x)|
    decreases end - p, 0
  {
    hide SpanAt, At, ItemsFrom, EncodeAll, Header;
    SpanHeader(buf, p, end, it);
    AtSlice(buf, it.start, it.end);
    if it.isList {
      EncodesReading(buf, it.start, it.end, x.items);
      AtConcat(buf, p, Header(it.end - it.start, 0xc0), EncodeAll(x.items));
    } else if it.start != p {
      AtConcat(buf, p, Header(it.end - it.start, 0x80), x.bytes);
      if |x.bytes| == 1 {
        ShortHeader(1, 0x80);
        NotLow(buf, p, end, it);
      }
    }
  }

  lemma NotLow(buf: Bytes, p: nat, end: nat, it: Span)
    requires p < end <= |buf| && SpanAt(buf, p, end) == Ok(Some(it)) && it.end <= end
    requires !it.isList && it.start == p + 1 && it.end == p + 2
    ensures buf[p + 1] >= 0x80
  {
  }

  /** The strict reader accepts exactly the encoder's output, at any nesting, and reads it as what was encoded. */
  lemma StrictIsCanonical(buf: Bytes, p: nat, end: nat, xs: seq<Item>)
    requires p <= end <= |buf|
    ensures ItemsFrom(buf, p, end) == Ok(xs) <==> FitsAll(xs) && buf[p..end] == EncodeAll(xs)
  {
    hide ItemsFrom, EncodeAll, FitsAll;
    if ItemsFrom(buf, p, end) == Ok(xs) {
      EncodesReading(buf, p, end, xs);
      AtIs(buf, p, EncodeAll(xs));
    }
    if FitsAll(xs) && buf[p..end] == EncodeAll(xs) {
      AtSlice(buf, p, end);
      ReadsEncoding(buf, p, xs);
    }
  }

  /** No two item lists share an encoding. */
  lemma EncodingInjective(xs: seq<Item>, ys: seq<Item>)
    requires FitsAll(xs) && FitsAll(ys) && EncodeAll(xs) == EncodeAll(ys)
    ensures xs == ys
  {
    hide ItemsFrom, EncodeAll, FitsAll;
    var buf := EncodeAll(xs);
    AtSlice(buf, 0, |buf|);
    assert buf[0..|buf|] == buf;
    ReadsEncoding(buf, 0, xs);
    ReadsEncoding(buf, 0, ys);
  }
}
