/**
 * Channels as a batcher writes them, and what the reader makes of them: packages/audit/src/settlement-blobs.ts over
 * the encoder of spec/tools/check.py.
 */
module BatchCodec {
  import opened Bytes
  import opened Rlp
  import opened Schedule
  import opened Batches

  /** A batch as it is written: one block, or the columns of a span of them. */
  datatype Written =
    | OneBlock(parent: Bytes, epoch: nat, epochHash: Bytes, time: nat, txs: seq<Bytes>)
    | Columns(data: Bytes)

  function Strings(bs: seq<Bytes>): seq<Item> {
    if bs == [] then [] else [Str(bs[0])] + Strings(bs[1..])
  }

  function BlockItem(w: Written): (x: Item)
    requires w.OneBlock?
    ensures x.List?
  {
    List([Str(w.parent), Str(MinBe(w.epoch)), Str(w.epochHash), Str(MinBe(w.time)), List(Strings(w.txs))])
  }

  /** The batch's version byte and its content. */
  function Payload(w: Written): Bytes {
    if w.OneBlock? then [0] + Encode(BlockItem(w)) else [1] + w.data
  }

  function WriteBatch(w: Written): Bytes {
    Encode(Str(Payload(w)))
  }

  function WriteChannel(ws: seq<Written>): Bytes {
    if ws == [] then [] else WriteBatch(ws[0]) + WriteChannel(ws[1..])
  }

  /** Hashes of 32 bytes, a length that can be written, and columns that can be read. */
  ghost predicate Writable<S>(span: Bytes -> Result<S>, w: Written) {
    && |Payload(w)| < Pow256(8)
    && (if w.OneBlock? then |w.parent| == |w.epochHash| == 32 else span(w.data).Ok?)
  }

  ghost predicate AllWritable<S>(span: Bytes -> Result<S>, ws: seq<Written>) {
    forall w :: w in ws ==> Writable(span, w)
  }

  function BlockOf(w: Written): Block
    requires w.OneBlock?
  {
    Block(w.time, w.parent, w.txs, true)
  }

  function BatchOf<S>(span: Bytes -> Result<S>, w: Written, p: nat): Batch<S>
    requires w.Columns? ==> span(w.data).Ok?
  {
    if w.OneBlock? then Singular(p, BlockOf(w)) else SpanOf(p, span(w.data).value)
  }

  /** What was written, each batch where it stands. */
  ghost function BatchesOf<S>(span: Bytes -> Result<S>, ws: seq<Written>, p: nat): seq<Batch<S>>
    requires AllWritable(span, ws)
  {
    if ws == [] then []
    else
      assert Writable(span, ws[0]);
      [BatchOf(span, ws[0], p)] + BatchesOf(span, ws[1..], p + |WriteBatch(ws[0])|)
  }

  // ------------------------------------------------------------- what is written is read

  lemma FiveFields(a: Item, b: Item, c: Item, d: Item, l: Item)
    ensures EncodeAll([a, b, c, d, l]) == Encode(a) + (Encode(b) + (Encode(c) + (Encode(d) + Encode(l))))
  {
    hide Encode, EncodeAll, FitsAll, Fits;
    var four, three, two, one := [b] + ([c] + ([d] + [l])), [c] + ([d] + [l]), [d] + [l], [l] + [];
    OneByOne(a, b, c, d, l);
    OneMore(a, four);
    OneMore(b, three);
    OneMore(c, two);
    OneMore(d, one);
    OneMore(l, []);
    assert one == [l];
  }

  lemma OneByOne(a: Item, b: Item, c: Item, d: Item, l: Item)
    ensures [a, b, c, d, l] == [a] + ([b] + ([c] + ([d] + [l])))
  {
  }

  lemma OneMore(x: Item, xs: seq<Item>)
    ensures EncodeAll([x] + xs) == Encode(x) + EncodeAll(xs) && EncodeAll([]) == []
    ensures FitsAll([x] + xs) <==> Fits(x) && FitsAll(xs)
  {
    hide Encode, Fits;
    assert ([x] + xs)[1..] == xs;
  }

  lemma PayloadShorter(x: Item)
    ensures |if x.Str? then x.bytes else EncodeAll(x.items)| <= |Encode(x)|
  {
    hide EncodeAll, Header;
  }

  lemma {:induction false} StringsFit(bs: seq<Bytes>)
    requires |EncodeAll(Strings(bs))| < Pow256(8)
    ensures FitsAll(Strings(bs))
  {
    hide Encode, Pow256;
    if bs != [] {
      PayloadShorter(Str(bs[0]));
      assert Strings(bs)[1..] == Strings(bs[1..]);
      StringsFit(bs[1..]);
    }
  }

  lemma FieldReads(buf: Bytes, pos: nat, limit: nat, b: Bytes)
    requires |b| < Pow256(8) && At(buf, pos, Encode(Str(b))) && pos + |Encode(Str(b))| <= limit <= |buf|
    ensures BytesItem(buf, pos, limit) == Ok(Some(Field(b, pos + |Encode(Str(b))|)))
  {
    hide Encode, SpanAt, At, Pow256;
    ItemSpan(buf, pos, limit, Str(b));
    var end := pos + |Encode(Str(b))|;
    AtIs(buf, end - |b|, b);
  }

  lemma NumberReads(n: nat)
    ensures UintOf(MinBe(n)) == Ok(n)
  {
    hide MinBe;
    BeNatOfMinBe(n);
  }

  lemma {:induction false} TxsRead(buf: Bytes, q: nat, txs: seq<Bytes>)
    requires At(buf, q, EncodeAll(Strings(txs))) && |EncodeAll(Strings(txs))| < Pow256(8)
    ensures q + |EncodeAll(Strings(txs))| <= |buf|
    ensures TxsFrom(buf, q, q + |EncodeAll(Strings(txs))|) == Ok(Txs(txs, true))
    decreases |txs|
  {
    hide Encode, SpanAt, At, TxsFrom, Pow256;
    var all := EncodeAll(Strings(txs));
    AtIs(buf, q, all);
    TxStep(buf, q, q + |all|);
    if txs != [] {
      var x := Str(txs[0]);
      assert Strings(txs)[1..] == Strings(txs[1..]);
      AtConcat(buf, q, Encode(x), EncodeAll(Strings(txs[1..])));
      PayloadShorter(x);
      ItemSpan(buf, q, q + |all|, x);
      var end := q + |Encode(x)|;
      AtIs(buf, end - |txs[0]|, txs[0]);
      TxsRead(buf, end, txs[1..]);
      assert txs == [txs[0]] + txs[1..];
    }
  }

  /** Where each of a block's five fields begins. */
  lemma FieldsStand(buf: Bytes, pos: nat, w: Written)
    requires w.OneBlock? && At(buf, pos, EncodeAll(BlockItem(w).items))
    ensures var a, b, c, d, l := Encode(Str(w.parent)), Encode(Str(MinBe(w.epoch))), Encode(Str(w.epochHash)),
        Encode(Str(MinBe(w.time))), Encode(List(Strings(w.txs)));
      && At(buf, pos, a) && At(buf, pos + |a|, b) && At(buf, pos + |a| + |b|, c) && At(buf, pos + |a| + |b| + |c|, d)
      && At(buf, pos + |a| + |b| + |c| + |d|, l)
      && |EncodeAll(BlockItem(w).items)| == |a| + |b| + |c| + |d| + |l|
  {
    hide Encode, EncodeAll, At, MinBe;
    var a, b, c, d, l := Encode(Str(w.parent)), Encode(Str(MinBe(w.epoch))), Encode(Str(w.epochHash)),
      Encode(Str(MinBe(w.time))), Encode(List(Strings(w.txs)));
    FiveFields(Str(w.parent), Str(MinBe(w.epoch)), Str(w.epochHash), Str(MinBe(w.time)), List(Strings(w.txs)));
    AtConcat(buf, pos, a, b + (c + (d + l)));
    AtConcat(buf, pos + |a|, b, c + (d + l));
    AtConcat(buf, pos + |a| + |b|, c, d + l);
    AtConcat(buf, pos + |a| + |b| + |c|, d, l);
  }

  lemma BlockFits(w: Written)
    requires w.OneBlock? && |Encode(BlockItem(w))| < Pow256(8)
    ensures Fits(BlockItem(w)) && Fits(List(Strings(w.txs))) && |EncodeAll(Strings(w.txs))| < Pow256(8)
    ensures |w.parent| < Pow256(8) && |MinBe(w.epoch)| < Pow256(8)
    ensures |w.epochHash| < Pow256(8) && |MinBe(w.time)| < Pow256(8)
  {
    hide Encode, EncodeAll, MinBe, Pow256, Strings;
    var a, b, c, d, l := Str(w.parent), Str(MinBe(w.epoch)), Str(w.epochHash), Str(MinBe(w.time)),
      List(Strings(w.txs));
    FiveFields(a, b, c, d, l);
    PayloadShorter(BlockItem(w));
    PayloadShorter(a);
    PayloadShorter(b);
    PayloadShorter(c);
    PayloadShorter(d);
    PayloadShorter(l);
    StringsFit(w.txs);
    FiveFit(a, b, c, d, l);
  }

  lemma FiveFit(a: Item, b: Item, c: Item, d: Item, l: Item)
    requires Fits(a) && Fits(b) && Fits(c) && Fits(d) && Fits(l)
    ensures FitsAll([a, b, c, d, l])
  {
    hide Encode, EncodeAll, FitsAll, Fits;
    var four, three, two, one := [b] + ([c] + ([d] + [l])), [c] + ([d] + [l]), [d] + [l], [l] + [];
    NoneFit();
    OneByOne(a, b, c, d, l);
    OneMore(l, []);
    OneMore(d, one);
    OneMore(c, two);
    OneMore(b, three);
    OneMore(a, four);
    assert one == [l];
  }

  lemma NoneFit()
    ensures FitsAll([])
  {
  }

  /** The fields of a written block, parsed where they stand. */
  lemma FieldsParse(buf: Bytes, pos: nat, w: Written)
    requires w.OneBlock? && |w.parent| == |w.epochHash| == 32 && |Encode(BlockItem(w))| < Pow256(8)
    requires At(buf, pos, EncodeAll(BlockItem(w).items))
    ensures var end := pos + |EncodeAll(BlockItem(w).items)|;
      var list := end - |Encode(List(Strings(w.txs)))|;
      && pos <= list <= end <= |buf| && ParseFields(buf, pos, end) == Ok(Some(Fields(w.parent, w.time, list)))
      && At(buf, list, Encode(List(Strings(w.txs))))
  {
    hide Encode, EncodeAll, SpanAt, At, MinBe, BytesItem, UintOf, Pow256, Fits;
    AtIs(buf, pos, EncodeAll(BlockItem(w).items));
    BlockFits(w);
    FieldsStand(buf, pos, w);
    var end := pos + |EncodeAll(BlockItem(w).items)|;
    var a, b, c := Encode(Str(w.parent)), Encode(Str(MinBe(w.epoch))), Encode(Str(w.epochHash));
    FieldReads(buf, pos, end, w.parent);
    FieldReads(buf, pos + |a|, end, MinBe(w.epoch));
    FieldReads(buf, pos + |a| + |b|, end, w.epochHash);
    FieldReads(buf, pos + |a| + |b| + |c|, end, MinBe(w.time));
    NumberReads(w.epoch);
    NumberReads(w.time);
  }

  /** A block's list, its fields, and its transaction list behind them, up to `end`. */
  ghost predicate Stands(buf: Bytes, start: nat, end: nat, w: Written, outer: Span, f: Fields, list: Span)
    requires end <= |buf| && w.OneBlock?
  {
    && SpanAt(buf, start, end) == Ok(Some(outer)) && outer.isList && outer.end == end
    && ParseFields(buf, outer.start, end) == Ok(Some(f)) && f.parent == w.parent && f.timestamp == w.time
    && SpanAt(buf, f.pos, end) == Ok(Some(list)) && list.isList && list.end == end
    && start < outer.start <= f.pos < list.start
    && At(buf, list.start, EncodeAll(Strings(w.txs))) && list.start + |EncodeAll(Strings(w.txs))| == end
  }

  lemma FieldsRead(buf: Bytes, start: nat, w: Written) returns (outer: Span, f: Fields, list: Span)
    requires w.OneBlock? && |w.parent| == |w.epochHash| == 32 && |Encode(BlockItem(w))| < Pow256(8)
    requires At(buf, start, Encode(BlockItem(w)))
    ensures start + |Encode(BlockItem(w))| <= |buf| && |EncodeAll(Strings(w.txs))| < Pow256(8)
    ensures Stands(buf, start, start + |Encode(BlockItem(w))|, w, outer, f, list)
  {
    hide Encode, EncodeAll, SpanAt, At, ParseFields, Pow256, Fits, Strings, BlockItem;
    AtIs(buf, start, Encode(BlockItem(w)));
    BlockFits(w);
    var end := start + |Encode(BlockItem(w))|;
    ItemSpan(buf, start, end, BlockItem(w));
    outer := SpanAt(buf, start, end).value.value;
    FieldsParse(buf, outer.start, w);
    f := ParseFields(buf, outer.start, end).value.value;
    ItemSpan(buf, f.pos, end, List(Strings(w.txs)));
    list := SpanAt(buf, f.pos, end).value.value;
  }

  /** A written block, parsed where it stands. */
  lemma BlockReads(buf: Bytes, start: nat, w: Written)
    requires w.OneBlock? && |w.parent| == |w.epochHash| == 32 && |Encode(BlockItem(w))| < Pow256(8)
    requires At(buf, start, Encode(BlockItem(w)))
    ensures start + |Encode(BlockItem(w))| <= |buf|
    ensures ParseSingular(buf, start, start + |Encode(BlockItem(w))|, true) == Ok(Some(BlockOf(w)))
  {
    hide Encode, EncodeAll, SpanAt, At, ParseFields, TxsFrom, Pow256, BlockItem;
    var outer, f, list := FieldsRead(buf, start, w);
    TxsRead(buf, list.start, w.txs);
  }

  lemma PayloadStands(buf: Bytes, start: nat, first: byte, rest: Bytes)
    requires At(buf, start, [first] + rest)
    ensures buf[start] == first && start + 1 + |rest| <= |buf| && At(buf, start + 1, rest)
    ensures buf[start + 1..start + 1 + |rest|] == rest
  {
    hide At;
    AtConcat(buf, start, [first], rest);
    AtIs(buf, start, [first]);
    assert buf[start..start + 1][0] == buf[start];
    AtIs(buf, start + 1, rest);
  }

  lemma BatchReads<S>(span: Bytes -> Result<S>, channel: Bytes, p: nat, w: Written)
    requires Writable(span, w) && At(channel, p, WriteBatch(w))
    ensures p + |WriteBatch(w)| <= |channel|
    ensures BatchesFrom(span, channel, p, true) ==
      FollowedBy([BatchOf(span, w, p)], BatchesFrom(span, channel, p + |WriteBatch(w)|, true))
  {
    hide Encode, SpanAt, At, Pow256, ParseSingular, BatchesFrom, BlockItem;
    AtIs(channel, p, WriteBatch(w));
    ItemSpan(channel, p, |channel|, Str(Payload(w)));
    BatchStep(span, channel, p, true);
    var end := p + |WriteBatch(w)|;
    var start := end - |Payload(w)|;
    if w.OneBlock? {
      PayloadStands(channel, start, 0, Encode(BlockItem(w)));
      BlockReads(channel, start + 1, w);
    } else {
      PayloadStands(channel, start, 1, w.data);
    }
  }

  lemma {:induction false} ChannelReadsFrom<S>(span: Bytes -> Result<S>, channel: Bytes, p: nat, ws: seq<Written>)
    requires AllWritable(span, ws) && At(channel, p, WriteChannel(ws)) && p + |WriteChannel(ws)| == |channel|
    ensures BatchesFrom(span, channel, p, true) == Ok(BatchesOf(span, ws, p))
    decreases |ws|
  {
    hide WriteBatch, At, BatchesFrom, Writable, BatchOf;
    if ws == [] {
      BatchStep(span, channel, p, true);
    } else {
      AtConcat(channel, p, WriteBatch(ws[0]), WriteChannel(ws[1..]));
      BatchReads(span, channel, p, ws[0]);
      ChannelReadsFrom(span, channel, p + |WriteBatch(ws[0])|, ws[1..]);
    }
  }

  /** A written channel reads as what was written: each batch at its offset, with its own parent, time and content. */
  lemma ChannelReads<S>(span: Bytes -> Result<S>, ws: seq<Written>)
    requires AllWritable(span, ws)
    ensures BatchesFrom(span, WriteChannel(ws), 0, true) == Ok(BatchesOf(span, ws, 0))
  {
    hide WriteChannel, AllWritable, BatchesFrom, BatchesOf;
    AtSlice(WriteChannel(ws), 0, |WriteChannel(ws)|);
    assert WriteChannel(ws)[0..|WriteChannel(ws)|] == WriteChannel(ws);
    ChannelReadsFrom(span, WriteChannel(ws), 0, ws);
  }

  // -------------------------------------------------------- what is read was written so

  lemma FieldWritten(buf: Bytes, pos: nat, limit: nat, f: Field)
    requires limit <= |buf| && BytesItem(buf, pos, limit) == Ok(Some(f))
    ensures At(buf, pos, Encode(Str(f.bytes))) && f.end == pos + |Encode(Str(f.bytes))| <= limit
  {
    hide SpanAt, At, Encode;
    var s := SpanAt(buf, pos, limit).value.value;
    SpanWritten(buf, pos, limit, s);
  }

  /** A string's span is that of the string written out. */
  lemma SpanWritten(buf: Bytes, pos: nat, limit: nat, s: Span)
    requires limit <= |buf| && SpanAt(buf, pos, limit) == Ok(Some(s)) && !s.isList && s.end <= limit
    ensures At(buf, pos, Encode(Str(buf[s.start..s.end]))) && s.end == pos + |Encode(Str(buf[s.start..s.end]))|
    ensures s.end - s.start < Pow256(8)
  {
    hide SpanAt, At, Encode, Pow256;
    SpanHeader(buf, pos, limit, s);
    SpanNearer(buf, pos, limit, s);
    EncodesItem(buf, pos, s.end, s, Str(buf[s.start..s.end]));
  }

  /** A limit no nearer than the item's end makes no difference. */
  lemma SpanNearer(buf: Bytes, pos: nat, limit: nat, s: Span)
    requires limit <= |buf| && SpanAt(buf, pos, limit) == Ok(Some(s)) && s.end <= limit
    ensures SpanAt(buf, pos, s.end) == Ok(Some(s))
  {
  }

  lemma {:induction false} TxsWritten(buf: Bytes, q: nat, end: nat, txs: seq<Bytes>)
    requires q <= end <= |buf| && TxsFrom(buf, q, end) == Ok(Txs(txs, true))
    ensures At(buf, q, EncodeAll(Strings(txs))) && end == q + |EncodeAll(Strings(txs))|
    decreases end - q
  {
    hide SpanAt, At, Encode, TxsFrom;
    TxStep(buf, q, end);
    if q < end {
      var s := SpanAt(buf, q, end).value.value;
      SpanWritten(buf, q, end, s);
      assert txs[0] == buf[s.start..s.end];
      assert txs[1..] == TxsFrom(buf, s.end, end).value.txs;
      TxsWritten(buf, s.end, end, txs[1..]);
      assert Strings(txs)[1..] == Strings(txs[1..]);
      AtConcat(buf, q, Encode(Str(txs[0])), EncodeAll(Strings(txs[1..])));
    } else {
      AtNothing(buf, q);
    }
  }

  lemma UintWritten(b: Bytes)
    requires UintOf(b).Ok?
    ensures MinBe(UintOf(b).value) == b
  {
    hide MinBe;
    MinBeOfBeNat(b);
  }

  /** A list's header, and behind it what the list holds. */
  lemma ListWritten(buf: Bytes, pos: nat, limit: nat, s: Span, xs: seq<Item>)
    requires limit <= |buf| && SpanAt(buf, pos, limit) == Ok(Some(s)) && s.isList
    requires At(buf, s.start, EncodeAll(xs)) && s.end == s.start + |EncodeAll(xs)|
    ensures At(buf, pos, Encode(List(xs))) && s.end == pos + |Encode(List(xs))|
  {
    hide SpanAt, At, EncodeAll, Header, Pow256;
    SpanHeader(buf, pos, limit, s);
    AtConcat(buf, pos, Header(s.end - s.start, 0xc0), EncodeAll(xs));
  }

  lemma FieldsJoin(buf: Bytes, pos: nat, w: Written)
    requires w.OneBlock?
    requires var a, b, c, d, l := Encode(Str(w.parent)), Encode(Str(MinBe(w.epoch))), Encode(Str(w.epochHash)),
        Encode(Str(MinBe(w.time))), Encode(List(Strings(w.txs)));
      && At(buf, pos, a) && At(buf, pos + |a|, b) && At(buf, pos + |a| + |b|, c) && At(buf, pos + |a| + |b| + |c|, d)
      && At(buf, pos + |a| + |b| + |c| + |d|, l)
    ensures At(buf, pos, EncodeAll(BlockItem(w).items))
    ensures |EncodeAll(BlockItem(w).items)| == |Encode(Str(w.parent))| + |Encode(Str(MinBe(w.epoch)))| +
      |Encode(Str(w.epochHash))| + |Encode(Str(MinBe(w.time)))| + |Encode(List(Strings(w.txs)))|
  {
    hide Encode, EncodeAll, At, MinBe;
    var a, b, c, d, l := Encode(Str(w.parent)), Encode(Str(MinBe(w.epoch))), Encode(Str(w.epochHash)),
      Encode(Str(MinBe(w.time))), Encode(List(Strings(w.txs)));
    FiveFields(Str(w.parent), Str(MinBe(w.epoch)), Str(w.epochHash), Str(MinBe(w.time)), List(Strings(w.txs)));
    AtConcat(buf, pos + |a| + |b| + |c|, d, l);
    AtConcat(buf, pos + |a| + |b|, c, d + l);
    AtConcat(buf, pos + |a|, b, c + (d + l));
    AtConcat(buf, pos, a, b + (c + (d + l)));
  }

  /** A block parsed whole stands there as it is written, with some epoch. */
  lemma BlockWritten(buf: Bytes, start: nat, end: nat, b: Block) returns (w: Written)
    requires end <= |buf| && ParseSingular(buf, start, end, true) == Ok(Some(b)) && b.complete
    ensures w.OneBlock? && |w.parent| == |w.epochHash| == 32 && BlockOf(w) == b
    ensures At(buf, start, Encode(BlockItem(w))) && end == start + |Encode(BlockItem(w))|
  {
    hide Encode, EncodeAll, SpanAt, At, MinBe, BytesItem, UintOf, TxsFrom, Pow256, Fits;
    var outer := SpanAt(buf, start, end).value.value;
    var parent := BytesItem(buf, outer.start, end).value.value;
    var epoch := BytesItem(buf, parent.end, end).value.value;
    var epochHash := BytesItem(buf, epoch.end, end).value.value;
    var time := BytesItem(buf, epochHash.end, end).value.value;
    var list := SpanAt(buf, time.end, end).value.value;
    FieldWritten(buf, outer.start, end, parent);
    FieldWritten(buf, parent.end, end, epoch);
    FieldWritten(buf, epoch.end, end, epochHash);
    FieldWritten(buf, epochHash.end, end, time);
    UintWritten(epoch.bytes);
    UintWritten(time.bytes);
    w := OneBlock(parent.bytes, UintOf(epoch.bytes).value, epochHash.bytes, UintOf(time.bytes).value, b.txs);
    TxsWritten(buf, list.start, end, b.txs);
    ListWritten(buf, time.end, end, list, Strings(b.txs));
    FieldsJoin(buf, outer.start, w);
    ListWritten(buf, start, end, outer, BlockItem(w).items);
  }

  /** A payload is read as a block that is all there exactly when it is that block written out, with some epoch. */
  lemma BlockIsWritten(buf: Bytes, start: nat, end: nat, b: Block)
    requires start <= end <= |buf| && end - start < Pow256(8)
    ensures ParseSingular(buf, start, end, true) == Ok(Some(b)) && b.complete <==>
      exists w: Written :: w.OneBlock? && |w.parent| == |w.epochHash| == 32 && BlockOf(w) == b &&
        buf[start..end] == Encode(BlockItem(w))
  {
    hide Encode, ParseSingular, At, Pow256, BlockItem;
    if ParseSingular(buf, start, end, true) == Ok(Some(b)) && b.complete {
      var w := BlockWritten(buf, start, end, b);
      AtIs(buf, start, Encode(BlockItem(w)));
    }
    if w: Written :|
      && w.OneBlock? && |w.parent| == |w.epochHash| == 32 && BlockOf(w) == b
      && buf[start..end] == Encode(BlockItem(w))
    {
      AtSlice(buf, start, end);
      BlockReads(buf, start, w);
    }
  }

  /** Every block is all there. */
  ghost predicate AllComplete<S>(bs: seq<Batch<S>>) {
    forall b :: b in bs && b.Singular? ==> b.block.complete
  }

  /** The channel is items to its end, and as many of them as there are batches: none came to nothing. */
  ghost predicate NoneLost<S>(channel: Bytes, bs: seq<Batch<S>>) {
    ItemsFrom(channel, 0, |channel|).Ok? && |ItemsFrom(channel, 0, |channel|).value| == |bs|
  }

  lemma OneItem<S>(span: Bytes -> Result<S>, channel: Bytes, p: nat, s: Span)
    requires p < |channel| && SpanAt(channel, p, |channel|) == Ok(Some(s)) && s.end <= |channel|
    requires BatchesFrom(span, channel, p, true).Ok? && ItemsFrom(channel, p, |channel|).Ok?
    ensures !s.isList && s.start < s.end && ItemsFrom(channel, s.end, |channel|).Ok?
    ensures WholeBatch(span, channel, p, s).Ok? && BatchesFrom(span, channel, s.end, true).Ok?
    ensures BatchesFrom(span, channel, p, true).value ==
      WholeBatch(span, channel, p, s).value + BatchesFrom(span, channel, s.end, true).value
    ensures |ItemsFrom(channel, p, |channel|).value| == 1 + |ItemsFrom(channel, s.end, |channel|).value|
  {
    hide BatchesFrom, ItemsFrom, SpanAt, WholeBatch;
    BatchStep(span, channel, p, true);
    MoreItems(channel, p, |channel|, s);
  }

  lemma ItemThere(channel: Bytes, p: nat)
    requires p < |channel| && ItemsFrom(channel, p, |channel|).Ok?
    ensures var at := SpanAt(channel, p, |channel|); at.Ok? && at.value.Some? && at.value.value.end <= |channel|
  {
    hide SpanAt, ItemsFrom;
    var at := SpanAt(channel, p, |channel|);
    if at.Err? || at.value.None? || at.value.value.end > |channel| {
      NoItem(channel, p, |channel|);
    }
  }

  lemma {:induction false} AtMostItems<S>(span: Bytes -> Result<S>, channel: Bytes, p: nat)
    requires p <= |channel|
    requires BatchesFrom(span, channel, p, true).Ok? && ItemsFrom(channel, p, |channel|).Ok?
    ensures |BatchesFrom(span, channel, p, true).value| <= |ItemsFrom(channel, p, |channel|).value|
    decreases |channel| - p
  {
    hide BatchesFrom, ItemsFrom, SpanAt, ParseSingular;
    if p == |channel| {
      BatchStep(span, channel, p, true);
    } else {
      ItemThere(channel, p);
      var s := SpanAt(channel, p, |channel|).value.value;
      OneItem(span, channel, p, s);
      AtMostItems(span, channel, s.end);
    }
  }

  /** One item that came to a batch stands there as that batch is written. */
  lemma BatchWritten<S>(span: Bytes -> Result<S>, channel: Bytes, p: nat, s: Span) returns (w: Written)
    requires p < |channel| && SpanAt(channel, p, |channel|) == Ok(Some(s)) && s.end <= |channel|
    requires !s.isList && s.start < s.end
    requires WholeBatch(span, channel, p, s).Ok? && |WholeBatch(span, channel, p, s).value| == 1
    requires AllComplete(WholeBatch(span, channel, p, s).value)
    ensures Writable(span, w) && At(channel, p, WriteBatch(w)) && s.end == p + |WriteBatch(w)|
    ensures WholeBatch(span, channel, p, s).value == [BatchOf(span, w, p)]
  {
    hide SpanAt, At, Encode, ParseSingular, BlockItem, Pow256;
    SpanWritten(channel, p, |channel|, s);
    assert WholeBatch(span, channel, p, s).value[0] in WholeBatch(span, channel, p, s).value;
    assert channel[s.start..s.end] == [channel[s.start]] + channel[s.start + 1..s.end];
    if channel[s.start] == 0 {
      w := BlockWritten(channel, s.start + 1, s.end, ParseSingular(channel, s.start + 1, s.end, true).value.value);
      AtIs(channel, s.start + 1, Encode(BlockItem(w)));
    } else {
      w := Columns(channel[s.start + 1..s.end]);
    }
    assert Payload(w) == channel[s.start..s.end];
  }

  lemma {:induction false} ChannelWrittenFrom<S>(span: Bytes -> Result<S>, channel: Bytes, p: nat)
    returns (ws: seq<Written>)
    requires p <= |channel|
    requires BatchesFrom(span, channel, p, true).Ok? && ItemsFrom(channel, p, |channel|).Ok?
    requires AllComplete(BatchesFrom(span, channel, p, true).value)
    requires |BatchesFrom(span, channel, p, true).value| == |ItemsFrom(channel, p, |channel|).value|
    ensures AllWritable(span, ws) && At(channel, p, WriteChannel(ws)) && p + |WriteChannel(ws)| == |channel|
    ensures BatchesFrom(span, channel, p, true).value == BatchesOf(span, ws, p)
    decreases |channel| - p
  {
    hide BatchesFrom, ItemsFrom, SpanAt, WholeBatch, WriteBatch, BatchOf, At, Writable;
    if p == |channel| {
      BatchStep(span, channel, p, true);
      AtNothing(channel, p);
      ws := [];
    } else {
      ItemThere(channel, p);
      var s := SpanAt(channel, p, |channel|).value.value;
      OneItem(span, channel, p, s);
      AtMostItems(span, channel, s.end);
      AtMostOne(span, channel, p, s);
      var w := BatchWritten(span, channel, p, s);
      var rest := ChannelWrittenFrom(span, channel, s.end);
      ws := [w] + rest;
      assert ws[1..] == rest;
      AtConcat(channel, p, WriteBatch(w), WriteChannel(rest));
    }
  }

  lemma AtMostOne<S>(span: Bytes -> Result<S>, channel: Bytes, p: nat, s: Span)
    requires s.start < s.end <= |channel|
    ensures WholeBatch(span, channel, p, s).Ok? ==> |WholeBatch(span, channel, p, s).value| <= 1
  {
    hide ParseSingular;
  }

  lemma {:induction false} WrittenItems<S>(span: Bytes -> Result<S>, ws: seq<Written>, p: nat) returns (xs: seq<Item>)
    requires AllWritable(span, ws)
    ensures FitsAll(xs) && EncodeAll(xs) == WriteChannel(ws) && |xs| == |ws| == |BatchesOf(span, ws, p)|
    ensures AllComplete(BatchesOf(span, ws, p))
    decreases |ws|
  {
    hide Encode, Pow256, Payload;
    xs := [];
    if ws != [] {
      assert Writable(span, ws[0]);
      var rest := WrittenItems(span, ws[1..], p + |WriteBatch(ws[0])|);
      xs := [Str(Payload(ws[0]))] + rest;
      assert xs[1..] == rest;
    }
  }

  /**
   * Exactly the channels that someone could have written read whole, with every block complete and no item that came
   * to nothing; and they read as what was written.
   */
  lemma ChannelIsWritten<S>(span: Bytes -> Result<S>, channel: Bytes, bs: seq<Batch<S>>)
    ensures BatchesFrom(span, channel, 0, true) == Ok(bs) && AllComplete(bs) && NoneLost(channel, bs) <==>
      exists ws :: AllWritable(span, ws) && channel == WriteChannel(ws) && bs == BatchesOf(span, ws, 0)
  {
    hide BatchesFrom, ItemsFrom, BatchesOf, WriteChannel, AllWritable, At, AllComplete, FitsAll, EncodeAll;
    if BatchesFrom(span, channel, 0, true) == Ok(bs) && AllComplete(bs) && NoneLost(channel, bs) {
      var ws := ChannelWrittenFrom(span, channel, 0);
      AtIs(channel, 0, WriteChannel(ws));
      assert channel == channel[0..|channel|];
    }
    if ws :| AllWritable(span, ws) && channel == WriteChannel(ws) && bs == BatchesOf(span, ws, 0) {
      ChannelReads(span, ws);
      var xs := WrittenItems(span, ws, 0);
      assert channel[0..|channel|] == channel;
      StrictIsCanonical(channel, 0, |channel|, xs);
    }
  }

  /**
   * Two channels that read whole as no batch at all, and that nobody could have written so: a block with no content,
   * and a header whose payload is missing.
   */
  lemma ItemsLost<S>(span: Bytes -> Result<S>)
    ensures BatchesFrom(span, [0], 0, true) == BatchesFrom(span, [0x85], 0, true) == Ok([])
    ensures !NoneLost<S>([0], []) && !NoneLost<S>([0x85], [])
  {
    var none: Bytes := [0];
    assert SpanAt(none, 0, 1) == Ok(Some(Span(false, 0, 1))) && ParseSingular(none, 1, 1, true) == Ok(None);
    BatchStep(span, none, 0, true);
    BatchStep(span, none, 1, true);
    assert BatchesFrom(span, none, 1, true) == Ok([]);
    assert WholeBatch(span, none, 0, Span(false, 0, 1)) == Ok([]);
    FollowsNothing(BatchesFrom(span, none, 1, true));
    MoreItems(none, 0, 1, Span(false, 0, 1));
    var cut: Bytes := [0x85];
    assert SpanAt(cut, 0, 1) == Ok(Some(Span(false, 1, 6)));
    BatchStep(span, cut, 0, true);
    assert BatchesFrom(span, cut, 0, true) == Ok([]);
    NoItem(cut, 0, 1);
  }

  // --------------------------------------------------------- how much of a cut one is read

  /** The transactions that end within `room` bytes of where the first begins. */
  function TxsWithin(txs: seq<Bytes>, room: nat): seq<Bytes> {
    if txs == [] || |Encode(Str(txs[0]))| > room then []
    else [txs[0]] + TxsWithin(txs[1..], room - |Encode(Str(txs[0]))|)
  }

  /**
   * What is read of a channel from `p` on when it is cut at `m`: the batches that end by there, and of a block that
   * does not, when its first transaction would begin by there, those of its transactions that end by there.
   */
  ghost function BatchesWithin<S>(span: Bytes -> Result<S>, ws: seq<Written>, p: nat, m: nat): seq<Batch<S>>
    requires AllWritable(span, ws)
  {
    if ws == [] || p >= m then []
    else
      assert Writable(span, ws[0]);
      var w, end := ws[0], p + |WriteBatch(ws[0])|;
      if end <= m then [BatchOf(span, w, p)] + BatchesWithin(span, ws[1..], end, m)
      else if w.OneBlock? && m + |EncodeAll(Strings(w.txs))| >= end then
        [Singular(p, Block(w.time, w.parent, TxsWithin(w.txs, m + |EncodeAll(Strings(w.txs))| - end), false))]
      else []
  }

  /** An item's extent shows as soon as its header is there. */
  lemma SpanShows(buf: Bytes, pos: nat, m: nat, limit: nat, s: Span)
    requires m <= limit <= |buf| && SpanAt(buf, pos, limit) == Ok(Some(s))
    ensures SpanAt(buf, pos, m) == if pos < m && s.start <= m then Ok(Some(s)) else Ok(None)
  {
  }

  lemma FieldShows(buf: Bytes, pos: nat, m: nat, limit: nat, f: Field)
    requires m <= limit <= |buf| && BytesItem(buf, pos, limit) == Ok(Some(f))
    ensures BytesItem(buf, pos, m) == if f.end <= m then Ok(Some(f)) else Ok(None)
  {
    hide SpanAt;
    SpanShows(buf, pos, m, limit, SpanAt(buf, pos, limit).value.value);
  }

  lemma {:induction false} TxsShow(buf: Bytes, q: nat, txs: seq<Bytes>, m: nat)
    requires At(buf, q, EncodeAll(Strings(txs))) && |EncodeAll(Strings(txs))| < Pow256(8)
    requires q <= m <= q + |EncodeAll(Strings(txs))|
    ensures m <= |buf| && TxsFrom(buf, q, m).Ok? && TxsFrom(buf, q, m).value.txs == TxsWithin(txs, m - q)
    decreases |txs|
  {
    hide Encode, SpanAt, At, TxsFrom, Pow256;
    var all := EncodeAll(Strings(txs));
    AtIs(buf, q, all);
    TxStep(buf, q, m);
    if txs != [] {
      var x := Str(txs[0]);
      assert Strings(txs)[1..] == Strings(txs[1..]);
      AtConcat(buf, q, Encode(x), EncodeAll(Strings(txs[1..])));
      PayloadShorter(x);
      ItemSpan(buf, q, q + |all|, x);
      var end := q + |Encode(x)|;
      AtIs(buf, end - |txs[0]|, txs[0]);
      SpanShows(buf, q, m, q + |all|, SpanAt(buf, q, q + |all|).value.value);
      if end <= m {
        TxsShow(buf, end, txs[1..], m);
      }
    }
  }

  lemma FieldsShow(buf: Bytes, pos: nat, m: nat, limit: nat, f: Fields)
    requires m <= limit <= |buf| && ParseFields(buf, pos, limit) == Ok(Some(f))
    ensures ParseFields(buf, pos, m) == if f.pos <= m then Ok(Some(f)) else Ok(None)
  {
    hide BytesItem, UintOf;
    var parent := BytesItem(buf, pos, limit).value.value;
    var epoch := BytesItem(buf, parent.end, limit).value.value;
    var epochHash := BytesItem(buf, epoch.end, limit).value.value;
    var time := BytesItem(buf, epochHash.end, limit).value.value;
    FieldShows(buf, pos, m, limit, parent);
    FieldShows(buf, parent.end, m, limit, epoch);
    FieldShows(buf, epoch.end, m, limit, epochHash);
    FieldShows(buf, epochHash.end, m, limit, time);
  }

  lemma BlockShows(buf: Bytes, start: nat, w: Written, m: nat)
    requires w.OneBlock? && |w.parent| == |w.epochHash| == 32 && |Encode(BlockItem(w))| < Pow256(8)
    requires At(buf, start, Encode(BlockItem(w))) && m < start + |Encode(BlockItem(w))|
    ensures m <= |buf|
    ensures var rest := m + |EncodeAll(Strings(w.txs))| - (start + |Encode(BlockItem(w))|);
      ParseSingular(buf, start, m, false) ==
        Ok(if rest >= 0 then Some(Block(w.time, w.parent, TxsWithin(w.txs, rest), false)) else None)
  {
    hide Encode, EncodeAll, SpanAt, At, ParseFields, TxsFrom, Pow256, BlockItem, TxsWithin;
    var outer, f, list := FieldsRead(buf, start, w);
    var end := start + |Encode(BlockItem(w))|;
    SpanShows(buf, start, m, end, outer);
    FieldsShow(buf, outer.start, m, end, f);
    SpanShows(buf, f.pos, m, end, list);
    if list.start <= m {
      TxsShow(buf, list.start, w.txs, m);
    }
  }

  lemma BatchShows<S>(span: Bytes -> Result<S>, channel: Bytes, p: nat, w: Written, m: nat)
    requires Writable(span, w) && At(channel, p, WriteBatch(w)) && p < m <= |channel|
    ensures p + |WriteBatch(w)| <= |channel|
    ensures BatchesFrom(span, channel[..m], p, false) ==
      if p + |WriteBatch(w)| <= m
      then FollowedBy([BatchOf(span, w, p)], BatchesFrom(span, channel[..m], p + |WriteBatch(w)|, false))
      else Ok(BatchesWithin(span, [w], p, m))
  {
    hide Encode, EncodeAll, SpanAt, At, Pow256, ParseSingular, BatchesFrom, BlockItem;
    AtIs(channel, p, WriteBatch(w));
    ItemSpan(channel, p, |channel|, Str(Payload(w)));
    var cut, end := channel[..m], p + |WriteBatch(w)|;
    var start := end - |Payload(w)|;
    var s := SpanAt(channel, p, |channel|).value.value;
    SpanShows(channel, p, m, |channel|, s);
    SpanAgrees(channel, m, p, m);
    BatchStep(span, cut, p, false);
    if w.OneBlock? {
      PayloadStands(channel, start, 0, Encode(BlockItem(w)));
      TxsInside(w);
      if end <= m {
        ParseAgrees(channel, m, start + 1, end, true);
        BlockReads(channel, start + 1, w);
      } else if start < m {
        ParseAgrees(channel, m, start + 1, m, false);
        BlockShows(channel, start + 1, w, m);
      }
    } else {
      PayloadStands(channel, start, 1, w.data);
      if end <= m {
        SliceOfCut(channel, m, start + 1, end);
      }
    }
  }

  lemma TxsInside(w: Written)
    requires w.OneBlock?
    ensures |EncodeAll(Strings(w.txs))| < |Encode(BlockItem(w))|
  {
    hide Encode, EncodeAll, MinBe;
    FiveFields(Str(w.parent), Str(MinBe(w.epoch)), Str(w.epochHash), Str(MinBe(w.time)), List(Strings(w.txs)));
    PayloadShorter(List(Strings(w.txs)));
    PayloadShorter(BlockItem(w));
  }

  lemma {:induction false} ChannelShowsFrom<S>(span: Bytes -> Result<S>, channel: Bytes, p: nat, ws: seq<Written>,
      m: nat)
    requires AllWritable(span, ws) && At(channel, p, WriteChannel(ws)) && p + |WriteChannel(ws)| == |channel|
    requires m <= |channel|
    ensures BatchesFrom(span, channel[..m], p, false) == Ok(BatchesWithin(span, ws, p, m))
    decreases |ws|
  {
    hide WriteBatch, At, BatchesFrom, Writable, BatchOf, TxsWithin, Strings, EncodeAll;
    if ws == [] || p >= m {
      BatchStep(span, channel[..m], p, false);
    } else {
      assert ws[0] in ws;
      AtConcat(channel, p, WriteBatch(ws[0]), WriteChannel(ws[1..]));
      BatchShows(span, channel, p, ws[0], m);
      if p + |WriteBatch(ws[0])| <= m {
        ChannelShowsFrom(span, channel, p + |WriteBatch(ws[0])|, ws[1..], m);
      }
    }
  }

  /** A written channel cut anywhere is never refused, and all that is there is read. */
  lemma ChannelShows<S>(span: Bytes -> Result<S>, ws: seq<Written>, m: nat)
    requires AllWritable(span, ws) && m <= |WriteChannel(ws)|
    ensures BatchesFrom(span, WriteChannel(ws)[..m], 0, false) == Ok(BatchesWithin(span, ws, 0, m))
  {
    hide WriteChannel, AllWritable, BatchesFrom, BatchesWithin;
    AtSlice(WriteChannel(ws), 0, |WriteChannel(ws)|);
    assert WriteChannel(ws)[0..|WriteChannel(ws)|] == WriteChannel(ws);
    ChannelShowsFrom(span, WriteChannel(ws), 0, ws, m);
  }

  // ------------------------------------------------------------------ and numbered

  ghost predicate AllBlocks(ws: seq<Written>) {
    forall w :: w in ws ==> w.OneBlock?
  }

  function BlocksOf(ws: seq<Written>): (bs: seq<Block>)
    requires AllBlocks(ws)
    ensures |bs| == |ws| && forall k :: 0 <= k < |ws| ==> bs[k] == BlockOf(ws[k])
  {
    seq(|ws|, k requires 0 <= k < |ws| => BlockOf(ws[k]))
  }

  lemma {:induction false} SingularsJoin<S>(a: seq<Batch<S>>, b: seq<Batch<S>>)
    ensures Singulars(a + b) == Singulars(a) + Singulars(b)
    decreases |b|
  {
    if b == [] {
      assert a + b == a;
    } else {
      assert Init(a + b) == a + Init(b) && Last(a + b) == Last(b);
      SingularsJoin(a, Init(b));
    }
  }

  lemma OneSingular<S>(b: Batch<S>)
    requires b.Singular?
    ensures Singulars([b]) == [b.block]
  {
    assert Init([b]) == [] && Last([b]) == b;
  }

  lemma {:induction false} SingularsWritten<S>(span: Bytes -> Result<S>, ws: seq<Written>, p: nat)
    requires AllWritable(span, ws) && AllBlocks(ws)
    ensures Singulars(BatchesOf(span, ws, p)) == BlocksOf(ws)
    decreases |ws|
  {
    hide WriteBatch, Writable;
    if ws != [] {
      assert ws[0] in ws;
      var rest := BatchesOf(span, ws[1..], p + |WriteBatch(ws[0])|);
      SingularsWritten(span, ws[1..], p + |WriteBatch(ws[0])|);
      var first := [BatchOf(span, ws[0], p)];
      SingularsJoin(first, rest);
      OneSingular(first[0]);
      assert BlocksOf(ws) == [BlockOf(ws[0])] + BlocksOf(ws[1..]);
    }
  }

  /**
   * A channel of consecutive blocks, as it was written: its batches with their offsets, and their numbers. These are
   * the blocks' own when a block of them is pinned to its own number, or, with no pin found, unless all share one
   * second, do not fill it, and are not its first.
   */
  lemma DecodesWritten<S>(span: Bytes -> Result<S>, hash: Bytes -> Bytes, ws: seq<Written>, b: nat, s: Schedule,
      pin: Option<BatchPin>)
    requires Steady(s) && ws != [] && AllWritable(span, ws) && AllBlocks(ws)
    requires Timestamps(BlocksOf(ws)) == Times(b, |ws|, s)
    requires var at := PinOf(hash, BlocksOf(ws), pin); at.Some? ==> at.value.number == b + at.value.index
    ensures var at, m := PinOf(hash, BlocksOf(ws), pin), |ws|;
      && Decode(span, hash, WriteChannel(ws), true, s, pin) ==
           Ok(Decoded(BatchesOf(span, ws, 0), Counted(FirstNumber(b, m, s, at), m)))
      && (FirstNumber(b, m, s, at) == b <==> at.Some? || !OneCutSecond(b, m, s) || SlotOf(b, s).first == b)
  {
    hide BatchesFrom, Numbered, AllWritable, WriteChannel, BatchesOf, PinFrom, TimeOfBlock, BlocksAt, AllBlocks;
    ChannelReads(span, ws);
    SingularsWritten(span, ws, 0);
    ConsecutiveBlocks(b, |ws|, s, PinOf(hash, BlocksOf(ws), pin));
  }
}
