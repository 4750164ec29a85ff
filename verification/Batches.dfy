/** Batches out of a decompressed channel, whole or cut: packages/audit/src/settlement-blobs.ts. */
module Batches {
  import opened Bytes
  import opened Rlp
  import opened Schedule

  // ---------------------------------------------------------------- the data model

  /**
   * A singular batch's block before it is numbered. Its transactions are the raw bytes; their hashes follow from them.
   */
  datatype Block = Block(timestamp: nat, parentHash: Bytes, txs: seq<Bytes>, complete: bool)

  /** A batch and where its item starts. What a span batch decodes to is not looked into here. */
  datatype Batch<S> = Singular(offset: nat, block: Block) | SpanOf(offset: nat, blocks: S)

  // ------------------------------------------------------------------ its functions

  datatype Field = Field(bytes: Bytes, end: nat)

  /** A whole byte string at `pos` inside `limit`; none when it is cut. A list is refused. */
  function BytesItem(buf: Bytes, pos: nat, limit: nat): (r: Result<Option<Field>>)
    requires limit <= |buf|
    ensures r.Ok? && r.value.Some? ==> pos < r.value.value.end <= limit
  {
    match SpanAt(buf, pos, limit)
    case Err => Err
    case Ok(None) => Ok(None)
    case Ok(Some(s)) =>
      if s.isList then Err
      else if s.end > limit then Ok(None)
      else Ok(Some(Field(buf[s.start..s.end], s.end)))
  }

  /** A big-endian integer, which has no leading zero. */
  function UintOf(b: Bytes): Result<nat> {
    if b != [] && b[0] == 0 then Err else Ok(BeNat(b))
  }

  function Least(a: nat, b: nat): nat {
    if a < b then a else b
  }

  datatype Txs = Txs(txs: seq<Bytes>, whole: bool)

  /** The transactions of [q, end), as far as they are all there. */
  function TxsFrom(buf: Bytes, q: nat, end: nat): (r: Result<Txs>)
    requires end <= |buf|
    decreases if q < end then end - q else 0
  {
    if q >= end then Ok(Txs([], true)) else
      match SpanAt(buf, q, end)
      case Err => Err
      case Ok(None) => Ok(Txs([], false))
      case Ok(Some(s)) =>
        if s.isList then Err
        else if s.end > end then Ok(Txs([], false))
        else MoreTxs(buf[s.start..s.end], TxsFrom(buf, s.end, end))
  }

  function MoreTxs(tx: Bytes, rest: Result<Txs>): Result<Txs> {
    match rest
    case Err => Err
    case Ok(r) => Ok(Txs([tx] + r.txs, r.whole))
  }

  /** The four fields before the transactions, and where the transactions begin. */
  datatype Fields = Fields(parent: Bytes, timestamp: nat, pos: nat)

  function ParseFields(buf: Bytes, pos: nat, inner: nat): (r: Result<Option<Fields>>)
    requires inner <= |buf|
  {
    match BytesItem(buf, pos, inner)
    case Err => Err
    case Ok(None) => Ok(None)
    case Ok(Some(parent)) =>
      if |parent.bytes| != 32 then Err else
      match BytesItem(buf, parent.end, inner)
      case Err => Err
      case Ok(None) => Ok(None)
      case Ok(Some(epoch)) =>
        if UintOf(epoch.bytes).Err? then Err else
        match BytesItem(buf, epoch.end, inner)
        case Err => Err
        case Ok(None) => Ok(None)
        case Ok(Some(epochHash)) =>
          if |epochHash.bytes| != 32 then Err else
          match BytesItem(buf, epochHash.end, inner)
          case Err => Err
          case Ok(None) => Ok(None)
          case Ok(Some(ts)) =>
            match UintOf(ts.bytes)
            case Err => Err
            case Ok(t) => Ok(Some(Fields(parent.bytes, t, ts.end)))
  }

  /** The block of a transaction list that the field walk has come to. */
  function ParseTxs(buf: Bytes, f: Fields, inner: nat, outerEnd: nat, complete: bool): Result<Option<Block>>
    requires inner <= |buf|
  {
    match SpanAt(buf, f.pos, inner)
    case Err => Err
    case Ok(None) => Ok(None)
    case Ok(Some(list)) =>
      if !list.isList then Err else
      match TxsFrom(buf, list.start, Least(list.end, inner))
      case Err => Err
      case Ok(read) =>
        if complete && list.end != outerEnd then Err
        else Ok(Some(Block(f.timestamp, f.parent, read.txs, list.end <= inner && read.whole)))
  }

  /** A singular batch's content, readable up to `limit`; with `complete` its list must end exactly there. */
  function ParseSingular(buf: Bytes, start: nat, limit: nat, complete: bool): Result<Option<Block>>
    requires limit <= |buf|
  {
    match SpanAt(buf, start, limit)
    case Err => Err
    case Ok(None) => Ok(None)
    case Ok(Some(outer)) =>
      if !outer.isList then Err
      else if complete && outer.end != limit then Err
      else
        var inner := Least(outer.end, limit);
        match ParseFields(buf, outer.start, inner)
        case Err => Err
        case Ok(None) => Ok(None)
        case Ok(Some(f)) => ParseTxs(buf, f, inner, outer.end, complete)
  }

  /** What the batch item `s` at `p` adds, when all of it is there. */
  function WholeBatch<S>(span: Bytes -> Result<S>, channel: Bytes, p: nat, s: Span): (r: Result<seq<Batch<S>>>)
    requires s.start < s.end <= |channel|
  {
    if channel[s.start] == 0 then
      match ParseSingular(channel, s.start + 1, s.end, true)
      case Err => Err
      case Ok(None) => Ok([])
      case Ok(Some(b)) => Ok([Singular(p, b)])
    else if channel[s.start] == 1 then
      match span(channel[s.start + 1..s.end])
      case Err => Err
      case Ok(blocks) => Ok([SpanOf(p, blocks)])
    else Err
  }

  /** What it adds when it runs past the end of the channel. */
  function CutBatch<S>(channel: Bytes, p: nat, s: Span): (r: Result<seq<Batch<S>>>)
    requires s.start < |channel|
  {
    if channel[s.start] == 0 then
      match ParseSingular(channel, s.start + 1, |channel|, false)
      case Err => Err
      case Ok(None) => Ok([])
      case Ok(Some(b)) => Ok([Singular(p, b)])
    else Ok([])
  }

  /** The batches from `p` on, before they are numbered. */
  function BatchesFrom<S>(span: Bytes -> Result<S>, channel: Bytes, p: nat, complete: bool): (r: Result<seq<Batch<S>>>)
    decreases if p < |channel| then |channel| - p else 0
  {
    if p >= |channel| then Ok([]) else
      match SpanAt(channel, p, |channel|)
      case Err => Err
      case Ok(None) => if complete then Err else Ok([])
      case Ok(Some(s)) =>
        if s.isList then Err
        else if s.end - s.start < 1 then Err
        else if s.start >= |channel| then Ok([])
        else if s.end > |channel| then (if complete then Err else CutBatch(channel, p, s))
        else
          match WholeBatch(span, channel, p, s)
          case Err => Err
          case Ok(b) => FollowedBy(b, BatchesFrom(span, channel, s.end, complete))
  }

  // ------------------------------------------------------------------- as it runs

  method ReadTxs(buf: Bytes, start: nat, end: nat) returns (r: Result<Txs>)
    requires end <= |buf|
    ensures r == TxsFrom(buf, start, end)
  {
    hide TxsFrom, SpanAt;
    var txs: seq<Bytes> := [];
    var q := start;
    TxsAfterNothing(TxsFrom(buf, start, end));
    while q < end
      invariant TxsFrom(buf, start, end) == TxsAfter(txs, TxsFrom(buf, q, end))
      decreases end - q
    {
      TxStep(buf, q, end);
      assert txs + [] == txs;
      var at := SpanAt(buf, q, end);
      if at.Err? {
        return Err;
      }
      if at.value.None? {
        return Ok(Txs(txs, false));
      }
      var s := at.value.value;
      if s.isList {
        return Err;
      }
      if s.end > end {
        return Ok(Txs(txs, false));
      }
      var tx := buf[s.start..s.end];
      TxsAfterTwice(txs, tx, TxsFrom(buf, s.end, end));
      txs := txs + [tx];
      q := s.end;
    }
    TxStep(buf, q, end);
    assert txs + [] == txs;
    r := Ok(Txs(txs, true));
  }

  function TxsAfter(txs: seq<Bytes>, rest: Result<Txs>): Result<Txs> {
    match rest
    case Err => Err
    case Ok(r) => Ok(Txs(txs + r.txs, r.whole))
  }

  lemma TxsAfterNothing(rest: Result<Txs>)
    ensures TxsAfter([], rest) == rest
  {
    if rest.Ok? {
      assert [] + rest.value.txs == rest.value.txs;
    }
  }

  lemma TxsAfterTwice(txs: seq<Bytes>, tx: Bytes, rest: Result<Txs>)
    ensures TxsAfter(txs, MoreTxs(tx, rest)) == TxsAfter(txs + [tx], rest)
  {
    if rest.Ok? {
      assert txs + ([tx] + rest.value.txs) == (txs + [tx]) + rest.value.txs;
    }
  }

  lemma TxStep(buf: Bytes, q: nat, end: nat)
    requires end <= |buf|
    ensures TxsFrom(buf, q, end) ==
            if q >= end then Ok(Txs([], true)) else
              match SpanAt(buf, q, end)
              case Err => Err
              case Ok(None) => Ok(Txs([], false))
              case Ok(Some(s)) =>
                if s.isList then Err else if s.end > end then Ok(Txs([], false))
                else MoreTxs(buf[s.start..s.end], TxsFrom(buf, s.end, end))
  {
  }

  method ParseSingularBatch(buf: Bytes, start: nat, limit: nat, complete: bool) returns (r: Result<Option<Block>>)
    requires limit <= |buf|
    ensures r == ParseSingular(buf, start, limit, complete)
  {
    hide SpanAt, BytesItem, TxsFrom, UintOf;
    var at := SpanAt(buf, start, limit);
    if at.Err? || at.value.None? {
      return if at.Err? then Err else Ok(None);
    }
    var outer := at.value.value;
    if !outer.isList || (complete && outer.end != limit) {
      return Err;
    }
    var inner := Least(outer.end, limit);
    var parent := BytesItem(buf, outer.start, inner);
    if parent.Err? || parent.value.None? || |parent.value.value.bytes| != 32 {
      return if parent.Ok? && parent.value.None? then Ok(None) else Err;
    }
    var epoch := BytesItem(buf, parent.value.value.end, inner);
    if epoch.Err? || epoch.value.None? || UintOf(epoch.value.value.bytes).Err? {
      return if epoch.Ok? && epoch.value.None? then Ok(None) else Err;
    }
    var epochHash := BytesItem(buf, epoch.value.value.end, inner);
    if epochHash.Err? || epochHash.value.None? || |epochHash.value.value.bytes| != 32 {
      return if epochHash.Ok? && epochHash.value.None? then Ok(None) else Err;
    }
    var ts := BytesItem(buf, epochHash.value.value.end, inner);
    if ts.Err? || ts.value.None? || UintOf(ts.value.value.bytes).Err? {
      return if ts.Ok? && ts.value.None? then Ok(None) else Err;
    }
    var pos := ts.value.value.end;
    var l := SpanAt(buf, pos, inner);
    if l.Err? || l.value.None? || !l.value.value.isList {
      return if l.Ok? && l.value.None? then Ok(None) else Err;
    }
    var list := l.value.value;
    var read := ReadTxs(buf, list.start, Least(list.end, inner));
    if read.Err? || (complete && list.end != outer.end) {
      return Err;
    }
    r := Ok(Some(Block(UintOf(ts.value.value.bytes).value, parent.value.value.bytes, read.value.txs,
      list.end <= inner && read.value.whole)));
  }

  method ReadBatches<S>(span: Bytes -> Result<S>, channel: Bytes, complete: bool) returns (r: Result<seq<Batch<S>>>)
    ensures r == BatchesFrom(span, channel, 0, complete)
  {
    hide BatchesFrom, SpanAt, ParseSingular;
    var out: seq<Batch<S>> := [];
    var p := 0;
    FollowsNothing(BatchesFrom(span, channel, 0, complete));
    while p < |channel|
      invariant BatchesFrom(span, channel, 0, complete) == FollowedBy(out, BatchesFrom(span, channel, p, complete))
      decreases |channel| - p
    {
      BatchStep(span, channel, p, complete);
      var at := SpanAt(channel, p, |channel|);
      if at.Err? || (at.value.None? && complete) {
        return Err;
      }
      if at.value.None? {
        break;
      }
      var s := at.value.value;
      if s.isList || s.end - s.start < 1 {
        return Err;
      }
      if s.start >= |channel| {
        break;
      }
      var kind := channel[s.start];
      var cut := s.end > |channel|;
      if cut && complete {
        return Err;
      }
      var contentEnd := Least(s.end, |channel|);
      var more: seq<Batch<S>> := [];
      if kind == 0 {
        var sb := ParseSingularBatch(channel, s.start + 1, contentEnd, !cut);
        if sb.Err? {
          return Err;
        }
        if sb.value.Some? {
          more := [Singular(p, sb.value.value)];
        }
      } else if kind == 1 {
        if !cut {
          var blocks := span(channel[s.start + 1..contentEnd]);
          if blocks.Err? {
            return Err;
          }
          more := [SpanOf(p, blocks.value)];
        }
      } else if !cut {
        return Err;
      }
      if cut {
        return Ok(out + more);
      }
      FollowsTwice(out, more, BatchesFrom(span, channel, s.end, complete));
      out := out + more;
      p := s.end;
    }
    BatchStep(span, channel, p, complete);
    assert out + [] == out;
    r := Ok(out);
  }

  lemma BatchStep<S>(span: Bytes -> Result<S>, channel: Bytes, p: nat, complete: bool)
    ensures BatchesFrom(span, channel, p, complete) ==
            if p >= |channel| then Ok([]) else
              match SpanAt(channel, p, |channel|)
              case Err => Err
              case Ok(None) => if complete then Err else Ok([])
              case Ok(Some(s)) =>
                if s.isList then Err
                else if s.end - s.start < 1 then Err
                else if s.start >= |channel| then Ok([])
                else if s.end > |channel| then (if complete then Err else CutBatch(channel, p, s))
                else
                  match WholeBatch(span, channel, p, s)
                  case Err => Err
                  case Ok(b) => FollowedBy(b, BatchesFrom(span, channel, s.end, complete))
  {
  }

  // -------------------------------------------- nothing past the limit is ever read

  lemma SpanAgrees(buf: Bytes, m: nat, pos: nat, limit: nat)
    requires limit <= m <= |buf|
    ensures SpanAt(buf[..m], pos, limit) == SpanAt(buf, pos, limit)
  {
    if pos < limit {
      var b := buf[pos];
      assert buf[..m][pos] == b;
      if 0xb7 < b <= 0xbf && pos + 1 + (b - 0xb7) <= limit {
        assert buf[..m][pos + 1..pos + 1 + (b - 0xb7)] == buf[pos + 1..pos + 1 + (b - 0xb7)];
      } else if b > 0xf7 && pos + 1 + (b - 0xf7) <= limit {
        assert buf[..m][pos + 1..pos + 1 + (b - 0xf7)] == buf[pos + 1..pos + 1 + (b - 0xf7)];
      }
    }
  }

  lemma SliceOfCut(buf: Bytes, m: nat, i: nat, j: nat)
    requires i <= j <= m <= |buf|
    ensures buf[..m][i..j] == buf[i..j]
  {
  }

  lemma BytesAgree(buf: Bytes, m: nat, pos: nat, limit: nat)
    requires limit <= m <= |buf|
    ensures BytesItem(buf[..m], pos, limit) == BytesItem(buf, pos, limit)
  {
    hide SpanAt;
    SpanAgrees(buf, m, pos, limit);
    var at := SpanAt(buf, pos, limit);
    if at.Ok? && at.value.Some? && at.value.value.end <= limit {
      SliceOfCut(buf, m, at.value.value.start, at.value.value.end);
    }
  }

  lemma {:induction false} TxsAgree(buf: Bytes, m: nat, q: nat, end: nat)
    requires end <= m <= |buf|
    ensures TxsFrom(buf[..m], q, end) == TxsFrom(buf, q, end)
    decreases if q < end then end - q else 0
  {
    hide SpanAt, TxsFrom;
    TxStep(buf, q, end);
    TxStep(buf[..m], q, end);
    SpanAgrees(buf, m, q, end);
    if q < end {
      var at := SpanAt(buf, q, end);
      if at.Ok? && at.value.Some? && at.value.value.end <= end {
        SliceOfCut(buf, m, at.value.value.start, at.value.value.end);
        TxsAgree(buf, m, at.value.value.end, end);
      }
    }
  }

  lemma FieldsAgree(buf: Bytes, m: nat, pos: nat, inner: nat)
    requires inner <= m <= |buf|
    ensures ParseFields(buf[..m], pos, inner) == ParseFields(buf, pos, inner)
  {
    hide BytesItem, UintOf;
    forall p: nat {
      BytesAgree(buf, m, p, inner);
    }
  }

  lemma ParseAgrees(buf: Bytes, m: nat, start: nat, limit: nat, complete: bool)
    requires limit <= m <= |buf|
    ensures ParseSingular(buf[..m], start, limit, complete) == ParseSingular(buf, start, limit, complete)
  {
    hide SpanAt, ParseFields, TxsFrom;
    SpanAgrees(buf, m, start, limit);
    var at := SpanAt(buf, start, limit);
    if at.Ok? && at.value.Some? {
      var outer := at.value.value;
      var inner := Least(outer.end, limit);
      FieldsAgree(buf, m, outer.start, inner);
      var f := ParseFields(buf, outer.start, inner);
      if f.Ok? && f.value.Some? {
        SpanAgrees(buf, m, f.value.value.pos, inner);
        var l := SpanAt(buf, f.value.value.pos, inner);
        if l.Ok? && l.value.Some? {
          TxsAgree(buf, m, l.value.value.start, Least(l.value.value.end, inner));
        }
      }
    }
  }

  // --------------------------------------------------- a nearer limit only shows less

  /** What a read with a nearer limit gives, beside what the whole read gave: the same, or nothing. */
  ghost predicate SameOrNone<T>(less: Result<Option<T>>, whole: Result<Option<T>>) {
    whole.Ok? ==> less == Ok(None) || less == whole
  }

  lemma SpanLess(buf: Bytes, pos: nat, m: nat, limit: nat)
    requires m <= limit <= |buf|
    ensures SameOrNone(SpanAt(buf, pos, m), SpanAt(buf, pos, limit))
  {
  }

  lemma BytesLess(buf: Bytes, pos: nat, m: nat, limit: nat)
    requires m <= limit <= |buf|
    ensures SameOrNone(BytesItem(buf, pos, m), BytesItem(buf, pos, limit))
  {
    hide SpanAt;
    SpanLess(buf, pos, m, limit);
  }

  lemma FieldsLess(buf: Bytes, pos: nat, m: nat, limit: nat)
    requires m <= limit <= |buf|
    ensures SameOrNone(ParseFields(buf, pos, m), ParseFields(buf, pos, limit))
  {
    hide BytesItem, UintOf;
    forall p: nat ensures SameOrNone(BytesItem(buf, p, m), BytesItem(buf, p, limit)) {
      BytesLess(buf, p, m, limit);
    }
  }

  lemma {:induction false} TxsLess(buf: Bytes, q: nat, m: nat, end: nat)
    requires m <= end <= |buf| && TxsFrom(buf, q, end).Ok?
    ensures TxsFrom(buf, q, m).Ok? && TxsFrom(buf, q, m).value.txs <= TxsFrom(buf, q, end).value.txs
    decreases if q < m then m - q else 0
  {
    hide SpanAt, TxsFrom;
    TxStep(buf, q, end);
    TxStep(buf, q, m);
    if q < m {
      SpanLess(buf, q, m, end);
      var at := SpanAt(buf, q, m);
      if at.value.Some? && at.value.value.end <= m {
        TxsLess(buf, at.value.value.end, m, end);
      }
    }
  }

  /** A block read before a cut: the same header, the first of its transactions, and not marked complete. */
  ghost predicate CutOf(less: Block, whole: Block) {
    && less.timestamp == whole.timestamp && less.parentHash == whole.parentHash
    && less.txs <= whole.txs && !less.complete
  }

  lemma ParseLess(buf: Bytes, start: nat, m: nat, limit: nat)
    requires m < limit <= |buf| && ParseSingular(buf, start, limit, true).Ok?
    ensures var less, whole := ParseSingular(buf, start, m, false), ParseSingular(buf, start, limit, true);
            less == Ok(None) || (less.Ok? && whole.value.Some? && CutOf(less.value.value, whole.value.value))
  {
    hide SpanAt, ParseFields, TxsFrom;
    SpanLess(buf, start, m, limit);
    if SpanAt(buf, start, m) != Ok(None) {
      var outer := SpanAt(buf, start, limit).value.value;
      FieldsLess(buf, outer.start, m, limit);
      if ParseFields(buf, outer.start, m) != Ok(None) {
        var f := ParseFields(buf, outer.start, m).value.value;
        SpanLess(buf, f.pos, m, limit);
        if SpanAt(buf, f.pos, m) != Ok(None) {
          TxsLess(buf, SpanAt(buf, f.pos, m).value.value.start, m, limit);
        }
      }
    }
  }

  // ------------------------------------------------------------- cut-stream soundness

  /** What a cut channel's batches are beside the whole channel's: the first of them, the last one perhaps cut. */
  ghost predicate CutRead<S>(less: seq<Batch<S>>, whole: seq<Batch<S>>) {
    || less <= whole
    || (&& 1 <= |less| <= |whole| && Init(less) <= whole
        && var a, b := Last(less), whole[|less| - 1];
           a.Singular? && b.Singular? && a.offset == b.offset && CutOf(a.block, b.block))
  }

  lemma CutReadMore<S>(b: seq<Batch<S>>, less: seq<Batch<S>>, whole: seq<Batch<S>>)
    requires CutRead(less, whole)
    ensures CutRead(b + less, b + whole)
  {
    if !(less <= whole) {
      assert Init(b + less) == b + Init(less);
      assert Last(b + less) == Last(less) && (b + whole)[|b + less| - 1] == whole[|less| - 1];
    }
  }

  /**
   * Reading any prefix of a channel that reads whole never throws, and gives the first of the same batches, the last
   * one cut at most: its block has the whole block's header and the first of its transactions, and says it is cut.
   */
  lemma {:induction false} CutStream<S>(span: Bytes -> Result<S>, channel: Bytes, p: nat, m: nat)
    requires m <= |channel| && BatchesFrom(span, channel, p, true).Ok?
    ensures BatchesFrom(span, channel[..m], p, false).Ok?
    ensures CutRead(BatchesFrom(span, channel[..m], p, false).value, BatchesFrom(span, channel, p, true).value)
    decreases if p < m then m - p else 0
  {
    hide SpanAt, BatchesFrom, ParseSingular;
    var cut := channel[..m];
    BatchStep(span, channel, p, true);
    BatchStep(span, cut, p, false);
    if p < m {
      SpanAgrees(channel, m, p, m);
      SpanLess(channel, p, m, |channel|);
      if SpanAt(cut, p, m) != Ok(None) {
        var s := SpanAt(channel, p, |channel|).value.value;
        if s.start < m {
          assert cut[s.start] == channel[s.start];
          if s.end > m {
            if channel[s.start] == 0 {
              ParseAgrees(channel, m, s.start + 1, m, false);
              ParseLess(channel, s.start + 1, m, s.end);
            }
          } else {
            ParseAgrees(channel, m, s.start + 1, s.end, true);
            SliceOfCut(channel, m, s.start + 1, s.end);
            assert WholeBatch(span, cut, p, s) == WholeBatch(span, channel, p, s);
            CutStream(span, channel, s.end, m);
            CutReadMore(WholeBatch(span, channel, p, s).value, BatchesFrom(span, cut, s.end, false).value,
              BatchesFrom(span, channel, s.end, true).value);
          }
        }
      }
    }
  }

  // ------------------------------------------------------------- the batches, numbered

  /** The blocks of the singular batches, in the channel's order. */
  function Singulars<S>(bs: seq<Batch<S>>): seq<Block> {
    if bs == [] then [] else Singulars(Init(bs)) + (if Last(bs).Singular? then [Last(bs).block] else [])
  }

  function Timestamps(blocks: seq<Block>): (ts: seq<int>)
    ensures |ts| == |blocks| && forall k :: 0 <= k < |ts| ==> ts[k] == blocks[k].timestamp
  {
    seq(|blocks|, k requires 0 <= k < |blocks| => blocks[k].timestamp)
  }

  /** A batch already identified by hash: its number, with the parent hash or a transaction hash to know it by. */
  datatype BatchPin = BatchPin(number: int, parent: Option<Bytes>, tx: Option<Bytes>)

  predicate Pinned(hash: Bytes -> Bytes, b: Block, pin: BatchPin) {
    (pin.parent.Some? && b.parentHash == pin.parent.value) ||
    (pin.tx.Some? && exists t :: t in b.txs && hash(t) == pin.tx.value)
  }

  /** The first pinned block from `k` on. */
  function PinFrom(hash: Bytes -> Bytes, blocks: seq<Block>, k: nat, pin: BatchPin): (r: Option<Pin>)
    requires k <= |blocks|
    ensures r.Some? ==>
              k <= r.value.index < |blocks| && r.value.number == pin.number && Pinned(hash, blocks[r.value.index], pin)
    ensures r.Some? ==> forall j :: k <= j < r.value.index ==> !Pinned(hash, blocks[j], pin)
    ensures r.None? ==> forall j :: k <= j < |blocks| ==> !Pinned(hash, blocks[j], pin)
    decreases |blocks| - k
  {
    if k == |blocks| then None
    else if Pinned(hash, blocks[k], pin) then Some(Pin(k, pin.number))
    else PinFrom(hash, blocks, k + 1, pin)
  }

  /** Where the pin is, when there is one and some block is pinned by it. */
  function PinOf(hash: Bytes -> Bytes, blocks: seq<Block>, pin: Option<BatchPin>): Option<Pin> {
    if pin.Some? then PinFrom(hash, blocks, 0, pin.value) else None
  }

  datatype Decoded<S> = Decoded(batches: seq<Batch<S>>, numbers: seq<int>)

  /** Batches and the numbers of their singular blocks. */
  function Decode<S>(span: Bytes -> Result<S>, hash: Bytes -> Bytes, channel: Bytes, complete: bool, s: Schedule,
      pin: Option<BatchPin>): Result<Decoded<S>>
    requires s.blockTime >= 1
  {
    match BatchesFrom(span, channel, 0, complete)
    case Err => Err
    case Ok(bs) =>
      var blocks := Singulars(bs);
      if blocks == [] then Ok(Decoded(bs, [])) else
        var at := PinOf(hash, blocks, pin);
        match Numbered(Timestamps(blocks), s, at)
        case Err => Err
        case Ok(ns) => Ok(Decoded(bs, ns))
  }

  method DecodeBatches<S>(span: Bytes -> Result<S>, hash: Bytes -> Bytes, channel: Bytes, complete: bool, s: Schedule,
      pin: Option<BatchPin>)
    returns (r: Result<Decoded<S>>)
    requires s.blockTime >= 1
    ensures r == Decode(span, hash, channel, complete, s, pin)
  {
    hide BatchesFrom, Numbered, Pinned, Singulars;
    var bs := ReadBatches(span, channel, complete);
    if bs.Err? {
      return Err;
    }
    var blocks := Singulars(bs.value);
    var numbers: seq<int> := [];
    if |blocks| > 0 {
      var at := PinOf(hash, blocks, pin);
      var ns := NumberSingularBatches(Timestamps(blocks), s, at);
      if ns.Err? {
        return Err;
      }
      numbers := ns.value;
    }
    r := Ok(Decoded(bs.value, numbers));
  }

  lemma {:induction false} SingularsOfPrefix<S>(less: seq<Batch<S>>, whole: seq<Batch<S>>)
    requires less <= whole
    ensures Singulars(less) <= Singulars(whole)
    decreases |whole|
  {
    if |less| < |whole| {
      SingularsOfPrefix(less, Init(whole));
    } else {
      assert less == whole;
    }
  }

  /** What a cut channel's blocks are beside the whole channel's: the first of them, the last one perhaps cut. */
  ghost predicate CutBlocks(less: seq<Block>, whole: seq<Block>) {
    || less <= whole
    || (1 <= |less| <= |whole| && Init(less) <= whole && CutOf(Last(less), whole[|less| - 1]))
  }

  lemma SingularsCut<S>(less: seq<Batch<S>>, whole: seq<Batch<S>>)
    requires CutRead(less, whole)
    ensures CutBlocks(Singulars(less), Singulars(whole))
  {
    if less <= whole {
      SingularsOfPrefix(less, whole);
    } else {
      var upto := whole[..|less|];
      assert Init(upto) == Init(less) && Last(upto) == whole[|less| - 1];
      assert Singulars(less) == Singulars(Init(less)) + [Last(less).block];
      assert Singulars(upto) == Singulars(Init(less)) + [Last(upto).block];
      SingularsOfPrefix(upto, whole);
    }
  }

  /** The cut channel's timestamps are the first of the whole channel's. */
  lemma CutTimestamps(less: seq<Block>, whole: seq<Block>)
    requires CutBlocks(less, whole)
    ensures Timestamps(less) <= Timestamps(whole)
  {
    forall k | 0 <= k < |less| ensures less[k].timestamp == whole[k].timestamp {
      if !(less <= whole) && k < |less| - 1 {
        assert Init(less)[k] == whole[k];
      }
    }
  }

  /**
   * The pin of a cut channel is the whole channel's, as long as its block is there and is still known by it: a block
   * known by a transaction that is cut away is known no more, and no other block is taken for it.
   */
  lemma CutPin(hash: Bytes -> Bytes, less: seq<Block>, whole: seq<Block>, pin: Option<BatchPin>)
    requires CutBlocks(less, whole)
    ensures var at := PinOf(hash, whole, pin);
      PinOf(hash, less, pin) ==
        if at.Some? && at.value.index < |less| && Pinned(hash, less[at.value.index], pin.value) then at else None
  {
    if pin.Some? {
      hide Pinned, PinFrom;
      var there := PinFrom(hash, whole, 0, pin.value);
      if there.Some? && there.value.index < |less| - 1 && !(less <= whole) {
        assert Init(less)[there.value.index] == whole[there.value.index];
      }
    }
  }

  /**
   * Reading any prefix of a channel that decodes whole, with the same pin. Its batches are the first of the same, the
   * last one perhaps cut. Only the numbering can refuse it: exactly when it stops inside the channel's first second,
   * does not fill that second, and the pin puts it outside. Its blocks have the numbers that the whole channel gives
   * them exactly when it reaches past that second, or both begin that second at the same block.
   */
  lemma CutStreamNumbered<S>(
    span: Bytes -> Result<S>, hash: Bytes -> Bytes, channel: Bytes, s: Schedule, pin: Option<BatchPin>, m: nat)
    requires s.blockTime >= 1 && m <= |channel| && Decode(span, hash, channel, true, s, pin).Ok?
    ensures BatchesFrom(span, channel[..m], 0, false).Ok?
    ensures var whole, cut := Decode(span, hash, channel, true, s, pin).value,
      Decode(span, hash, channel[..m], false, s, pin);
      var bs := BatchesFrom(span, channel[..m], 0, false).value;
      var blocks, blocks' := Singulars(whole.batches), Singulars(bs);
      && CutRead(bs, whole.batches)
      && |blocks'| <= |blocks| == |whole.numbers|
      && (blocks' == [] ==> cut == Ok(Decoded(bs, [])))
      && (blocks' != [] ==>
            var ts := Timestamps(blocks);
            && BlocksAt(ts[0], s).Some?
            && var slot, j, n := BlocksAt(ts[0], s).value, RunEnd(ts, 0), |blocks'|;
               var at, at' := PinOf(hash, blocks, pin), PinOf(hash, blocks', pin);
               && (cut.Ok? <==> n > j || PinFits(n, slot, at'))
               && (cut.Ok? ==>
                     && cut.value.batches == bs && |cut.value.numbers| == n
                     && (cut.value.numbers <= whole.numbers <==>
                         n > j || SameStart(n, j, j == |ts|, slot, at, at'))))
  {
    hide BatchesFrom, Numbered, CutRead, Singulars, BlocksAt, RunEnd, NumberFrom, PinOf, PinFits, SameStart, CutBlocks;
    CutStream(span, channel, 0, m);
    var whole, cut := BatchesFrom(span, channel, 0, true).value, BatchesFrom(span, channel[..m], 0, false).value;
    var blocks, blocks' := Singulars(whole), Singulars(cut);
    SingularsCut(cut, whole);
    CutTimestamps(blocks', blocks);
    var ts, ts', at, at' := Timestamps(blocks), Timestamps(blocks'), PinOf(hash, blocks, pin),
      PinOf(hash, blocks', pin);
    assert ts' == ts[..|ts'|];
    NumbersCount(ts, s, at);
    if ts' != [] {
      NumbersCount(ts', s, at');
      PrefixNumbers(ts, |ts'|, s, at, at');
    }
  }

  /**
   * Without a pin no prefix is refused, and its blocks have the whole channel's numbers exactly when it reaches past
   * the first second, or that second is full, or it is all the channel has.
   */
  lemma CutStreamUnpinned<S>(span: Bytes -> Result<S>, hash: Bytes -> Bytes, channel: Bytes, s: Schedule, m: nat)
    requires s.blockTime >= 1 && m <= |channel| && Decode(span, hash, channel, true, s, None).Ok?
    ensures Decode(span, hash, channel[..m], false, s, None).Ok?
    ensures var whole, cut := Decode(span, hash, channel, true, s, None).value,
      Decode(span, hash, channel[..m], false, s, None).value;
      && CutRead(cut.batches, whole.batches)
      && (cut.numbers != [] ==>
            var ts := Timestamps(Singulars(whole.batches));
            && ts != [] && BlocksAt(ts[0], s).Some?
            && var j := RunEnd(ts, 0);
               (cut.numbers <= whole.numbers <==>
                |cut.numbers| > j || j == |ts| || j == BlocksAt(ts[0], s).value.count))
  {
    hide BatchesFrom, Numbered, CutRead, Singulars, BlocksAt, RunEnd, NumberFrom, PinFits, SameStart, CutBlocks;
    CutStreamNumbered(span, hash, channel, s, None, m);
    var whole, cut := BatchesFrom(span, channel, 0, true).value, BatchesFrom(span, channel[..m], 0, false).value;
    var ts, n := Timestamps(Singulars(whole)), |Singulars(cut)|;
    if n > 0 {
      SingularsCut(cut, whole);
      CutTimestamps(Singulars(cut), Singulars(whole));
      assert Timestamps(Singulars(cut)) == ts[..n];
      PrefixUnpinned(ts, n, s);
    }
  }

  lemma NumbersCount(ts: seq<int>, s: Schedule, pin: Option<Pin>)
    requires s.blockTime >= 1
    ensures Numbered(ts, s, pin).Ok? ==> |Numbered(ts, s, pin).value| == |ts|
  {
  }
}
