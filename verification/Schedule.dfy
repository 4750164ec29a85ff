/**
 * When a rollup's blocks are stamped, and which blocks a channel's timestamps name:
 * packages/audit/src/rollup-schedule.ts, and the block numbering of span batches.
 */
module Schedule {
  import opened Bytes

  /** From `fromBlock`, stamped `fromTime`, each second holds `perSecond` blocks. */
  datatype SubSecond = SubSecond(fromBlock: nat, fromTime: int, perSecond: nat)

  datatype Schedule = Schedule(genesis: int, blockTime: nat, sub: Option<SubSecond>)

  /** The blocks of one timestamp. */
  datatype Slot = Slot(first: int, count: nat)

  /** A batch already known by its hash: its place among the batches and its block. */
  datatype Pin = Pin(index: nat, number: int)

  /** A schedule that can be divided by, whose second part begins where its first part would have gone on. */
  ghost predicate Steady(s: Schedule) {
    && s.blockTime >= 1
    && (s.sub.Some? ==>
         s.sub.value.perSecond >= 1 && s.sub.value.fromTime == s.genesis + s.sub.value.fromBlock * s.blockTime)
  }

  const BASE_MAINNET := Schedule(1686789347, 2, Some(SubSecond(53_556_127, 1_793_901_601, 5)))

  /** Base mainnet's second part starts where its first part has come to. */
  lemma MainnetIsSteady()
    ensures Steady(BASE_MAINNET)
  {
  }

  function TimeOfBlock(n: int, s: Schedule): int
    requires s.sub.Some? ==> s.sub.value.perSecond >= 1
  {
    if s.sub.Some? && n >= s.sub.value.fromBlock then
      s.sub.value.fromTime + (n - s.sub.value.fromBlock) / s.sub.value.perSecond
    else s.genesis + n * s.blockTime
  }

  function BlocksAt(t: int, s: Schedule): Option<Slot>
    requires s.blockTime >= 1
  {
    if s.sub.Some? && t >= s.sub.value.fromTime then
      Some(Slot(s.sub.value.fromBlock + (t - s.sub.value.fromTime) * s.sub.value.perSecond, s.sub.value.perSecond))
    else if (t - s.genesis) % s.blockTime != 0 || (t - s.genesis) / s.blockTime < 0 then None
    else Some(Slot((t - s.genesis) / s.blockTime, 1))
  }

  function HeadAt(t: int, s: Schedule): int
    requires s.blockTime >= 1
  {
    if s.sub.Some? && t >= s.sub.value.fromTime then
      s.sub.value.fromBlock + (t - s.sub.value.fromTime + 1) * s.sub.value.perSecond - 1
    else
      var n := (t - s.genesis) / s.blockTime;
      if n < 0 then 0 else n
  }

  // --------------------------------------------------------------- blocks and times

  lemma DivIs(a: int, d: nat, q: int)
    requires d >= 1
    ensures a / d == q <==> q * d <= a < (q + 1) * d
  {
    var r := a % d;
    assert a == (a / d) * d + r;
    if a / d == q {
      assert (q + 1) * d == q * d + d;
    } else if a / d < q {
      MulStep(a / d, q, d);
    } else {
      MulStep(q, a / d, d);
    }
  }

  lemma MulStep(a: int, b: int, d: nat)
    requires a < b
    ensures (a + 1) * d <= b * d && (a + 1) * d == a * d + d
  {
  }

  lemma MulLess(a: int, b: int, d: nat)
    requires d >= 1
    ensures a * d < b * d <==> a < b
    ensures a * d == b * d <==> a == b
  {
    if a < b {
      MulStep(a, b, d);
    } else if b < a {
      MulStep(b, a, d);
    }
  }

  /** A timestamp's slot is exactly the blocks stamped with it. */
  lemma SlotIsItsBlocks(t: int, s: Schedule, n: nat)
    requires Steady(s)
    ensures BlocksAt(t, s).Some? ==> BlocksAt(t, s).value.first >= 0 && BlocksAt(t, s).value.count >= 1
    ensures TimeOfBlock(n, s) == t <==>
      BlocksAt(t, s).Some? && BlocksAt(t, s).value.first <= n < BlocksAt(t, s).value.first + BlocksAt(t, s).value.count
  {
    if s.sub.Some? && t >= s.sub.value.fromTime {
      var sub := s.sub.value;
      var q := t - sub.fromTime;
      assert q * sub.perSecond >= 0;
      DivIs(n - sub.fromBlock, sub.perSecond, q);
      MulLess(n, sub.fromBlock, s.blockTime);
      assert (q + 1) * sub.perSecond == q * sub.perSecond + sub.perSecond;
    } else {
      BeforeSub(t, s, n);
    }
  }

  lemma BeforeSub(t: int, s: Schedule, n: nat)
    requires Steady(s) && (s.sub.Some? ==> t < s.sub.value.fromTime)
    ensures TimeOfBlock(n, s) == t <==> BlocksAt(t, s) == Some(Slot(n, 1))
  {
    var a := t - s.genesis;
    if s.sub.Some? && n >= s.sub.value.fromBlock {
      var sub := s.sub.value;
      assert (n - sub.fromBlock) / sub.perSecond >= 0 by { DivPos(n - sub.fromBlock, sub.perSecond); }
      if a / s.blockTime == n {
        DivIs(a, s.blockTime, n);
        MulLess(n, sub.fromBlock, s.blockTime);
      }
    } else {
      if a == n * s.blockTime {
        DivIs(a, s.blockTime, n);
        assert (n + 1) * s.blockTime == n * s.blockTime + s.blockTime;
      }
      assert a == (a / s.blockTime) * s.blockTime + a % s.blockTime;
    }
  }

  lemma DivPos(a: nat, d: nat)
    requires d >= 1
    ensures a / d >= 0
  {
  }

  /** Later blocks are not stamped earlier. */
  lemma TimesAscend(m: nat, n: nat, s: Schedule)
    requires Steady(s) && m <= n
    ensures TimeOfBlock(m, s) <= TimeOfBlock(n, s)
  {
    if s.sub.Some? {
      var sub := s.sub.value;
      if m >= sub.fromBlock {
        DivMono(m - sub.fromBlock, n - sub.fromBlock, sub.perSecond);
      } else if n >= sub.fromBlock {
        DivPos(n - sub.fromBlock, sub.perSecond);
        MulLess(m, sub.fromBlock, s.blockTime);
      } else {
        MulLess(n, m, s.blockTime);
      }
    } else {
      MulLess(n, m, s.blockTime);
    }
  }

  lemma DivMono(a: nat, b: nat, d: nat)
    requires d >= 1 && a <= b
    ensures a / d <= b / d
  {
    if b / d < a / d {
      MulStep(b / d, a / d, d);
      DivIs(a, d, a / d);
      DivIs(b, d, b / d);
    }
  }

  lemma HeadShared(t: int, s: Schedule)
    requires Steady(s) && s.sub.Some? && t >= s.sub.value.fromTime
    ensures var h := HeadAt(t, s); h >= 0 && TimeOfBlock(h, s) == t && TimeOfBlock(h + 1, s) > t && t >= s.genesis
  {
    var sub, h := s.sub.value, HeadAt(t, s);
    var q := t - sub.fromTime;
    assert (q + 1) * sub.perSecond == q * sub.perSecond + sub.perSecond;
    assert q * sub.perSecond >= 0 && sub.fromBlock * s.blockTime >= 0;
    DivIs(h - sub.fromBlock, sub.perSecond, q);
    DivIs(h + 1 - sub.fromBlock, sub.perSecond, q + 1);
    assert (q + 2) * sub.perSecond == (q + 1) * sub.perSecond + sub.perSecond;
  }

  lemma HeadEarly(t: int, s: Schedule)
    requires Steady(s) && (s.sub.Some? ==> t < s.sub.value.fromTime) && t >= s.genesis
    ensures var h := HeadAt(t, s); h >= 0 && TimeOfBlock(h, s) <= t && TimeOfBlock(h + 1, s) > t
  {
    var a, h := t - s.genesis, HeadAt(t, s);
    DivPos(a, s.blockTime);
    DivIs(a, s.blockTime, h);
    if s.sub.Some? {
      MulLess(h, s.sub.value.fromBlock, s.blockTime);
      if h + 1 >= s.sub.value.fromBlock {
        DivPos(h + 1 - s.sub.value.fromBlock, s.sub.value.perSecond);
      }
    }
  }

  lemma HeadTooEarly(t: int, s: Schedule)
    requires Steady(s) && t < s.genesis
    ensures HeadAt(t, s) == 0 && TimeOfBlock(0, s) == s.genesis
  {
    if s.sub.Some? {
      assert s.sub.value.fromBlock * s.blockTime >= 0;
    }
    DivNeg(t - s.genesis, s.blockTime);
  }

  lemma DivNeg(a: int, d: nat)
    requires d >= 1 && a < 0
    ensures a / d < 0
  {
  }

  /**
   * The head is the last block stamped by `t`, exactly from the first block's time on; before it, block 0 is answered
   * all the same.
   */
  lemma HeadIsNewest(t: int, s: Schedule, n: nat)
    requires Steady(s)
    ensures HeadAt(t, s) >= 0
    ensures TimeOfBlock(HeadAt(t, s), s) <= t <==> t >= s.genesis
    ensures n > HeadAt(t, s) ==> TimeOfBlock(n, s) > t
  {
    hide HeadAt, TimeOfBlock;
    if t < s.genesis {
      HeadTooEarly(t, s);
      TimesAscend(0, n, s);
    } else {
      if s.sub.Some? && t >= s.sub.value.fromTime {
        HeadShared(t, s);
      } else {
        HeadEarly(t, s);
      }
      if n > HeadAt(t, s) {
        TimesAscend(HeadAt(t, s) + 1, n, s);
      }
    }
  }

  // ------------------------------------------------------- numbering singular batches

  /** Where the run of equal timestamps from `i` on ends. */
  function RunEnd(ts: seq<int>, i: nat): (j: nat)
    requires i < |ts|
    ensures i < j <= |ts|
    ensures forall k :: i <= k < j ==> ts[k] == ts[i]
    ensures j < |ts| ==> ts[j] != ts[i]
    decreases |ts| - i
  {
    if i + 1 < |ts| && ts[i + 1] == ts[i] then RunEnd(ts, i + 1) else i + 1
  }

  /** Where in its slot the run [i, j) starts, or a refusal. */
  function RunOffset(ts: seq<int>, i: nat, j: nat, at: Slot, pin: Option<Pin>): (r: Result<nat>)
    requires i < j <= |ts|
    ensures r.Ok? ==> r.value + (j - i) <= at.count
  {
    var run := j - i;
    if run > at.count then Err
    else if run == at.count then Ok(0)
    else if i > 0 && j < |ts| then Err
    else if i == 0 && j < |ts| then Ok(at.count - run)
    else if i == 0 && pin.Some? && pin.value.index < j then
      var offset := pin.value.number - pin.value.index - at.first;
      if offset < 0 || offset + run > at.count then Err else Ok(offset)
    else Ok(0)
  }

  function Counted(first: int, n: nat): (ns: seq<int>)
    ensures |ns| == n && forall k :: 0 <= k < n ==> ns[k] == first + k
  {
    seq(n, k => first + k)
  }

  /** The block numbers of the timestamps from `i` on. */
  function NumberFrom(ts: seq<int>, i: nat, s: Schedule, pin: Option<Pin>): (r: Result<seq<int>>)
    requires s.blockTime >= 1 && i <= |ts|
    ensures r.Ok? ==> |r.value| == |ts| - i
    decreases |ts| - i
  {
    if i == |ts| then Ok([]) else
      match BlocksAt(ts[i], s)
      case None => Err
      case Some(at) =>
        var j := RunEnd(ts, i);
        match RunOffset(ts, i, j, at, pin)
        case Err => Err
        case Ok(offset) =>
          FollowedBy(Counted(at.first + offset, j - i), NumberFrom(ts, j, s, pin))
  }

  lemma NumberNowhere(ts: seq<int>, i: nat, s: Schedule, pin: Option<Pin>)
    requires s.blockTime >= 1 && i < |ts| && BlocksAt(ts[i], s).None?
    ensures NumberFrom(ts, i, s, pin) == Err
  {
  }

  lemma NumberStep(ts: seq<int>, i: nat, s: Schedule, pin: Option<Pin>)
    requires s.blockTime >= 1 && i < |ts| && BlocksAt(ts[i], s).Some?
    ensures var at, j := BlocksAt(ts[i], s).value, RunEnd(ts, i);
            NumberFrom(ts, i, s, pin) ==
              if RunOffset(ts, i, j, at, pin).Err? then Err
              else FollowedBy(Counted(at.first + RunOffset(ts, i, j, at, pin).value, j - i), NumberFrom(ts, j, s, pin))
  {
  }

  lemma CountedTwice(a: int, k: nat, m: nat)
    ensures Counted(a, k) + Counted(a + k, m) == Counted(a, k + m)
  {
  }

  /** No gap between neighbours where seconds are shared. */
  predicate GapFree(ts: seq<int>, ns: seq<int>, s: Schedule)
    requires |ts| == |ns|
  {
    s.sub.Some? ==> forall k :: 1 <= k < |ns| && ts[k] >= s.sub.value.fromTime ==> ns[k] == ns[k - 1] + 1
  }

  function Numbered(ts: seq<int>, s: Schedule, pin: Option<Pin>): Result<seq<int>>
    requires s.blockTime >= 1
  {
    match NumberFrom(ts, 0, s, pin)
    case Err => Err
    case Ok(ns) => if GapFree(ts, ns, s) then Ok(ns) else Err
  }

  method CheckGaps(ts: seq<int>, ns: seq<int>, s: Schedule) returns (ok: bool)
    requires |ts| == |ns|
    ensures ok == GapFree(ts, ns, s)
  {
    if s.sub.None? {
      return true;
    }
    var k := 1;
    while k < |ns|
      invariant k >= 1
      invariant forall m :: 1 <= m < k && m < |ns| && ts[m] >= s.sub.value.fromTime ==> ns[m] == ns[m - 1] + 1
    {
      if ts[k] >= s.sub.value.fromTime && ns[k] != ns[k - 1] + 1 {
        return false;
      }
      k := k + 1;
    }
    ok := true;
  }

  method NumberSingularBatches(ts: seq<int>, s: Schedule, pin: Option<Pin>) returns (r: Result<seq<int>>)
    requires s.blockTime >= 1
    ensures r == Numbered(ts, s, pin)
  {
    hide BlocksAt, RunOffset, GapFree, NumberFrom;
    var out: seq<int> := [];
    var i := 0;
    FollowsNothing(NumberFrom(ts, 0, s, pin));
    while i < |ts|
      invariant 0 <= i <= |ts| && |out| == i
      invariant NumberFrom(ts, 0, s, pin) == FollowedBy(out, NumberFrom(ts, i, s, pin))
    {
      var at := BlocksAt(ts[i], s);
      if at.None? {
        NumberNowhere(ts, i, s, pin);
        return Err;
      }
      NumberStep(ts, i, s, pin);
      var j := i;
      while j < |ts| && ts[j] == ts[i]
        invariant i <= j <= |ts|
        invariant j == i || RunEnd(ts, j - 1) == RunEnd(ts, i)
        invariant forall k :: i <= k < j ==> ts[k] == ts[i]
        invariant j == i ==> ts[j] == ts[i]
      {
        j := j + 1;
      }
      assert j == RunEnd(ts, i);
      var offset := RunOffset(ts, i, j, at.value, pin);
      if offset.Err? {
        return Err;
      }
      var run := Counted(at.value.first + offset.value, j - i);
      FollowsTwice(out, run, NumberFrom(ts, j, s, pin));
      out := out + run;
      i := j;
    }
    NumberNone(ts, s, pin);
    assert out + [] == out;
    var ok := CheckGaps(ts, out, s);
    r := if ok then Ok(out) else Err;
  }

  // ------------------------------------------------------------- what the numbers say

  /**
   * Whatever the numbering returns, each block is stamped as its batch is, and blocks that share seconds are
   * consecutive.
   */
  lemma NumbersAreStamped(ts: seq<int>, s: Schedule, pin: Option<Pin>)
    requires Steady(s) && Numbered(ts, s, pin).Ok?
    ensures var ns := Numbered(ts, s, pin).value;
            && |ns| == |ts|
            && (forall k :: 0 <= k < |ts| ==> ns[k] >= 0 && TimeOfBlock(ns[k], s) == ts[k])
            && (s.sub.Some? ==> forall k :: 1 <= k < |ts| && ts[k] >= s.sub.value.fromTime ==> ns[k] == ns[k - 1] + 1)
  {
    hide TimeOfBlock, NumberFrom;
    StampedFrom(ts, 0, s, pin);
  }

  lemma {:induction false} StampedFrom(ts: seq<int>, i: nat, s: Schedule, pin: Option<Pin>)
    requires Steady(s) && i <= |ts| && NumberFrom(ts, i, s, pin).Ok?
    ensures forall k :: 0 <= k < |ts| - i ==>
      NumberFrom(ts, i, s, pin).value[k] >= 0 && TimeOfBlock(NumberFrom(ts, i, s, pin).value[k], s) == ts[i + k]
    decreases |ts| - i
  {
    hide TimeOfBlock, BlocksAt, RunOffset;
    if i < |ts| {
      var j, at := RunEnd(ts, i), BlocksAt(ts[i], s).value;
      var offset := RunOffset(ts, i, j, at, pin).value;
      var ns, rest := NumberFrom(ts, i, s, pin).value, NumberFrom(ts, j, s, pin).value;
      StampedFrom(ts, j, s, pin);
      forall k | 0 <= k < |ts| - i ensures ns[k] >= 0 && TimeOfBlock(ns[k], s) == ts[i + k] {
        if k < j - i {
          assert ns[k] == at.first + offset + k;
          SlotIsItsBlocks(ts[i], s, 0);
          SlotIsItsBlocks(ts[i], s, ns[k]);
        } else {
          assert ns[k] == rest[k - (j - i)];
        }
      }
    }
  }

  /** The timestamps of `m` consecutive blocks. */
  function Times(b: nat, m: nat, s: Schedule): (ts: seq<int>)
    requires s.sub.Some? ==> s.sub.value.perSecond >= 1
    ensures |ts| == m && forall k :: 0 <= k < m ==> ts[k] == TimeOfBlock(b + k, s)
  {
    seq(m, k requires 0 <= k < m => TimeOfBlock(b + k, s))
  }

  ghost function SlotOf(n: nat, s: Schedule): (slot: Slot)
    requires Steady(s)
    ensures BlocksAt(TimeOfBlock(n, s), s) == Some(slot) && 0 <= slot.first <= n < slot.first + slot.count
  {
    SlotIsItsBlocks(TimeOfBlock(n, s), s, n);
    BlocksAt(TimeOfBlock(n, s), s).value
  }

  /** The run from block b + i on ends where its second does, or the channel. */
  lemma RunOfBlocks(b: nat, m: nat, i: nat, s: Schedule)
    requires Steady(s) && i < m
    ensures var at, j := SlotOf(b + i, s), RunEnd(Times(b, m, s), i);
            j == if b + m <= at.first + at.count then m else at.first + at.count - b
  {
    hide TimeOfBlock, BlocksAt;
    var ts, t, at := Times(b, m, s), TimeOfBlock(b + i, s), SlotOf(b + i, s);
    var j := RunEnd(ts, i);
    assert ts[j - 1] == ts[i] == t;
    SlotIsItsBlocks(t, s, b + j - 1);
    SlotIsItsBlocks(t, s, b + j);
  }

  /** From the first block of a second on, consecutive blocks are counted off as they are. */
  lemma {:induction false} CountsFrom(b: nat, m: nat, i: nat, s: Schedule, pin: Option<Pin>)
    requires Steady(s) && 0 < i <= m
    requires i < m ==> SlotOf(b + i, s).first == b + i
    ensures NumberFrom(Times(b, m, s), i, s, pin) == Ok(Counted(b + i, m - i))
    decreases m - i
  {
    hide TimeOfBlock, BlocksAt, NumberFrom, RunEnd;
    var ts := Times(b, m, s);
    if i < m {
      var at, j := SlotOf(b + i, s), RunEnd(ts, i);
      RunOfBlocks(b, m, i, s);
      NumberStep(ts, i, s, pin);
      if j < m {
        NextSlot(b + i, s);
      }
      CountsFrom(b, m, j, s, pin);
      CountedTwice(b + i, j - i, m - j);
    } else {
      NumberNone(ts, s, pin);
      assert Counted(b + i, 0) == [];
    }
  }

  lemma NumberNone(ts: seq<int>, s: Schedule, pin: Option<Pin>)
    requires s.blockTime >= 1
    ensures NumberFrom(ts, |ts|, s, pin) == Ok([])
  {
  }

  /** The block after a second's last is the first of its own second. */
  lemma NextSlot(n: nat, s: Schedule)
    requires Steady(s)
    ensures var next := SlotOf(n, s).first + SlotOf(n, s).count; SlotOf(next, s).first == next
  {
    hide TimeOfBlock, BlocksAt;
    var at := SlotOf(n, s);
    var next := at.first + at.count;
    var here := SlotOf(next, s);
    if here.first < next {
      SlotIsItsBlocks(TimeOfBlock(n, s), s, next - 1);
      SlotIsItsBlocks(TimeOfBlock(next, s), s, next - 1);
      SlotIsItsBlocks(TimeOfBlock(n, s), s, next);
    }
  }

  /** What the numbering makes of `m` consecutive blocks from `b` on: right, but for one case. */
  ghost function FirstNumber(b: nat, m: nat, s: Schedule, pin: Option<Pin>): int
    requires Steady(s) && m >= 1
  {
    if OneCutSecond(b, m, s) && (pin.None? || pin.value.index >= m) then SlotOf(b, s).first else b
  }

  /** Every batch shares one second, and they do not fill it. */
  ghost predicate OneCutSecond(b: nat, m: nat, s: Schedule)
    requires Steady(s) && m >= 1
  {
    b + m <= SlotOf(b, s).first + SlotOf(b, s).count && m < SlotOf(b, s).count
  }

  lemma ConsecutiveBlocks(b: nat, m: nat, s: Schedule, pin: Option<Pin>)
    requires Steady(s) && m >= 1
    requires pin.Some? && pin.value.index < m ==> pin.value.number == b + pin.value.index
    ensures Numbered(Times(b, m, s), s, pin) == Ok(Counted(FirstNumber(b, m, s, pin), m))
  {
    hide TimeOfBlock, BlocksAt, NumberFrom, RunEnd;
    var ts, at := Times(b, m, s), SlotOf(b, s);
    var j := RunEnd(ts, 0);
    RunOfBlocks(b, m, 0, s);
    var first := FirstNumber(b, m, s, pin);
    if j < m {
      NextSlot(b, s);
    }
    CountsFrom(b, m, j, s, pin);
    NumberStep(ts, 0, s, pin);
    CountedTwice(first, j, m - j);
  }

  /**
   * Without a pin the numbering returns exactly the channel's blocks, except when they all share one second, do not
   * fill it, and are not its first.
   */
  lemma NumbersAreTheBlocks(b: nat, m: nat, s: Schedule)
    requires Steady(s) && m >= 1
    ensures Numbered(Times(b, m, s), s, None) == Ok(Counted(b, m)) <==>
      !OneCutSecond(b, m, s) || SlotOf(b, s).first == b
  {
    hide TimeOfBlock, BlocksAt, Numbered;
    ConsecutiveBlocks(b, m, s, None);
    assert Counted(FirstNumber(b, m, s, None), m)[0] == FirstNumber(b, m, s, None);
    assert Counted(b, m)[0] == b;
  }

  /** A batch pinned to its own block settles every case. */
  lemma PinnedNumbersAreTheBlocks(b: nat, m: nat, s: Schedule, pin: Pin)
    requires Steady(s) && pin.index < m && pin.number == b + pin.index
    ensures Numbered(Times(b, m, s), s, Some(pin)) == Ok(Counted(b, m))
  {
    hide TimeOfBlock, BlocksAt, Numbered;
    ConsecutiveBlocks(b, m, s, Some(pin));
  }

  // ----------------------------------------------------------- numbering a cut channel

  lemma RunEndOfPrefix(ts: seq<int>, n: nat, i: nat)
    requires i < n <= |ts|
    ensures RunEnd(ts[..n], i) == if RunEnd(ts, i) <= n then RunEnd(ts, i) else n
  {
    hide RunEnd;
    var cut := ts[..n];
    var j, j' := RunEnd(ts, i), RunEnd(cut, i);
    if j' < n {
      assert cut[j'] == ts[j'] && cut[i] == ts[i];
    }
    if j < n {
      assert cut[j] == ts[j] && cut[i] == ts[i];
    }
  }

  lemma {:induction false} PrefixNumbersFrom(ts: seq<int>, n: nat, i: nat, s: Schedule)
    requires s.blockTime >= 1 && 0 < i <= n <= |ts| && NumberFrom(ts, i, s, None).Ok?
    ensures NumberFrom(ts[..n], i, s, None) == Ok(NumberFrom(ts, i, s, None).value[..n - i])
    decreases n - i
  {
    hide BlocksAt, NumberFrom, RunEnd;
    var cut := ts[..n];
    if i == n {
      NumberNone(cut, s, None);
    } else {
      var whole := NumberFrom(ts, i, s, None).value;
      var j, j' := RunEnd(ts, i), RunEnd(cut, i);
      NumberedAt(ts, i, s, None);
      NumberStep(ts, i, s, None);
      NumberStep(cut, i, s, None);
      RunEndOfPrefix(ts, n, i);
      var at := BlocksAt(ts[i], s).value;
      assert RunOffset(ts, i, j, at, None) == Ok(0) == RunOffset(cut, i, j', at, None);
      if j < n {
        PrefixNumbersFrom(ts, n, j, s);
        assert whole[..n - i] == Counted(at.first, j - i) + NumberFrom(ts, j, s, None).value[..n - j];
      } else {
        NumberNone(cut, s, None);
        assert whole[..n - i] == Counted(at.first, n - i) + [];
      }
    }
  }

  lemma NumberedAt(ts: seq<int>, i: nat, s: Schedule, pin: Option<Pin>)
    requires s.blockTime >= 1 && i < |ts| && NumberFrom(ts, i, s, pin).Ok?
    ensures BlocksAt(ts[i], s).Some?
  {
  }

  /** After the first run a pin makes no difference. */
  lemma {:induction false} PinPastFirst(ts: seq<int>, i: nat, s: Schedule, pin: Option<Pin>)
    requires s.blockTime >= 1 && 0 < i <= |ts|
    ensures NumberFrom(ts, i, s, pin) == NumberFrom(ts, i, s, None)
    decreases |ts| - i
  {
    hide BlocksAt, RunEnd;
    if i < |ts| && BlocksAt(ts[i], s).Some? {
      PinPastFirst(ts, RunEnd(ts, i), s, pin);
    }
  }

  /**
   * The number of a channel's first batch, when `run` batches share its second and that is the whole channel or not:
   * a full second begins at its first block, a channel that goes on has the second's last blocks, and one that does
   * not has the pinned ones, or else the first.
   */
  function FirstOf(run: nat, closes: bool, at: Slot, pin: Option<Pin>): int {
    if run == at.count then at.first
    else if !closes then at.first + at.count - run
    else if pin.Some? && pin.value.index < run then pin.value.number - pin.value.index
    else at.first
  }

  /** A pin into a second that is not full puts all of the run inside that second. */
  predicate PinFits(run: nat, at: Slot, pin: Option<Pin>) {
    run < at.count && pin.Some? && pin.value.index < run ==>
      at.first <= pin.value.number - pin.value.index <= at.first + at.count - run
  }

  lemma FirstRunOffset(ts: seq<int>, at: Slot, pin: Option<Pin>)
    requires ts != []
    ensures var j := RunEnd(ts, 0);
      RunOffset(ts, 0, j, at, pin) ==
        if j > at.count || (j == |ts| && !PinFits(j, at, pin)) then Err
        else Ok(FirstOf(j, j == |ts|, at, pin) - at.first)
  {
    hide RunEnd;
  }

  /** The first run, as the channel numbers it. */
  lemma FirstRun(ts: seq<int>, s: Schedule, pin: Option<Pin>)
    requires s.blockTime >= 1 && ts != [] && NumberFrom(ts, 0, s, pin).Ok?
    ensures BlocksAt(ts[0], s).Some?
    ensures var at, j := BlocksAt(ts[0], s).value, RunEnd(ts, 0);
      && j <= at.count && (j == |ts| ==> PinFits(j, at, pin)) && NumberFrom(ts, j, s, None).Ok?
      && NumberFrom(ts, 0, s, pin).value
         == Counted(FirstOf(j, j == |ts|, at, pin), j) + NumberFrom(ts, j, s, None).value
  {
    hide BlocksAt, NumberFrom, RunEnd, FirstOf, PinFits, RunOffset;
    var at, j := BlocksAt(ts[0], s), RunEnd(ts, 0);
    NumberedAt(ts, 0, s, pin);
    NumberStep(ts, 0, s, pin);
    FirstRunOffset(ts, at.value, pin);
    PinPastFirst(ts, j, s, pin);
  }

  lemma PrefixPastFirst(ts: seq<int>, n: nat, s: Schedule, pin: Option<Pin>, pin': Option<Pin>)
    requires s.blockTime >= 1 && 1 <= n <= |ts| && NumberFrom(ts, 0, s, pin).Ok? && n > RunEnd(ts, 0)
    ensures NumberFrom(ts[..n], 0, s, pin') == Ok(NumberFrom(ts, 0, s, pin).value[..n])
  {
    hide BlocksAt, NumberFrom, RunEnd, RunOffset;
    var ns, j, cut := NumberFrom(ts, 0, s, pin).value, RunEnd(ts, 0), ts[..n];
    FirstRun(ts, s, pin);
    RunEndOfPrefix(ts, n, 0);
    NumberStep(cut, 0, s, pin');
    FirstRunOffset(cut, BlocksAt(ts[0], s).value, pin');
    PinPastFirst(cut, j, s, pin');
    PrefixNumbersFrom(ts, n, j, s);
    var first := FirstOf(j, false, BlocksAt(ts[0], s).value, pin);
    assert ns[..n] == Counted(first, j) + NumberFrom(ts, j, s, None).value[..n - j];
  }

  lemma PrefixInFirst(ts: seq<int>, n: nat, s: Schedule, pin': Option<Pin>)
    requires s.blockTime >= 1 && 1 <= n <= |ts| && n <= RunEnd(ts, 0) && BlocksAt(ts[0], s).Some?
    requires n <= BlocksAt(ts[0], s).value.count
    ensures var at := BlocksAt(ts[0], s).value;
      NumberFrom(ts[..n], 0, s, pin') ==
        if PinFits(n, at, pin') then Ok(Counted(FirstOf(n, true, at, pin'), n)) else Err
  {
    hide BlocksAt, NumberFrom, RunEnd, RunOffset, FirstOf, PinFits;
    var cut, at := ts[..n], BlocksAt(ts[0], s).value;
    RunEndOfPrefix(ts, n, 0);
    assert RunEnd(cut, 0) == n;
    NumberStep(cut, 0, s, pin');
    NumberNone(cut, s, pin');
    FirstRunOffset(cut, at, pin');
    var first := FirstOf(n, true, at, pin');
    assert Counted(first, n) + [] == Counted(first, n);
  }

  lemma CountedFrom(a: int, b: int, n: nat, m: nat)
    requires 1 <= n <= m
    ensures Counted(a, n) == Counted(b, m)[..n] <==> a == b
  {
    assert Counted(a, n)[0] == a && Counted(b, m)[..n][0] == b;
  }

  /** The pin places a run of `n` batches that does not fill its second. */
  predicate Places(n: nat, at: Slot, pin: Option<Pin>) {
    n < at.count && pin.Some? && pin.value.index < n
  }

  /** The block that a pin makes the channel's first. */
  function PinnedFirst(pin: Pin): int {
    pin.number - pin.index
  }

  /**
   * A channel cut to its first `n` batches, all of one second, begins where the whole channel does. `j` batches of the
   * whole are of that second, and they are `all` it has or not; `pin` is its pin and `pin'` the cut's.
   */
  predicate SameStart(n: nat, j: nat, all: bool, at: Slot, pin: Option<Pin>, pin': Option<Pin>) {
    if n == at.count then true
    else if Places(n, at, pin') then
      // the cut begins where its pin puts it
      if !all || j == at.count then PinnedFirst(pin'.value) == at.first + at.count - j
      else if Places(j, at, pin) then PinnedFirst(pin'.value) == PinnedFirst(pin.value)
      else PinnedFirst(pin'.value) == at.first
    else
      // the cut begins at the second's first block
      j == at.count || (all && (Places(j, at, pin) ==> PinnedFirst(pin.value) == at.first))
  }

  lemma SameStartIs(n: nat, j: nat, all: bool, at: Slot, pin: Option<Pin>, pin': Option<Pin>)
    requires n <= j <= at.count
    ensures SameStart(n, j, all, at, pin, pin') <==> FirstOf(n, true, at, pin') == FirstOf(j, all, at, pin)
  {
  }

  /**
   * Reading only the first `n` batches of a channel that is numbered, with whatever pin is left of it. It is refused
   * exactly when it stops inside the first second, does not fill that second, and the pin puts it outside; and it gives
   * other numbers exactly when it stops inside the first second and that second is begun elsewhere.
   */
  lemma PrefixNumbers(ts: seq<int>, n: nat, s: Schedule, pin: Option<Pin>, pin': Option<Pin>)
    requires s.blockTime >= 1 && 1 <= n <= |ts| && Numbered(ts, s, pin).Ok?
    ensures BlocksAt(ts[0], s).Some?
    ensures var at, j := BlocksAt(ts[0], s).value, RunEnd(ts, 0);
      && (Numbered(ts[..n], s, pin').Ok? <==> n > j || PinFits(n, at, pin'))
      && (Numbered(ts[..n], s, pin').Ok? ==>
            (Numbered(ts[..n], s, pin').value == Numbered(ts, s, pin).value[..n] <==>
             n > j || SameStart(n, j, j == |ts|, at, pin, pin')))
  {
    hide BlocksAt, NumberFrom, RunEnd, RunOffset, FirstOf, PinFits, SameStart;
    FirstRun(ts, s, pin);
    var ns, at, j := Numbered(ts, s, pin).value, BlocksAt(ts[0], s).value, RunEnd(ts, 0);
    if n > j {
      PrefixPastFirst(ts, n, s, pin, pin');
    } else {
      PrefixInFirst(ts, n, s, pin');
      SameStartIs(n, j, j == |ts|, at, pin, pin');
      CountedFrom(FirstOf(n, true, at, pin'), FirstOf(j, j == |ts|, at, pin), n, j);
      assert ns[..n] == Counted(FirstOf(j, j == |ts|, at, pin), j)[..n];
    }
  }

  /**
   * Without a pin a prefix is never refused, and its numbers are the whole channel's exactly when it reaches past the
   * first second, or that second is full, or it is all the channel has.
   */
  lemma PrefixUnpinned(ts: seq<int>, n: nat, s: Schedule)
    requires s.blockTime >= 1 && 1 <= n <= |ts| && Numbered(ts, s, None).Ok?
    ensures BlocksAt(ts[0], s).Some? && Numbered(ts[..n], s, None).Ok?
    ensures var j := RunEnd(ts, 0);
      Numbered(ts[..n], s, None).value == Numbered(ts, s, None).value[..n] <==>
      n > j || j == |ts| || j == BlocksAt(ts[0], s).value.count
  {
    hide BlocksAt, NumberFrom, RunEnd, RunOffset, Numbered;
    PrefixNumbers(ts, n, s, None, None);
    FirstRunCount(ts, s, None);
  }

  /**
   * With the pinned batch still there, an accepted prefix has the whole channel's numbers exactly when it reaches past
   * the first second, or fills it, or the channel has no more than that second and does not fill it, or the pin names
   * the block that the channel gives to its batch: one of the last of that second.
   */
  lemma PrefixPinKept(ts: seq<int>, n: nat, s: Schedule, pin: Pin)
    requires s.blockTime >= 1 && 1 <= n <= |ts| && Numbered(ts, s, Some(pin)).Ok? && pin.index < n
    requires Numbered(ts[..n], s, Some(pin)).Ok?
    ensures BlocksAt(ts[0], s).Some?
    ensures var at, j := BlocksAt(ts[0], s).value, RunEnd(ts, 0);
      Numbered(ts[..n], s, Some(pin)).value == Numbered(ts, s, Some(pin)).value[..n] <==>
      n > j || n == at.count || (j == |ts| && j < at.count) || pin.number == at.first + at.count - j + pin.index
  {
    hide BlocksAt, NumberFrom, RunEnd, RunOffset, Numbered;
    PrefixNumbers(ts, n, s, Some(pin), Some(pin));
    FirstRunCount(ts, s, Some(pin));
  }

  /**
   * With the pin lost, no prefix is refused, and it has the whole channel's numbers exactly when it reaches past the
   * first second, or that second is full, or the channel has no more than that second and the pin did not count or put
   * it at the second's first block.
   */
  lemma PrefixPinLost(ts: seq<int>, n: nat, s: Schedule, pin: Pin)
    requires s.blockTime >= 1 && 1 <= n <= |ts| && Numbered(ts, s, Some(pin)).Ok?
    ensures BlocksAt(ts[0], s).Some? && Numbered(ts[..n], s, None).Ok?
    ensures var at, j := BlocksAt(ts[0], s).value, RunEnd(ts, 0);
      Numbered(ts[..n], s, None).value == Numbered(ts, s, Some(pin)).value[..n] <==>
      n > j || j == at.count || (j == |ts| && (pin.index >= j || pin.number == at.first + pin.index))
  {
    hide BlocksAt, NumberFrom, RunEnd, RunOffset, Numbered;
    PrefixNumbers(ts, n, s, Some(pin), None);
    FirstRunCount(ts, s, Some(pin));
  }

  lemma FirstRunCount(ts: seq<int>, s: Schedule, pin: Option<Pin>)
    requires s.blockTime >= 1 && ts != [] && Numbered(ts, s, pin).Ok?
    ensures BlocksAt(ts[0], s).Some? && RunEnd(ts, 0) <= BlocksAt(ts[0], s).value.count
  {
    hide BlocksAt, NumberFrom, RunEnd, RunOffset, FirstOf, PinFits;
    FirstRun(ts, s, pin);
  }

  const FIVE_A_SECOND := Schedule(0, 2, Some(SubSecond(5, 10, 5)))

  /**
   * A pinned channel whose prefix is refused: the pin made no difference to the whole, and fits nothing of the prefix.
   */
  lemma PinnedPrefixRefused()
    ensures var ts, pin := [10, 11, 11, 11, 11, 11], Some(Pin(0, 100));
      && Numbered(ts, FIVE_A_SECOND, pin) == Ok([9, 10, 11, 12, 13, 14])
      && Numbered(ts[..1], FIVE_A_SECOND, pin) == Err
  {
    hide RunOffset, BlocksAt;
    var ts, s, pin := [10, 11, 11, 11, 11, 11], FIVE_A_SECOND, Some(Pin(0, 100));
    FirstSlots();
    assert RunEnd(ts, 0) == 1;
    assert RunEnd(ts, 5) == RunEnd(ts, 4) == RunEnd(ts, 3) == 6;
    assert RunEnd(ts, 2) == RunEnd(ts, 1) == 6;
    FirstRunOffset(ts, Slot(5, 5), pin);
    SecondRun(ts, pin);
    NumberStep(ts, 0, s, pin);
    NumberStep(ts, 1, s, pin);
    NumberNone(ts, s, pin);
    assert Counted(9, 1) + (Counted(10, 5) + []) == [9, 10, 11, 12, 13, 14];
    assert ts[..1] == [10];
    PrefixInFirst(ts, 1, s, pin);
  }

  lemma FirstSlots()
    ensures BlocksAt(10, FIVE_A_SECOND) == Some(Slot(5, 5)) && BlocksAt(11, FIVE_A_SECOND) == Some(Slot(10, 5))
  {
  }

  lemma SecondRun(ts: seq<int>, pin: Option<Pin>)
    requires |ts| == 6
    ensures RunOffset(ts, 1, 6, Slot(10, 5), pin) == Ok(0)
  {
  }

  /**
   * A pin lost with the part that is cut away changes the numbers: one batch, pinned to the third block of its second.
   */
  lemma PinLost()
    ensures Numbered([11], FIVE_A_SECOND, Some(Pin(0, 12))) == Ok([12])
    ensures Numbered([11], FIVE_A_SECOND, None) == Ok([10])
  {
    hide RunOffset, BlocksAt;
    FirstSlots();
    var ts: seq<int> := [11];
    assert ts[..1] == ts && RunEnd(ts, 0) == 1;
    PrefixInFirst(ts, 1, FIVE_A_SECOND, Some(Pin(0, 12)));
    PrefixInFirst(ts, 1, FIVE_A_SECOND, None);
    assert Counted(12, 1) == [12] && Counted(10, 1) == [10];
  }

  /** One block of a shared second, its second one, numbered as the first: `NumbersAreTheBlocks` at a failing input. */
  lemma OneBlockMisnumbered()
    ensures Times(6, 1, FIVE_A_SECOND) == [10] && Numbered(Times(6, 1, FIVE_A_SECOND), FIVE_A_SECOND, None) == Ok([5])
  {
    hide RunOffset, BlocksAt;
    FirstSlots();
    var ts: seq<int> := [10];
    assert TimeOfBlock(6, FIVE_A_SECOND) == 10;
    assert Times(6, 1, FIVE_A_SECOND) == ts;
    assert ts[..1] == ts && RunEnd(ts, 0) == 1;
    PrefixInFirst(ts, 1, FIVE_A_SECOND, None);
    assert Counted(5, 1) == [5];
  }

  // --------------------------------------------------------------------- span batches

  /** The numbers of a span batch's blocks: its first block's, and on from there. */
  function SpanNumbers(first: int, count: nat, s: Schedule): Result<seq<int>>
    requires s.blockTime >= 1 && count >= 1
  {
    match BlocksAt(first, s)
    case None => Err
    case Some(at) =>
      var last := BlocksAt(first + (count - 1) * s.blockTime, s);
      if at.count != 1 || last.None? || last.value.count != 1 then Err else Ok(Counted(at.first, count))
  }

  /** Of all blocks, `n` alone is stamped `t`. */
  ghost predicate Alone(n: nat, t: int, s: Schedule)
    requires Steady(s)
  {
    TimeOfBlock(n, s) == t && forall m: nat :: TimeOfBlock(m, s) == t ==> m == n
  }

  ghost predicate StampsOne(t: int, s: Schedule)
    requires Steady(s)
  {
    exists n: nat :: Alone(n, t, s)
  }

  lemma SlotAlone(t: int, s: Schedule, n: nat)
    requires Steady(s)
    ensures Alone(n, t, s) <==> BlocksAt(t, s) == Some(Slot(n, 1))
  {
    hide TimeOfBlock, BlocksAt;
    forall m: nat ensures TimeOfBlock(m, s) == t <==>
      BlocksAt(t, s).Some? && BlocksAt(t, s).value.first <= m < BlocksAt(t, s).value.first + BlocksAt(t, s).value.count
    {
      SlotIsItsBlocks(t, s, m);
    }
    SlotIsItsBlocks(t, s, n);
    if Alone(n, t, s) {
      var slot := BlocksAt(t, s).value;
      var first: nat, last: nat := slot.first, slot.first + slot.count - 1;
      assert TimeOfBlock(first, s) == t && TimeOfBlock(last, s) == t;
    }
  }

  /**
   * A span batch is accepted exactly when its first and its last timestamp each stamp one block and no other, and its
   * numbers then count on from that first block's.
   */
  lemma SpanAccepted(first: int, count: nat, s: Schedule, ns: seq<int>)
    requires Steady(s) && count >= 1
    ensures SpanNumbers(first, count, s) == Ok(ns) <==>
      && (exists n: nat :: Alone(n, first, s) && ns == Counted(n, count))
      && StampsOne(first + (count - 1) * s.blockTime, s)
  {
    hide TimeOfBlock, BlocksAt, Alone;
    var last := first + (count - 1) * s.blockTime;
    SlotIsItsBlocks(first, s, 0);
    SlotIsItsBlocks(last, s, 0);
    forall n: nat ensures Alone(n, first, s) <==> BlocksAt(first, s) == Some(Slot(n, 1)) {
      SlotAlone(first, s, n);
    }
    forall n: nat ensures Alone(n, last, s) <==> BlocksAt(last, s) == Some(Slot(n, 1)) {
      SlotAlone(last, s, n);
    }
    if SpanNumbers(first, count, s) == Ok(ns) {
      var n: nat, m: nat := BlocksAt(first, s).value.first, BlocksAt(last, s).value.first;
      assert Alone(n, first, s) && Alone(m, last, s);
    }
  }

  /**
   * One block of an accepted span batch is stamped by the schedule as the batch stamps it, exactly up to the second
   * part's first second, or at its pace.
   */
  lemma SpanBlock(first: int, count: nat, s: Schedule, k: nat)
    requires Steady(s) && k < count && SpanNumbers(first, count, s).Ok?
    ensures var n := BlocksAt(first, s).value.first;
            n >= 0 && (TimeOfBlock(n + k, s) == first + k * s.blockTime <==>
                       s.sub.None? || first + k * s.blockTime <= s.sub.value.fromTime || s.blockTime == 1 || k == 0)
  {
    if s.sub.Some? && first >= s.sub.value.fromTime {
      TimesAtLeast(k, s.blockTime);
      SpanBlockLate(first, s, k);
    } else {
      hide TimeOfBlock, BlocksAt;
      SpanEarly(first, count, s, k);
      SpanBlockEarly(BlocksAt(first, s).value.first, s, k);
    }
  }

  lemma SpanEarly(first: int, count: nat, s: Schedule, k: nat)
    requires Steady(s) && k < count && SpanNumbers(first, count, s).Ok?
    requires s.sub.Some? ==> first < s.sub.value.fromTime
    ensures var n := BlocksAt(first, s).value.first;
            n >= 0 && first == s.genesis + n * s.blockTime && (s.sub.Some? ==> n < s.sub.value.fromBlock)
    ensures s.sub.Some? && first + k * s.blockTime > s.sub.value.fromTime ==> s.sub.value.perSecond == 1
  {
    ExactQuotient(first - s.genesis, s.blockTime);
    MulLess(k, count - 1, s.blockTime);
    if s.sub.Some? {
      MulLess(BlocksAt(first, s).value.first, s.sub.value.fromBlock, s.blockTime);
    }
  }

  lemma SpanBlockEarly(n: nat, s: Schedule, k: nat)
    requires Steady(s)
    requires s.sub.Some? && s.genesis + n * s.blockTime + k * s.blockTime > s.sub.value.fromTime ==>
      s.sub.value.perSecond == 1
    requires s.sub.Some? ==> n < s.sub.value.fromBlock
    ensures (n + k) * s.blockTime == n * s.blockTime + k * s.blockTime
    ensures TimeOfBlock(n + k, s) == s.genesis + (n + k) * s.blockTime <==>
            s.sub.None? || s.genesis + (n + k) * s.blockTime <= s.sub.value.fromTime || s.blockTime == 1 || k == 0
  {
    if s.sub.Some? {
      var sub := s.sub.value;
      MulLess(sub.fromBlock, n + k, s.blockTime);
      if n + k > sub.fromBlock {
        var m := n + k - sub.fromBlock;
        assert (n + k) * s.blockTime == sub.fromBlock * s.blockTime + m * s.blockTime;
        TimesAtLeast(m, s.blockTime);
      }
    }
  }

  lemma SpanBlockLate(first: int, s: Schedule, k: nat)
    requires Steady(s) && s.sub.Some? && first >= s.sub.value.fromTime && s.sub.value.perSecond == 1
    ensures var n := BlocksAt(first, s).value.first; n >= 0 && TimeOfBlock(n + k, s) == first + k
  {
  }

  lemma TimesAtLeast(m: nat, bt: nat)
    requires bt >= 1
    ensures m * bt >= m && (m >= 1 ==> (m * bt == m <==> bt == 1))
  {
    if bt > 1 {
      assert m * bt == m + m * (bt - 1);
      MulLess(0, m, bt - 1);
    }
  }

  lemma ExactQuotient(a: int, d: nat)
    requires d >= 1 && a % d == 0
    ensures (a / d) * d == a
  {
  }

  /**
   * An accepted span batch's blocks are all stamped as the schedule says, exactly when it ends by the second part's
   * first second, is a single block, or a block takes one second throughout.
   */
  lemma SpanBlocksAreStamped(first: int, count: nat, s: Schedule)
    requires Steady(s) && count >= 1 && SpanNumbers(first, count, s).Ok?
    ensures var ns := SpanNumbers(first, count, s).value; var last := first + (count - 1) * s.blockTime;
            (forall k :: 0 <= k < count ==> TimeOfBlock(ns[k], s) == first + k * s.blockTime) <==>
            s.sub.None? || last <= s.sub.value.fromTime || s.blockTime == 1 || count == 1
  {
    hide TimeOfBlock, BlocksAt;
    var n, ns := BlocksAt(first, s).value.first, SpanNumbers(first, count, s).value;
    forall k | 0 <= k < count
      ensures TimeOfBlock(ns[k], s) == first + k * s.blockTime <==>
              s.sub.None? || first + k * s.blockTime <= s.sub.value.fromTime || s.blockTime == 1 || k == 0
      ensures first + k * s.blockTime <= first + (count - 1) * s.blockTime
    {
      SpanBlock(first, count, s, k);
      MulLess(k, count - 1, s.blockTime);
    }
    assert ns[count - 1] == n + (count - 1);
  }

  /**
   * A span batch over the second part's first second, at one block a second: accepted, its last block stamped
   * otherwise.
   */
  lemma SpanMisstamped()
    ensures var s := Schedule(0, 2, Some(SubSecond(5, 10, 1)));
      Steady(s) && SpanNumbers(8, 3, s) == Ok([4, 5, 6]) && TimeOfBlock(6, s) == 11 != 8 + 2 * s.blockTime
  {
    assert Counted(4, 3) == [4, 5, 6];
  }
}
