/** Channel frames: parsing them out of a blob's data, and joining a channel from whichever are at hand. */
module Frames {
  import opened Bytes

  datatype Frame = Frame(channelId: Bytes, number: nat, data: Bytes, isLast: bool)

  // ------------------------------------------------------------------- the layout

  /** What the layout can say: a 16-byte id, a 16-bit number, a 32-bit length. */
  ghost predicate Sized(f: Frame) {
    |f.channelId| == 16 && f.number < 0x1_0000 && |f.data| < 0x1_0000_0000
  }

  ghost predicate AllSized(fs: seq<Frame>) {
    fs == [] || (Sized(fs[0]) && AllSized(fs[1..]))
  }

  /** channel_id(16) frame_number(2) length(4) data is_last(1). */
  function Layout(f: Frame): (b: Bytes)
    ensures |b| >= 7
  {
    f.channelId + (BeBytes(f.number, 2) + (BeBytes(|f.data|, 4) + (f.data + [if f.isLast then 1 else 0])))
  }

  function LayoutAll(fs: seq<Frame>): Bytes {
    if fs == [] then [] else Layout(fs[0]) + LayoutAll(fs[1..])
  }

  // ------------------------------------------------------------------- the parser

  /** The frame at `p` and the end of it. */
  datatype Parsed = Parsed(frame: Frame, end: nat)

  function FrameAt(data: Bytes, p: nat): (r: Result<Parsed>)
    ensures r.Ok? ==> p + 23 <= r.value.end <= |data|
  {
    if p + 23 > |data| then Err else
      var len := BeNat(data[p + 18..p + 22]);
      if p + 22 + len + 1 > |data| then Err
      else if data[p + 22 + len] > 1 then Err
      else Ok(Parsed(Frame(data[p..p + 16], BeNat(data[p + 16..p + 18]), data[p + 22..p + 22 + len],
        data[p + 22 + len] == 1), p + 23 + len))
  }

  function FramesFrom(data: Bytes, p: nat): Result<seq<Frame>>
    decreases if p < |data| then |data| - p else 0
  {
    if p >= |data| then Ok([]) else
      match FrameAt(data, p)
      case Err => Err
      case Ok(parsed) => FollowedBy([parsed.frame], FramesFrom(data, parsed.end))
  }

  /** The frames of a blob's data, which starts with derivation version 0. */
  method ParseFrames(data: Bytes) returns (r: Result<seq<Frame>>)
    ensures r == if data == [] || data[0] != 0 then Err else FramesFrom(data, 1)
  {
    hide FramesFrom;
    if |data| == 0 || data[0] != 0 {
      return Err;
    }
    var frames: seq<Frame> := [];
    var p := 1;
    FollowsNothing(FramesFrom(data, 1));
    while p < |data|
      invariant FramesFrom(data, 1) == FollowedBy(frames, FramesFrom(data, p))
      decreases |data| - p
    {
      FramesStep(data, p);
      if p + 23 > |data| {
        return Err;
      }
      var n: nat, l0: nat, l1: nat, l2: nat := data[p + 16], data[p + 18], data[p + 19], data[p + 20];
      var number := n * 256 + data[p + 17];
      var len := l0 * 0x100_0000 + l1 * 0x1_0000 + l2 * 0x100 + data[p + 21];
      TwoBytes(data, p + 16, n);
      FourBytes(data, p + 18, l0, l1, l2);
      if p + 22 + len + 1 > |data| {
        return Err;
      }
      var last := data[p + 22 + len];
      if last > 1 {
        return Err;
      }
      var f := Frame(data[p..p + 16], number, data[p + 22..p + 22 + len], last == 1);
      FollowsTwice(frames, [f], FramesFrom(data, p + 23 + len));
      frames := frames + [f];
      p := p + (23 + len);
    }
    FramesStep(data, p);
    assert frames + [] == frames;
    r := Ok(frames);
  }

  lemma FramesStep(data: Bytes, p: nat)
    ensures FramesFrom(data, p) ==
            if p >= |data| then Ok([]) else
              match FrameAt(data, p)
              case Err => Err
              case Ok(parsed) => FollowedBy([parsed.frame], FramesFrom(data, parsed.end))
  {
  }

  lemma TwoBytes(data: Bytes, p: nat, high: nat)
    requires p + 2 <= |data| && data[p] == high
    ensures BeNat(data[p..p + 2]) == high * 256 + data[p + 1]
  {
    assert Init(data[p..p + 2]) == data[p..p + 1] && Init(data[p..p + 1]) == [];
  }

  lemma FourBytes(data: Bytes, p: nat, l0: nat, l1: nat, l2: nat)
    requires p + 4 <= |data| && data[p] == l0 && data[p + 1] == l1 && data[p + 2] == l2
    ensures BeNat(data[p..p + 4]) == l0 * 0x100_0000 + l1 * 0x1_0000 + l2 * 0x100 + data[p + 3]
  {
    TwoBytes(data, p, l0);
    assert Init(data[p..p + 4]) == data[p..p + 3] && Init(data[p..p + 3]) == data[p..p + 2];
    assert BeNat(data[p..p + 3]) == 256 * BeNat(data[p..p + 2]) + data[p + 2];
  }

  // ----------------------------------------------------- the two undo each other

  lemma BigEnough()
    ensures Pow256(2) == 0x1_0000 && Pow256(4) == 0x1_0000_0000
  {
  }

  lemma FrameReads(data: Bytes, p: nat, f: Frame)
    requires Sized(f) && At(data, p, Layout(f))
    ensures FrameAt(data, p) == Ok(Parsed(f, p + |Layout(f)|))
  {
    hide At, BeBytes, BeNat, Pow256;
    var number, length, flag := BeBytes(f.number, 2), BeBytes(|f.data|, 4), [if f.isLast then 1 else 0];
    AtConcat(data, p, f.channelId, number + (length + (f.data + flag)));
    AtConcat(data, p + 16, number, length + (f.data + flag));
    AtConcat(data, p + 18, length, f.data + flag);
    AtConcat(data, p + 22, f.data, flag);
    AtIs(data, p, f.channelId);
    AtIs(data, p + 16, number);
    AtIs(data, p + 18, length);
    AtIs(data, p + 22, f.data);
    AtByte(data, p + 22 + |f.data|, flag, 0);
    AtIs(data, p + 22 + |f.data|, flag);
    BigEnough();
    BeNatOfBeBytes(f.number, 2);
    BeNatOfBeBytes(|f.data|, 4);
  }

  lemma FrameWrites(data: Bytes, p: nat)
    requires FrameAt(data, p).Ok?
    ensures var f := FrameAt(data, p).value.frame;
            Sized(f) && At(data, p, Layout(f)) && FrameAt(data, p).value.end == p + |Layout(f)|
  {
    hide At, BeBytes, BeNat, Pow256;
    var f := FrameAt(data, p).value.frame;
    var number, length, flag := data[p + 16..p + 18], data[p + 18..p + 22], [if f.isLast then 1 else 0];
    BigEnough();
    BeBytesOfBeNat(number);
    BeBytesOfBeNat(length);
    AtSlice(data, p, p + 16);
    AtSlice(data, p + 16, p + 18);
    AtSlice(data, p + 18, p + 22);
    AtSlice(data, p + 22, p + 22 + |f.data|);
    AtSlice(data, p + 22 + |f.data|, p + 23 + |f.data|);
    assert data[p + 22 + |f.data|..p + 23 + |f.data|] == flag;
    AtConcat(data, p + 22, f.data, flag);
    AtConcat(data, p + 18, length, f.data + flag);
    AtConcat(data, p + 16, number, length + (f.data + flag));
    AtConcat(data, p, f.channelId, number + (length + (f.data + flag)));
  }

  lemma {:induction false} FramesRead(data: Bytes, p: nat, fs: seq<Frame>)
    requires AllSized(fs) && At(data, p, LayoutAll(fs)) && p + |LayoutAll(fs)| == |data|
    ensures FramesFrom(data, p) == Ok(fs)
    decreases fs
  {
    hide At, Layout, FrameAt, FramesFrom, Sized;
    FramesStep(data, p);
    if fs != [] {
      AtConcat(data, p, Layout(fs[0]), LayoutAll(fs[1..]));
      FrameReads(data, p, fs[0]);
      FramesRead(data, p + |Layout(fs[0])|, fs[1..]);
      assert fs == [fs[0]] + fs[1..];
    }
  }

  lemma {:induction false} FramesWrite(data: Bytes, p: nat, fs: seq<Frame>)
    requires p <= |data| && FramesFrom(data, p) == Ok(fs)
    ensures AllSized(fs) && At(data, p, LayoutAll(fs)) && p + |LayoutAll(fs)| == |data|
    decreases |data| - p
  {
    hide At, Layout, FrameAt, FramesFrom, Sized;
    FramesStep(data, p);
    if p < |data| {
      var f, end := FrameAt(data, p).value.frame, FrameAt(data, p).value.end;
      FrameWrites(data, p);
      assert fs[0] == f && fs[1..] == FramesFrom(data, end).value;
      FramesWrite(data, end, fs[1..]);
      AtConcat(data, p, Layout(f), LayoutAll(fs[1..]));
    } else {
      AtNothing(data, p);
    }
  }

  /** Data parses into some frames exactly when it is their layout behind the version byte. */
  lemma ParseIsLayout(data: Bytes, fs: seq<Frame>)
    requires data != [] && data[0] == 0
    ensures FramesFrom(data, 1) == Ok(fs) <==> AllSized(fs) && data == [0] + LayoutAll(fs)
  {
    hide FramesFrom, LayoutAll, AllSized;
    if FramesFrom(data, 1) == Ok(fs) {
      FramesWrite(data, 1, fs);
      AtIs(data, 1, LayoutAll(fs));
      assert data == [data[0]] + data[1..];
    }
    if AllSized(fs) && data == [0] + LayoutAll(fs) {
      AtSlice(data, 1, |data|);
      assert data[1..|data|] == LayoutAll(fs);
      FramesRead(data, 1, fs);
    }
  }

  // -------------------------------------------------------------- joining a channel

  function Joined(fs: seq<Frame>): Bytes {
    if fs == [] then [] else Joined(Init(fs)) + Last(fs).data
  }

  /** The channel's frames by number; a number that appears twice is refused. */
  function ByNumber(frames: seq<Frame>, id: Bytes): (r: Result<map<nat, Frame>>)
    ensures r.Ok? ==> forall n :: n in r.value ==>
      r.value[n] in frames && r.value[n].channelId == id && r.value[n].number == n
    ensures r.Ok? ==> forall f :: f in frames && f.channelId == id ==> f.number in r.value && r.value[f.number] == f
    ensures r.Err? ==> exists i, j ::
      0 <= i < j < |frames| && frames[i].channelId == frames[j].channelId == id && frames[i].number == frames[j].number
  {
    if frames == [] then Ok(map[]) else
      var f := Last(frames);
      assert frames == Init(frames) + [f];
      match ByNumber(Init(frames), id)
      case Err => Err
      case Ok(m) =>
        if f.channelId != id then Ok(m)
        else if f.number in m then
          assert m[f.number] in Init(frames);
          Err
        else Ok(m[f.number := f])
  }

  ghost function NumbersFrom(m: map<nat, Frame>, i: nat): set<nat> {
    set n | n in m.Keys && n >= i
  }

  lemma FewerNumbers(m: map<nat, Frame>, i: nat)
    requires i in m
    ensures NumbersFrom(m, i + 1) < NumbersFrom(m, i)
  {
    assert i in NumbersFrom(m, i) && i !in NumbersFrom(m, i + 1);
  }

  /** Frames `i`, `i + 1`, ... as far as they go without a gap. */
  function RunFrom(m: map<nat, Frame>, i: nat): (run: seq<Frame>)
    decreases NumbersFrom(m, i)
  {
    if i in m then
      FewerNumbers(m, i);
      [m[i]] + RunFrom(m, i + 1)
    else []
  }

  lemma {:induction false} RunIs(m: map<nat, Frame>, i: nat, k: nat)
    requires k < |RunFrom(m, i)|
    ensures i + k in m && RunFrom(m, i)[k] == m[i + k]
    decreases k
  {
    if k > 0 {
      RunIs(m, i + 1, k - 1);
    }
  }

  lemma {:induction false} RunEnds(m: map<nat, Frame>, i: nat)
    ensures i + |RunFrom(m, i)| !in m
    decreases NumbersFrom(m, i)
  {
    if i in m {
      FewerNumbers(m, i);
      RunEnds(m, i + 1);
    }
  }

  datatype Channel = Channel(ordered: seq<Frame>, complete: bool, joined: Bytes)

  predicate SomeLast(fs: seq<Frame>) {
    exists f :: f in fs && f.isLast
  }

  function CountLast(fs: seq<Frame>): nat {
    if fs == [] then 0 else CountLast(Init(fs)) + (if Last(fs).isLast then 1 else 0)
  }

  /** What the frames at hand make of channel `id`. */
  function Assembled(frames: seq<Frame>, id: Bytes): Result<Channel> {
    match ByNumber(frames, id)
    case Err => Err
    case Ok(m) =>
      if 0 !in m then Err else
        var ordered := RunFrom(m, 0);
        var complete := Last(ordered).isLast && |m| == |ordered|;
        if complete && CountLast(ordered) != 1 then Err
        else if !complete && SomeLast(ordered) then Err
        else Ok(Channel(ordered, complete, Joined(ordered)))
  }

  method Assemble(frames: seq<Frame>, id: Bytes) returns (r: Result<Channel>)
    ensures r == Assembled(frames, id)
  {
    hide RunFrom;
    var m: map<nat, Frame> := map[];
    for k := 0 to |frames|
      invariant ByNumber(frames[..k], id) == Ok(m)
    {
      assert Init(frames[..k + 1]) == frames[..k];
      var f := frames[k];
      if f.channelId == id {
        if f.number in m {
          DuplicateStays(frames, k + 1, id);
          return Err;
        }
        m := m[f.number := f];
      }
    }
    assert frames[..|frames|] == frames;
    if 0 !in m {
      return Err;
    }
    var ordered := Run(m);
    var complete := Last(ordered).isLast && |m| == |ordered|;
    var count := CountLast(ordered);
    if (complete && count != 1) || (!complete && SomeLast(ordered)) {
      return Err;
    }
    var joined := Join(ordered);
    r := Ok(Channel(ordered, complete, joined));
  }

  lemma {:induction false} DuplicateStays(frames: seq<Frame>, k: nat, id: Bytes)
    requires k <= |frames| && ByNumber(frames[..k], id) == Err
    ensures ByNumber(frames, id) == Err
    decreases |frames| - k
  {
    if k < |frames| {
      assert Init(frames[..k + 1]) == frames[..k];
      DuplicateStays(frames, k + 1, id);
    } else {
      assert frames[..k] == frames;
    }
  }

  /** The loop that takes frame 0, 1, ... while each is there. */
  method Run(m: map<nat, Frame>) returns (ordered: seq<Frame>)
    requires 0 in m
    ensures ordered == RunFrom(m, 0) && ordered != []
  {
    ordered := [];
    var i := 0;
    while i in m
      invariant |ordered| == i && ordered + RunFrom(m, i) == RunFrom(m, 0)
      decreases NumbersFrom(m, i)
    {
      FewerNumbers(m, i);
      ghost var rest := RunFrom(m, i + 1);
      assert ordered + ([m[i]] + rest) == (ordered + [m[i]]) + rest;
      ordered := ordered + [m[i]];
      i := i + 1;
    }
    assert ordered + [] == ordered;
  }

  function TotalSize(fs: seq<Frame>): (n: nat)
    ensures n == |Joined(fs)|
  {
    if fs == [] then 0 else TotalSize(Init(fs)) + |Last(fs).data|
  }

  /** The frames' data, one after the other in one buffer. */
  method Join(fs: seq<Frame>) returns (joined: Bytes)
    ensures joined == Joined(fs)
  {
    var buf := new byte[TotalSize(fs)](_ => 0);
    var o := 0;
    for k := 0 to |fs|
      invariant o == |Joined(fs[..k])| <= buf.Length
      invariant buf[..o] == Joined(fs[..k])
    {
      assert Init(fs[..k + 1]) == fs[..k];
      JoinedGrows(fs, k + 1);
      ghost var before := buf[..o];
      forall i | 0 <= i < |fs[k].data| {
        buf[o + i] := fs[k].data[i];
      }
      assert buf[..o + |fs[k].data|] == before + fs[k].data;
      o := o + |fs[k].data|;
    }
    assert fs[..|fs|] == fs;
    joined := buf[..];
  }

  lemma {:induction false} JoinedGrows(fs: seq<Frame>, k: nat)
    requires k <= |fs|
    ensures Joined(fs[..k]) <= Joined(fs)
    decreases |fs|
  {
    if k < |fs| {
      JoinedGrows(Init(fs), k);
      assert Init(fs)[..k] == fs[..k];
    } else {
      assert fs[..k] == fs;
    }
  }

  // -------------------------------------------------- exactly when a channel is joined

  ghost predicate Ours(frames: seq<Frame>, f: Frame, id: Bytes) {
    f in frames && f.channelId == id
  }

  /** No number of the channel's appears twice. */
  ghost predicate OncePerNumber(frames: seq<Frame>, id: Bytes) {
    forall i, j :: 0 <= i < j < |frames| && frames[i].channelId == frames[j].channelId == id ==>
      frames[i].number != frames[j].number
  }

  /** The channel's frames 0, 1, ... up to the first that is not there. */
  ghost predicate IsRun(frames: seq<Frame>, id: Bytes, run: seq<Frame>) {
    && run != [] && (forall k :: 0 <= k < |run| ==> Ours(frames, run[k], id) && run[k].number == k)
    && forall f :: Ours(frames, f, id) ==> f.number != |run|
  }

  /** A frame marked last is the run's last, and none of the channel's frames is left out. */
  ghost predicate EndsRight(frames: seq<Frame>, id: Bytes, run: seq<Frame>) {
    SomeLast(run) ==>
      && (forall k :: 0 <= k < |run| && run[k].isLast ==> k == |run| - 1)
      && (forall f :: Ours(frames, f, id) ==> f in run)
  }

  lemma {:induction false} CountsLast(fs: seq<Frame>)
    ensures CountLast(fs) >= 1 <==> SomeLast(fs)
    ensures fs != [] && Last(fs).isLast ==>
      (CountLast(fs) == 1 <==> forall k :: 0 <= k < |fs| && fs[k].isLast ==> k == |fs| - 1)
  {
    if fs != [] {
      CountsLast(Init(fs));
      assert fs == Init(fs) + [Last(fs)];
      if SomeLast(Init(fs)) {
        var f :| f in Init(fs) && f.isLast;
        var k :| 0 <= k < |fs| - 1 && fs[k] == f;
      }
      if SomeLast(fs) && !Last(fs).isLast {
        var f :| f in fs && f.isLast;
        assert f in Init(fs);
      }
    }
  }

  /** The channel's frames, each under its number. */
  ghost predicate Numbers(frames: seq<Frame>, id: Bytes, m: map<nat, Frame>) {
    && (forall f :: Ours(frames, f, id) <==> (f.number in m && m[f.number] == f))
    && forall n :: n in m ==> m[n].number == n
  }

  lemma NumbersAre(frames: seq<Frame>, id: Bytes)
    ensures ByNumber(frames, id).Ok? <==> OncePerNumber(frames, id)
    ensures ByNumber(frames, id).Ok? ==> Numbers(frames, id, ByNumber(frames, id).value)
  {
    hide ByNumber;
    if ByNumber(frames, id).Ok? {
      assert forall f :: Ours(frames, f, id) ==> ByNumber(frames, id).value[f.number] == f;
      OneEach(frames, id);
    }
  }

  lemma {:induction false} OneEach(frames: seq<Frame>, id: Bytes)
    requires ByNumber(frames, id).Ok?
    ensures OncePerNumber(frames, id)
  {
    if frames != [] {
      var rest, f := Init(frames), Last(frames);
      assert frames == rest + [f];
      OneEach(rest, id);
      forall i | 0 <= i < |rest| && rest[i].channelId == id && f.channelId == id ensures rest[i].number != f.number {
        assert rest[i] in rest;
      }
    }
  }

  lemma RunAt(m: map<nat, Frame>, run: seq<Frame>)
    requires (forall k: nat :: k < |run| ==> k in m && m[k] == run[k]) && |run| !in m
    ensures RunFrom(m, 0) == run
  {
    hide RunFrom;
    var got := RunFrom(m, 0);
    RunEnds(m, 0);
    forall k | 0 <= k < |got| ensures k in m && got[k] == m[k] {
      RunIs(m, 0, k);
    }
    assert |got| <= |run|;
    assert |run| <= |got|;
  }

  lemma {:induction false} KeysFrom(keys: set<nat>, n: nat)
    requires forall k: nat :: k < n ==> k in keys
    ensures |keys| >= n && (|keys| == n <==> forall k :: k in keys ==> k < n)
    decreases n
  {
    if n == 0 {
      if keys != {} {
        var k :| k in keys;
      }
    } else {
      var rest := keys - {n - 1};
      KeysFrom(rest, n - 1);
      assert keys == rest + {n - 1};
      if |keys| == n {
        forall k | k in keys ensures k < n {
          assert k == n - 1 || k in rest;
        }
      }
    }
  }

  /**
   * Frames are joined exactly when no number is there twice, frame 0 is there, and a frame marked last ends the run
   * with none of the channel's left out; then into the run, complete when its last frame is so marked.
   */
  lemma AssembledIs(frames: seq<Frame>, id: Bytes, c: Channel)
    ensures Assembled(frames, id) == Ok(c) <==>
      && OncePerNumber(frames, id) && IsRun(frames, id, c.ordered) && EndsRight(frames, id, c.ordered)
      && c.joined == Joined(c.ordered) && (c.complete <==> Last(c.ordered).isLast)
  {
    hide ByNumber, RunFrom, CountLast, SomeLast, Joined, EndsRight, OncePerNumber, Numbers, IsRun;
    NumbersAre(frames, id);
    if ByNumber(frames, id).Ok? {
      var m := ByNumber(frames, id).value;
      if IsRun(frames, id, c.ordered) {
        RunHere(frames, id, m, c.ordered);
        RunAt(m, c.ordered);
      }
      if 0 in m {
        RunStands(frames, id, m);
        EndsRightWhen(frames, id, m, RunFrom(m, 0));
      }
    }
  }

  lemma RunHere(frames: seq<Frame>, id: Bytes, m: map<nat, Frame>, run: seq<Frame>)
    requires Numbers(frames, id, m) && IsRun(frames, id, run)
    ensures (forall k: nat :: k < |run| ==> k in m && m[k] == run[k]) && |run| !in m && run != [] && 0 in m
  {
    hide Ours;
    forall k: nat | k < |run| ensures k in m && m[k] == run[k] {
      assert Ours(frames, run[k], id);
    }
    forall n | n in m ensures n != |run| {
      assert Ours(frames, m[n], id);
    }
  }

  lemma RunStands(frames: seq<Frame>, id: Bytes, m: map<nat, Frame>)
    requires Numbers(frames, id, m) && 0 in m
    ensures IsRun(frames, id, RunFrom(m, 0))
  {
    hide RunFrom, Ours;
    var run := RunFrom(m, 0);
    RunEnds(m, 0);
    forall k | 0 <= k < |run| ensures Ours(frames, run[k], id) && run[k].number == k {
      RunIs(m, 0, k);
    }
  }

  lemma EndsRightWhen(frames: seq<Frame>, id: Bytes, m: map<nat, Frame>, run: seq<Frame>)
    requires Numbers(frames, id, m) && IsRun(frames, id, run)
    ensures var complete := Last(run).isLast && |m| == |run|;
      && (EndsRight(frames, id, run) <==> if complete then CountLast(run) == 1 else !SomeLast(run))
      && (EndsRight(frames, id, run) ==> (complete <==> Last(run).isLast))
  {
    hide CountLast;
    RunHere(frames, id, m, run);
    KeysFrom(m.Keys, |run|);
    CountsLast(run);
    assert |m| == |m.Keys|;
    assert Last(run) in run;
    if |m| == |run| {
      forall f | Ours(frames, f, id) ensures f in run {
        assert run[f.number] == f;
      }
    } else {
      var n :| n in m.Keys && n >= |run|;
      assert Ours(frames, m[n], id);
      forall k | 0 <= k < |run| ensures run[k] != m[n] {
        assert run[k].number == k;
      }
    }
    if SomeLast(run) && EndsRight(frames, id, run) {
      var f :| f in run && f.isLast;
      var k :| 0 <= k < |run| && run[k] == f;
    }
  }

  // ------------------------------------------- any frames of a well-formed channel

  /** A whole channel: numbered from 0, the last frame and no other marked last. */
  ghost predicate WellFormed(cs: seq<Frame>, id: Bytes) {
    && cs != []
    && forall k :: 0 <= k < |cs| ==> cs[k].channelId == id && cs[k].number == k && (cs[k].isLast <==> k == |cs| - 1)
  }

  /** Frames of the channel, each at most once, in any order, among any frames of other channels; frame 0 is there. */
  ghost predicate SomeOf(got: seq<Frame>, cs: seq<Frame>, id: Bytes) {
    && cs != [] && cs[0] in got
    && (forall f :: f in got && f.channelId == id ==> f in cs)
    && (forall i, j :: 0 <= i < j < |got| && got[i].channelId == got[j].channelId == id ==> got[i] != got[j])
  }

  lemma NumbersOfSome(got: seq<Frame>, cs: seq<Frame>, id: Bytes)
    requires WellFormed(cs, id) && SomeOf(got, cs, id)
    ensures ByNumber(got, id).Ok? && NumbersOf(ByNumber(got, id).value, cs)
    ensures forall k :: 0 <= k < |cs| ==> (k in ByNumber(got, id).value <==> cs[k] in got)
  {
    hide ByNumber;
    forall i, j | 0 <= i < j < |got| && got[i].channelId == got[j].channelId == id
      ensures got[i].number != got[j].number
    {
      assert got[i] in cs && got[j] in cs;
      assert got[i] == cs[got[i].number] && got[j] == cs[got[j].number];
    }
    var m := ByNumber(got, id).value;
    forall n | n in m ensures n < |cs| && m[n] == cs[n] {
      assert m[n] in cs;
    }
  }

  /** The frames of `m` are the channel's, each under its number. */
  ghost predicate NumbersOf(m: map<nat, Frame>, cs: seq<Frame>) {
    forall n :: n in m ==> n < |cs| && m[n] == cs[n]
  }

  lemma RunIsPrefix(m: map<nat, Frame>, cs: seq<Frame>)
    requires NumbersOf(m, cs) && 0 in m
    ensures var run := RunFrom(m, 0); 1 <= |run| <= |cs| && run == cs[..|run|] && |run| !in m
  {
    var run := RunFrom(m, 0);
    forall k | 0 <= k < |run| ensures k in m && run[k] == m[k] {
      RunIs(m, 0, k);
    }
    RunEnds(m, 0);
    assert |run| <= |cs| by {
      assert |run| - 1 in m;
    }
  }

  /** All of the channel is there exactly when the run is as long as the channel. */
  lemma RunIsAll(m: map<nat, Frame>, cs: seq<Frame>)
    requires NumbersOf(m, cs) && 0 in m
    ensures |RunFrom(m, 0)| == |cs| <==> forall k :: 0 <= k < |cs| ==> k in m
    ensures |RunFrom(m, 0)| == |cs| ==> |m| == |cs|
  {
    hide RunFrom;
    RunIsPrefix(m, cs);
    var run := RunFrom(m, 0);
    KeysBelow(m.Keys, |cs|);
    if |run| == |cs| {
      forall k | 0 <= k < |cs| ensures k in m {
        RunIs(m, 0, k);
      }
      assert |m| == |m.Keys|;
    }
  }

  lemma {:induction false} LastOfPrefix(cs: seq<Frame>, id: Bytes, k: nat)
    requires WellFormed(cs, id) && k <= |cs|
    ensures CountLast(cs[..k]) == (if k == |cs| then 1 else 0)
    ensures SomeLast(cs[..k]) <==> k == |cs|
    ensures k > 0 ==> (cs[..k][k - 1].isLast <==> k == |cs|)
    decreases k
  {
    if k > 0 {
      LastOfPrefix(cs, id, k - 1);
      assert Init(cs[..k]) == cs[..k - 1];
      if k == |cs| {
        assert cs[k - 1] in cs[..k];
      }
    }
  }

  lemma KeysBelow(keys: set<nat>, n: nat)
    requires forall k :: k in keys ==> k < n
    ensures |keys| <= n && (|keys| == n <==> forall k :: 0 <= k < n ==> k in keys)
    decreases n
  {
    if n > 0 {
      var rest := keys - {n - 1};
      KeysBelow(rest, n - 1);
      if n - 1 in keys {
        assert keys == rest + {n - 1};
      } else {
        assert keys == rest;
      }
    }
  }

  /**
   * From whichever frames of a well-formed channel, in whatever order, the joined bytes are a prefix of the channel:
   * its frames up to the first one missing. It is called complete exactly when no frame is missing.
   */
  lemma AnyFramesJoin(got: seq<Frame>, cs: seq<Frame>, id: Bytes)
    requires WellFormed(cs, id) && SomeOf(got, cs, id)
    ensures Assembled(got, id).Ok?
    ensures var c := Assembled(got, id).value;
            && c.ordered <= cs && c.joined == Joined(c.ordered) <= Joined(cs)
            && (c.complete <==> forall k :: 0 <= k < |cs| ==> cs[k] in got)
            && (|c.ordered| < |cs| ==> cs[|c.ordered|] !in got)
  {
    hide ByNumber, RunFrom, CountLast, SomeLast, Joined, SomeOf, NumbersOf, WellFormed;
    NumbersOfSome(got, cs, id);
    var m := ByNumber(got, id).value;
    assert 0 in m by { FrameZero(got, cs, id); }
    RunIsPrefix(m, cs);
    RunIsAll(m, cs);
    var ordered := RunFrom(m, 0);
    LastOfPrefix(cs, id, |ordered|);
    JoinedGrows(cs, |ordered|);
    assert Last(ordered) == cs[..|ordered|][|ordered| - 1];
  }

  lemma FrameZero(got: seq<Frame>, cs: seq<Frame>, id: Bytes)
    requires SomeOf(got, cs, id)
    ensures cs != [] && cs[0] in got
  {
  }
}
