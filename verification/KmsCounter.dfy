/**
 * The sealed counter of packages/adapter-nitro/src/kms-counter.ts as a step system: each await is where a call
 * waits for its reply, what a request does and the coming of its reply are apart wherever something can come between,
 * and calls, replies, losses and restarts interleave in any order.
 */
module KmsCounter {
  import opened Bytes
  import opened Numerals
  import opened Sorting

  // --------------------------------------------------------------- the sealed plaintext

  const WIDTH: nat := 32

  /** The counter in decimal, in 32 bytes padded with spaces, cut to them. */
  function Encode(value: nat): Bytes {
    var text := Digits(value, 10);
    if |text| <= WIDTH then text + seq(WIDTH - |text|, _ => 32) else text[..WIDTH]
  }

  /** The numeral between white space; none is zero, as for BigInt. */
  function Decode(plain: Bytes): Option<nat> {
    var text := Trim(TrimRight(plain));
    if text == [] then Some(0) else ParseCount(text)
  }

  lemma {:induction false} SpacesTrimmed(text: Bytes, n: nat)
    requires IsNumeral(text)
    ensures TrimRight(text + seq(n, _ => 32)) == text
  {
    if n == 0 {
      assert text + seq(0, _ => 32 as byte) == text;
    } else {
      SpacesTrimmed(text, n - 1);
      assert text + seq(n, _ => 32 as byte) == (text + seq(n - 1, _ => 32 as byte)) + [32];
      Snoc(text + seq(n - 1, _ => 32 as byte), 32);
    }
  }

  lemma NumeralTrimmed(text: Bytes)
    requires IsNumeral(text)
    ensures Trim(text) == text && TrimRight(text) == text
  {
  }

  lemma {:induction false} DigitsBound(d: Bytes)
    requires forall i :: 0 <= i < |d| ==> 48 <= d[i] < 58
    ensures DigitsValue(d, 10) < Pow(10, |d|)
  {
    if d != [] {
      DigitsBound(Init(d));
    }
  }

  lemma {:induction false} DigitsAtLeast(n: nat, k: nat)
    requires n >= Pow(10, k)
    ensures |Digits(n, 10)| > k
  {
    if k > 0 {
      PowPositive(k - 1);
      DivAtLeast(n, Pow(10, k - 1));
      DigitsAtLeast(n / 10, k - 1);
    }
  }

  lemma {:induction false} PowPositive(k: nat)
    ensures Pow(10, k) >= 1
  {
    if k > 0 {
      PowPositive(k - 1);
    }
  }

  lemma DivAtLeast(n: nat, p: nat)
    requires n >= 10 * p && p >= 1
    ensures n / 10 >= p && n >= 10
  {
  }

  /**
   * A sealed counter opens as itself exactly while it has at most 32 digits; a longer one opens as something smaller.
   */
  lemma SealedOpens(value: nat)
    ensures Decode(Encode(value)) == Some(value) <==> value < Pow(10, WIDTH)
  {
    hide Pow, Encode, Decode;
    if value < Pow(10, WIDTH) {
      ShortOpens(value);
    } else {
      LongOpens(value);
    }
  }

  lemma ShortOpens(value: nat)
    requires value < Pow(10, WIDTH)
    ensures Decode(Encode(value)) == Some(value)
  {
    hide Digits, DigitsValue, Pow, Trim, TrimRight;
    var text := Digits(value, 10);
    ValueOfDigits(value, 10);
    DigitsLength(value, 10, WIDTH);
    SpacesTrimmed(text, WIDTH - |text|);
    NumeralTrimmed(text);
  }

  lemma LongOpens(value: nat)
    requires value >= Pow(10, WIDTH)
    ensures Decode(Encode(value)).Some? && Decode(Encode(value)).value < Pow(10, WIDTH)
  {
    hide Digits, DigitsValue, Pow, Trim, TrimRight;
    var text := Digits(value, 10);
    ValueOfDigits(value, 10);
    DigitsAtLeast(value, WIDTH);
    NumeralTrimmed(text[..WIDTH]);
    DigitsBound(text[..WIDTH]);
  }

  // -------------------------------------------------------------------------- the steps

  datatype Config = Config(initial: nat, anchored: bool)

  /**
   * What a call is waiting for. Of `next`: the KMS, the anchor, the disk, and then, its blob written, the reply. Of
   * `restore`: the disk, the KMS, with what the blob it was given opens as, the anchor, and then the reply. And two
   * requests that nobody waits for any more: one to the anchor, and one to the disk.
   */
  datatype Phase =
    | Encrypting | Anchoring | Persisting | Persisted
    | Reading | Decrypting(opens: Option<nat>) | ReAnchoring | ReAnchored
    | StrayTake | StrayWrite

  datatype Call = Call(inst: nat, phase: Phase, candidate: nat)

  /** A running counter object; `settled` says that a restore of it has come to its end. */
  datatype Counter = Counter(value: nat, restored: bool, settled: bool)

  /**
   * Everything: the objects, their waiting calls, the anchor's last value, the sealed blobs ever made, the latest on
   * disk, and the values returned.
   */
  datatype World = World(counters: map<nat, Counter>, calls: map<nat, Call>, anchor: int, sealed: set<Bytes>,
      stored: Option<Bytes>, returned: seq<nat>)

  /** The request goes through; the caller gives it up while it is under way; or it fails without effect. */
  datatype Outcome = Done | Lost | Failed

  datatype Event =
    | Start(inst: nat)
    | CallNext(inst: nat, id: nat)
    | CallRestore(inst: nat, id: nat)
    | Reply(id: nat, outcome: Outcome, blob: Option<Bytes>)

  function End(w: World, id: nat): World {
    w.(calls := w.calls - {id})
  }

  function Wait(w: World, id: nat, call: Call): World {
    w.(calls := w.calls[id := call])
  }

  function SetValue(w: World, inst: nat, value: nat): World {
    if inst in w.counters then w.(counters := w.counters[inst := w.counters[inst].(value := value)]) else w
  }

  function Settle(w: World, inst: nat): World {
    if inst in w.counters then w.(counters := w.counters[inst := w.counters[inst].(settled := true)]) else w
  }

  /** The call holds a value that it will give out. */
  predicate Held(p: Phase) {
    p == Persisting || p == Persisted
  }

  /** Nobody waits for it. */
  predicate IsStray(p: Phase) {
    p == StrayTake || p == StrayWrite
  }

  /** A request that may still take effect once its caller is gone. */
  predicate Outlives(p: Phase) {
    p == Anchoring || p == ReAnchoring || p == Persisting || IsStray(p)
  }

  function Stray(c: Call): Call {
    c.(phase := if c.phase == Persisting || c.phase == StrayWrite then StrayWrite else StrayTake)
  }

  /** No call is waiting, in any object. */
  ghost predicate Idle(w: World) {
    forall id :: id in w.calls ==> IsStray(w.calls[id].phase)
  }

  /** The anchor takes a candidate only above the last it took. */
  function Take(w: World, candidate: nat): World {
    if candidate > w.anchor then w.(anchor := candidate) else w
  }

  /** What a blob opens as; none for one the KMS did not seal, or that holds no numeral. */
  function Opens(w: World, blob: Bytes): Option<nat> {
    if blob in w.sealed then Decode(blob) else None
  }

  /** A restore whose value is settled: the object has it. */
  function Restored(w: World, id: nat, value: nat): World
    requires id in w.calls
  {
    Settle(SetValue(End(w, id), w.calls[id].inst, value), w.calls[id].inst)
  }

  function NextAnswered(cfg: Config, w: World, id: nat, o: Outcome): World
    requires id in w.calls
  {
    var c := w.calls[id];
    if c.phase == Encrypting then
      var w' := if o == Failed then w else w.(sealed := w.sealed + {Encode(c.candidate)});
      if o != Done then End(w', id) else Wait(w', id, c.(phase := if cfg.anchored then Anchoring else Persisting))
    else if c.phase == Anchoring then
      if o == Lost then Wait(w, id, Stray(c))
      else if o == Failed || c.candidate <= w.anchor then End(w, id)
      else Wait(Take(w, c.candidate), id, c.(phase := Persisting))
    else if c.phase == Persisting then
      if o == Lost then Wait(w, id, Stray(c))
      else if o == Failed then End(w, id)
      else Wait(w.(stored := Some(Encode(c.candidate))), id, c.(phase := Persisted))
    else
      if o != Done then End(w, id)
      else SetValue(End(w, id), c.inst, c.candidate).(returned := w.returned + [c.candidate])
  }

  function RestoreAnswered(cfg: Config, w: World, id: nat, o: Outcome, blob: Option<Bytes>): World
    requires id in w.calls
  {
    var c := w.calls[id];
    if c.phase == Reading then
      if o != Done then End(w, id)
      else if blob.None? then Settle(End(w, id), c.inst)
      else Wait(w, id, c.(phase := Decrypting(Opens(w, blob.value))))
    else if c.phase.Decrypting? then
      if o != Done || c.phase.opens.None? then End(w, id)
      else if cfg.anchored then Wait(w, id, Call(c.inst, ReAnchoring, c.phase.opens.value + 1))
      else Restored(w, id, c.phase.opens.value + 1)
    else if c.phase == ReAnchoring then
      if o == Lost then Wait(w, id, Stray(c))
      else if o == Failed || c.candidate <= w.anchor then End(w, id)
      else Wait(Take(w, c.candidate), id, c.(phase := ReAnchored))
    else
      if o != Done then End(w, id) else Restored(w, id, c.candidate)
  }

  function Answered(cfg: Config, w: World, id: nat, o: Outcome, blob: Option<Bytes>): World
    requires id in w.calls
  {
    match w.calls[id].phase
    case Encrypting | Anchoring | Persisting | Persisted => NextAnswered(cfg, w, id, o)
    case StrayTake => End(if o == Failed then w else Take(w, w.calls[id].candidate), id)
    case StrayWrite => End(if o == Failed then w else w.(stored := Some(Encode(w.calls[id].candidate))), id)
    case _ => RestoreAnswered(cfg, w, id, o, blob)
  }

  /**
   * One event. A restart forgets the object and its waiting calls, but not the requests that are under way; an event
   * nobody waits for changes nothing.
   */
  function Step(cfg: Config, w: World, e: Event): World {
    match e
    case Start(inst) =>
      w.(counters := w.counters[inst := Counter(cfg.initial, false, false)],
         calls := map id | id in w.calls && (w.calls[id].inst != inst || Outlives(w.calls[id].phase)) ::
           if w.calls[id].inst != inst then w.calls[id] else Stray(w.calls[id]))
    case CallNext(inst, id) =>
      if inst !in w.counters || id in w.calls then w
      else Wait(w, id, Call(inst, Encrypting, w.counters[inst].value + 1))
    case CallRestore(inst, id) =>
      if inst !in w.counters || id in w.calls then w
      else Wait(w.(counters := w.counters[inst := w.counters[inst].(restored := true)]), id, Call(inst, Reading, 0))
    case Reply(id, o, blob) =>
      if id in w.calls then Answered(cfg, w, id, o, blob) else w
  }

  function Run(cfg: Config, w: World, events: seq<Event>): World
    decreases |events|
  {
    if events == [] then w else Run(cfg, Step(cfg, w, events[0]), events[1..])
  }

  function Boot(anchor: int): World {
    World(map[], map[], anchor, {}, None, [])
  }

  lemma {:induction false} RunAppend(cfg: Config, w: World, a: seq<Event>, b: seq<Event>)
    ensures Run(cfg, w, a + b) == Run(cfg, Run(cfg, w, a), b)
    decreases |a|
  {
    hide Step;
    if a == [] {
      assert a + b == b;
    } else {
      RunAppend(cfg, Step(cfg, w, a[0]), a[1..], b);
      assert (a + b)[1..] == a[1..] + b;
    }
  }

  lemma RunOn(cfg: Config, w: World, events: seq<Event>, k: nat, w': World)
    requires k < |events| && w' == Step(cfg, w, events[k])
    ensures Run(cfg, w, events[k..]) == Run(cfg, w', events[k + 1..])
    ensures k + 1 == |events| ==> Run(cfg, w, events[k..]) == w'
  {
    assert events[k..][1..] == events[k + 1..];
  }

  lemma OthersSame(w: World, w': World, id: nat)
    requires w'.calls - {id} == w.calls - {id}
    ensures forall a :: a != id && a in w'.calls ==> a in w.calls && w'.calls[a] == w.calls[a]
  {
    forall a | a in w'.calls && a != id ensures a in w.calls && w'.calls[a] == w.calls[a] {
      assert a in w'.calls - {id};
    }
  }

  /** A restore gives nothing out and writes nothing: only the anchor and its own object may change. */
  lemma RestoreKeeps(cfg: Config, w: World, id: nat, o: Outcome, blob: Option<Bytes>)
    requires id in w.calls
    ensures var w' := RestoreAnswered(cfg, w, id, o, blob);
      && w'.calls - {id} == w.calls - {id} && (forall i :: i in w.counters ==> i in w'.counters)
      && w'.returned == w.returned && w'.stored == w.stored && w'.sealed == w.sealed && w'.anchor >= w.anchor
      && (id in w'.calls ==>
            && w'.calls[id].inst == w.calls[id].inst
            && var p := w'.calls[id].phase; p.Decrypting? || p == ReAnchoring || p == ReAnchored || p == StrayTake)
  {
    hide Opens;
  }

  ghost predicate Rising(s: seq<nat>) {
    forall i, j :: 0 <= i < j < |s| ==> s[i] < s[j]
  }

  lemma RisingSnoc(s: seq<nat>, x: nat)
    requires Rising(s) && forall r :: r in s ==> r < x
    ensures Rising(s + [x])
  {
    assert forall i :: 0 <= i < |s| ==> s[i] in s;
  }

  // -------------------------------------------------------- with an anchor: never a value twice

  /** What the anchor has let through is below it, and each of it is one value once. */
  ghost predicate Spent(w: World) {
    && Distinct(w.returned) && (forall v :: v in w.returned ==> v <= w.anchor)
    && (forall id :: id in w.calls && Held(w.calls[id].phase) ==>
         w.calls[id].candidate <= w.anchor && w.calls[id].candidate !in w.returned)
    && (forall a, b :: a in w.calls && b in w.calls && a != b && Held(w.calls[a].phase) && Held(w.calls[b].phase) ==>
          w.calls[a].candidate != w.calls[b].candidate)
  }

  lemma SpentStep(cfg: Config, w: World, e: Event)
    requires cfg.anchored && Spent(w)
    ensures Spent(Step(cfg, w, e))
  {
    hide Encode, Answered;
    if e.Reply? && e.id in w.calls {
      SpentReply(cfg, w, e.id, e.outcome, e.blob);
    }
  }

  lemma SpentReply(cfg: Config, w: World, id: nat, o: Outcome, blob: Option<Bytes>)
    requires cfg.anchored && Spent(w) && id in w.calls
    ensures Spent(Answered(cfg, w, id, o, blob))
  {
    hide Encode, Decode, Spent, RestoreAnswered;
    var w' := Answered(cfg, w, id, o, blob);
    RestoreKeeps(cfg, w, id, o, blob);
    if w.calls[id].phase == Persisted && o == Done {
      SpentReturn(w, w', id);
    } else {
      SpentKeeps(w, w', id);
    }
  }

  /** One call moves on; if it now holds a value, it held it before or the anchor has just taken it. */
  lemma SpentKeeps(w: World, w': World, id: nat)
    requires Spent(w) && w'.returned == w.returned && w'.anchor >= w.anchor && w'.calls - {id} == w.calls - {id}
    requires id in w'.calls && Held(w'.calls[id].phase) ==>
      || w.anchor < w'.calls[id].candidate <= w'.anchor
      || (id in w.calls && Held(w.calls[id].phase) && w'.calls[id].candidate == w.calls[id].candidate)
    ensures Spent(w')
  {
    OthersSame(w, w', id);
  }

  /** A call that held a value gives it out and is gone. */
  lemma SpentReturn(w: World, w': World, id: nat)
    requires Spent(w) && id in w.calls && Held(w.calls[id].phase)
    requires w'.returned == w.returned + [w.calls[id].candidate] && w'.anchor == w.anchor && w'.calls == w.calls - {id}
    ensures Spent(w')
  {
    forall a | a in w'.calls ensures a != id && w'.calls[a] == w.calls[a] {
    }
  }

  /**
   * Whatever calls run side by side in however many objects, whatever is lost, restarted or rolled back, no value is
   * returned twice.
   */
  lemma {:induction false} NeverTwice(cfg: Config, w: World, events: seq<Event>)
    requires cfg.anchored && Spent(w)
    ensures Distinct(Run(cfg, w, events).returned)
    decreases |events|
  {
    hide Step;
    if events != [] {
      SpentStep(cfg, w, events[0]);
      NeverTwice(cfg, Step(cfg, w, events[0]), events[1..]);
    }
  }

  lemma BootSpent(anchor: int)
    ensures Spent(Boot(anchor))
  {
  }

  lemma AnchoredRuns(cfg: Config, anchor: int, events: seq<Event>)
    requires cfg.anchored
    ensures Distinct(Run(cfg, Boot(anchor), events).returned)
  {
    BootSpent(anchor);
    NeverTwice(cfg, Boot(anchor), events);
  }

  // ------------------------------------------------------------- without an anchor: in order

  /**
   * One object, one call at a time, the latest blob restored before any `next` after a restart, and no write that its
   * caller gave up landing once a later value's is on disk.
   */
  ghost predicate InTurn(w: World, e: Event) {
    match e
    case Start(inst) => inst == 0
    case CallNext(inst, id) => inst == 0 && 0 in w.counters && Idle(w) && w.counters[0].settled
    case CallRestore(inst, id) => inst == 0 && 0 in w.counters && Idle(w)
    case Reply(id, o, blob) =>
      && (id in w.calls && w.calls[id].phase == Reading ==> blob == w.stored)
      && (id in w.calls && w.calls[id].phase == StrayWrite && o != Failed ==> NotBack(w, w.calls[id].candidate))
  }

  predicate NotBack(w: World, candidate: nat) {
    w.stored.Some? && Decode(w.stored.value).Some? ==> Decode(w.stored.value).value <= candidate
  }

  ghost predicate TurnRun(cfg: Config, w: World, events: seq<Event>)
    decreases |events|
  {
    events != [] ==> InTurn(w, events[0]) && TurnRun(cfg, Step(cfg, w, events[0]), events[1..])
  }

  /**
   * Every value returned is at most the stored one, and below what a settled object or a waiting call will give; `top`
   * bounds all of them.
   */
  ghost predicate Ordered(w: World, top: nat) {
    OrderedDisk(w, top) && OrderedObject(w, top) && OneWaits(w) && OrderedCalls(w, top)
  }

  ghost predicate OrderedDisk(w: World, top: nat) {
    && Rising(w.returned) && (w.returned != [] ==> w.stored.Some?)
    && (w.stored.Some? ==> w.stored.value in w.sealed && exists v: nat :: v <= top && Holds(w, v))
  }

  /** The latest blob is of `v`, and nothing above it was returned or is about to be. */
  ghost predicate Holds(w: World, v: nat) {
    && w.stored == Some(Encode(v)) && (forall r :: r in w.returned ==> r <= v)
    && (forall id :: id in w.calls && w.calls[id].phase == Persisted ==> w.calls[id].candidate <= v)
  }

  ghost predicate OrderedObject(w: World, top: nat) {
    && w.counters.Keys <= {0} && (0 in w.counters ==> w.counters[0].value <= top)
    && (0 in w.counters && w.counters[0].settled ==> forall r :: r in w.returned ==> r <= w.counters[0].value)
  }

  ghost predicate OneWaits(w: World) {
    forall a, b :: a in w.calls && b in w.calls && !IsStray(w.calls[a].phase) && !IsStray(w.calls[b].phase) ==> a == b
  }

  ghost predicate OrderedCalls(w: World, top: nat) {
    forall id :: id in w.calls ==> OrderedCall(w, w.calls[id], top)
  }

  ghost predicate OrderedCall(w: World, c: Call, top: nat) {
    && c.inst == 0 && c.phase != Anchoring && c.phase != ReAnchoring && c.phase != ReAnchored
    && (c.phase == Encrypting || Held(c.phase) ==>
         0 in w.counters && w.counters[0].settled && c.candidate == w.counters[0].value + 1 && c.candidate <= top)
    && (Held(c.phase) ==> Encode(c.candidate) in w.sealed)
    && (c.phase == Persisted ==> w.stored.Some?)
    && (c.phase == StrayWrite ==> c.candidate <= top && Encode(c.candidate) in w.sealed)
    && (c.phase.Decrypting? && c.phase.opens.Some? ==>
         c.phase.opens.value <= top && forall r :: r in w.returned ==> r <= c.phase.opens.value)
  }

  /** No write lands and nothing is returned: no call comes to be about to return. */
  lemma DiskStays(w: World, w': World, top: nat)
    requires OrderedDisk(w, top) && w'.stored == w.stored && w'.returned == w.returned && w.sealed <= w'.sealed
    requires forall a :: a in w'.calls && w'.calls[a].phase == Persisted ==> a in w.calls && w'.calls[a] == w.calls[a]
    ensures OrderedDisk(w', top + 1)
  {
    hide Encode, Rising;
    if w.stored.Some? {
      var v: nat :| v <= top && Holds(w, v);
      assert v <= top + 1 && Holds(w', v);
    }
  }

  /** The other calls stay as they are, and this one moves on, or ends. */
  lemma CallsStay(w: World, w': World, id: nat, top: nat)
    requires OneWaits(w) && OrderedCalls(w, top) && id in w.calls && w'.calls - {id} == w.calls - {id}
    requires w.sealed <= w'.sealed && (w.stored.Some? ==> w'.stored.Some?)
    requires IsStray(w.calls[id].phase) ==> w'.counters == w.counters && w'.returned == w.returned
    requires id in w'.calls ==>
      OrderedCall(w', w'.calls[id], top + 1) && (IsStray(w.calls[id].phase) ==> IsStray(w'.calls[id].phase))
    ensures OneWaits(w') && OrderedCalls(w', top + 1)
  {
    hide Encode;
    OthersSame(w, w', id);
    forall a | a in w'.calls && a != id ensures OrderedCall(w', w'.calls[a], top + 1) {
      assert OrderedCall(w, w.calls[a], top);
    }
  }

  /** One call moves on, or ends, and nothing else changes. */
  lemma OrderedMoves(w: World, w': World, id: nat, top: nat)
    requires Ordered(w, top) && id in w.calls && w'.calls - {id} == w.calls - {id} && w.sealed <= w'.sealed
    requires w'.counters == w.counters && w'.stored == w.stored && w'.returned == w.returned
    requires id in w'.calls ==>
      && OrderedCall(w', w'.calls[id], top + 1) && w'.calls[id].phase != Persisted
      && (IsStray(w.calls[id].phase) ==> IsStray(w'.calls[id].phase))
    ensures Ordered(w', top + 1)
  {
    hide OrderedDisk, OrderedCall;
    CallsStay(w, w', id, top);
    OthersSame(w, w', id);
    DiskStays(w, w', top);
  }

  /** A write lands, of a value that nothing returned or about to be returned is above. */
  lemma OrderedWrites(w: World, w': World, id: nat, top: nat)
    requires Ordered(w, top) && id in w.calls && w'.calls - {id} == w.calls - {id} && w'.sealed == w.sealed
    requires w'.counters == w.counters && w'.returned == w.returned
    requires w'.stored == Some(Encode(w.calls[id].candidate)) && w.calls[id].candidate <= top
    requires Encode(w.calls[id].candidate) in w.sealed && forall r :: r in w.returned ==> r <= w.calls[id].candidate
    requires forall a :: a != id && a in w.calls && w.calls[a].phase == Persisted ==>
      w.calls[a].candidate <= w.calls[id].candidate
    requires id in w'.calls ==> w.calls[id].phase == Persisting && w'.calls[id] == w.calls[id].(phase := Persisted)
    ensures Ordered(w', top + 1)
  {
    hide Encode, Rising;
    assert OrderedCall(w, w.calls[id], top);
    CallsStay(w, w', id, top);
    hide OrderedCall;
    OthersSame(w, w', id);
    assert Holds(w', w.calls[id].candidate);
  }

  lemma OrderedReturns(w: World, w': World, id: nat, top: nat)
    requires Ordered(w, top) && id in w.calls && w.calls[id].phase == Persisted
    requires w'.calls == w.calls - {id} && w'.stored == w.stored && w'.sealed == w.sealed
    requires w'.returned == w.returned + [w.calls[id].candidate]
    requires 0 in w.counters ==> w'.counters == w.counters[0 := w.counters[0].(value := w.calls[id].candidate)]
    ensures Ordered(w', top + 1)
  {
    hide Encode, Rising;
    var c := w.calls[id];
    assert OrderedCall(w, c, top);
    assert w'.calls - {id} == w.calls - {id};
    CallsStay(w, w', id, top);
    hide OrderedCall, OrderedCalls, OneWaits;
    RisingSnoc(w.returned, c.candidate);
    var v: nat :| v <= top && Holds(w, v);
    assert Holds(w', v);
  }

  /** A restore ends, with a value at or above everything returned. */
  lemma OrderedRestores(w: World, w': World, id: nat, top: nat, value: nat)
    requires Ordered(w, top) && id in w.calls && !IsStray(w.calls[id].phase) && w'.calls == w.calls - {id}
    requires w'.stored == w.stored && w'.sealed == w.sealed && w'.returned == w.returned
    requires value <= top + 1 && forall r :: r in w.returned ==> r <= value
    requires 0 in w.counters ==> 0 in w'.counters && w'.counters[0].value == value
    requires w'.counters.Keys == w.counters.Keys
    ensures Ordered(w', top + 1)
  {
    assert w'.calls - {id} == w.calls - {id};
    CallsStay(w, w', id, top);
    hide OrderedCall, OrderedDisk, OrderedCalls, OneWaits;
    DiskStays(w, w', top);
  }

  /** What the disk gives back is at least every value returned. */
  lemma StoredOpens(w: World, top: nat)
    requires OrderedDisk(w, top) && top < Pow(10, WIDTH) && w.stored.Some?
    ensures Decode(w.stored.value).Some? && Opens(w, w.stored.value) == Decode(w.stored.value)
    ensures Decode(w.stored.value).value <= top && Holds(w, Decode(w.stored.value).value)
  {
    hide Encode, Decode, Pow, Rising;
    var v: nat :| v <= top && Holds(w, v);
    SealedOpens(v);
  }

  lemma OrderedReply(cfg: Config, w: World, id: nat, o: Outcome, blob: Option<Bytes>, top: nat)
    requires !cfg.anchored && top + 1 < Pow(10, WIDTH) && Ordered(w, top)
    requires id in w.calls && InTurn(w, Reply(id, o, blob))
    ensures Ordered(Answered(cfg, w, id, o, blob), top + 1)
  {
    hide Encode, Decode, Pow, OrderedDisk, OrderedCalls, SetValue, Settle, Opens, OrderedObject, OneWaits;
    var c, w' := w.calls[id], Answered(cfg, w, id, o, blob);
    assert OrderedCall(w, c, top) by { CallIsOrdered(w, id, top); }
    if w.stored.Some? {
      StoredOpens(w, top);
    }
    if (c.phase == Persisting && o == Done) || (c.phase == StrayWrite && o != Failed) {
      WriteIsLast(w, id, top);
      OrderedWrites(w, w', id, top);
    } else if c.phase == Persisted && o == Done {
      SetsValue(End(w, id), 0, c.candidate);
      OrderedReturns(w, w', id, top);
    } else if c.phase.Decrypting? && o == Done && c.phase.opens.Some? {
      RestoresValue(w, id, c.phase.opens.value + 1);
      OrderedRestores(w, w', id, top, c.phase.opens.value + 1);
    } else if c.phase == Reading && o == Done && blob.None? {
      SettlesOnly(w, id);
      NothingReturned(w, top);
      OrderedRestores(w, w', id, top, if 0 in w.counters then w.counters[0].value else 0);
    } else {
      MoveOnly(cfg, w, id, o, blob, top);
      OrderedMoves(w, w', id, top);
    }
  }

  /** Any other reply moves one call. */
  lemma MoveOnly(cfg: Config, w: World, id: nat, o: Outcome, blob: Option<Bytes>, top: nat)
    requires !cfg.anchored && top + 1 < Pow(10, WIDTH) && Ordered(w, top)
    requires id in w.calls && InTurn(w, Reply(id, o, blob)) && OrderedCall(w, w.calls[id], top)
    requires var p := w.calls[id].phase;
      && !(p == Persisting && o == Done) && !(p == StrayWrite && o != Failed) && !(p == Persisted && o == Done)
      && !(p.Decrypting? && o == Done && p.opens.Some?) && !(p == Reading && o == Done && blob.None?)
    ensures var w' := Answered(cfg, w, id, o, blob);
      && w'.calls - {id} == w.calls - {id} && w.sealed <= w'.sealed
      && w'.counters == w.counters && w'.stored == w.stored && w'.returned == w.returned
      && (id in w'.calls ==>
            && OrderedCall(w', w'.calls[id], top + 1) && w'.calls[id].phase != Persisted
            && (IsStray(w.calls[id].phase) ==> IsStray(w'.calls[id].phase)))
  {
    hide Encode, Decode, Pow, Ordered, Opens;
    ReadIsOpened(w, top);
  }

  lemma CallIsOrdered(w: World, id: nat, top: nat)
    requires OrderedCalls(w, top) && id in w.calls
    ensures OrderedCall(w, w.calls[id], top)
  {
  }

  lemma NothingReturned(w: World, top: nat)
    requires Ordered(w, top) && w.stored.None?
    ensures w.returned == [] && (0 in w.counters ==> w.counters[0].value <= top)
  {
    hide OrderedCalls, OneWaits;
  }

  lemma ReadIsOpened(w: World, top: nat)
    requires Ordered(w, top) && top < Pow(10, WIDTH)
    ensures w.stored.Some? ==>
      && Opens(w, w.stored.value).Some? && Opens(w, w.stored.value).value <= top
      && forall r :: r in w.returned ==> r <= Opens(w, w.stored.value).value
  {
    hide Encode, Decode, Pow, OrderedDisk;
    if w.stored.Some? {
      StoredOpens(w, top);
    }
  }

  /** A write that lands in turn is of no smaller value than any returned or about to be. */
  lemma WriteIsLast(w: World, id: nat, top: nat)
    requires Ordered(w, top) && top < Pow(10, WIDTH) && id in w.calls
    requires w.calls[id].phase == Persisting || (w.calls[id].phase == StrayWrite && NotBack(w, w.calls[id].candidate))
    ensures forall r :: r in w.returned ==> r <= w.calls[id].candidate
    ensures forall a :: a != id && a in w.calls && w.calls[a].phase == Persisted ==>
      w.calls[a].candidate <= w.calls[id].candidate
  {
    hide Encode, Decode, Pow, Rising;
    if w.calls[id].phase == Persisting {
      assert OrderedCall(w, w.calls[id], top);
    } else if w.stored.Some? {
      StoredOpens(w, top);
    } else {
      forall a | a in w.calls ensures w.calls[a].phase != Persisted {
        assert OrderedCall(w, w.calls[a], top);
      }
    }
  }

  lemma SetsValue(w: World, inst: nat, value: nat)
    requires inst in w.counters
    ensures SetValue(w, inst, value) == w.(counters := w.counters[inst := w.counters[inst].(value := value)])
  {
  }

  lemma RestoresValue(w: World, id: nat, value: nat)
    requires id in w.calls && w.calls[id].inst == 0
    ensures var w' := Restored(w, id, value);
      && w'.calls == w.calls - {id} && w'.counters.Keys == w.counters.Keys
      && w'.stored == w.stored && w'.sealed == w.sealed && w'.returned == w.returned
      && (0 in w.counters ==> w'.counters[0].value == value)
  {
  }

  lemma SettlesOnly(w: World, id: nat)
    requires id in w.calls && w.calls[id].inst == 0
    ensures var w' := Settle(End(w, id), 0);
      && w'.calls == w.calls - {id} && w'.counters.Keys == w.counters.Keys
      && w'.stored == w.stored && w'.sealed == w.sealed && w'.returned == w.returned
      && (0 in w.counters ==> w'.counters[0].value == w.counters[0].value)
  {
  }

  lemma OrderedStep(cfg: Config, w: World, e: Event, top: nat)
    requires !cfg.anchored && cfg.initial <= top && top + 1 < Pow(10, WIDTH) && Ordered(w, top) && InTurn(w, e)
    ensures Ordered(Step(cfg, w, e), top + 1)
  {
    hide Encode, Decode, Pow, Answered, Ordered;
    if e.Reply? && e.id in w.calls {
      OrderedReply(cfg, w, e.id, e.outcome, e.blob, top);
    } else if e.Start? {
      OrderedStart(cfg, w, top);
    } else {
      OrderedBegins(cfg, w, e, top);
    }
  }

  lemma OrderedStart(cfg: Config, w: World, top: nat)
    requires cfg.initial <= top && Ordered(w, top)
    ensures Ordered(Step(cfg, w, Start(0)), top + 1)
  {
    hide Encode, Decode, Answered, OrderedDisk;
    var w' := Step(cfg, w, Start(0));
    forall id | id in w'.calls ensures IsStray(w'.calls[id].phase) && OrderedCall(w', w'.calls[id], top + 1) {
      assert OrderedCall(w, w.calls[id], top);
    }
    DiskStays(w, w', top);
  }

  lemma OrderedBegins(cfg: Config, w: World, e: Event, top: nat)
    requires Ordered(w, top) && InTurn(w, e) && (e.Reply? ==> e.id !in w.calls) && !e.Start?
    ensures Ordered(Step(cfg, w, e), top + 1)
  {
    hide Encode, Decode, Answered, Ordered, OrderedCall;
    var w' := Step(cfg, w, e);
    if w' == w {
      OrderedHigher(w, top);
    } else {
      var c := if e.CallNext? then Call(0, Encrypting, w.counters[0].value + 1) else Call(0, Reading, 0);
      BeginOrdered(w, e.CallNext?, top, w', c);
      OrderedAdds(w, w', e.id, c, top);
    }
  }

  lemma BeginOrdered(w: World, next: bool, top: nat, w': World, c: Call)
    requires Ordered(w, top) && 0 in w.counters && w'.counters.Keys == w.counters.Keys
    requires w'.counters[0] == w.counters[0].(restored := w'.counters[0].restored)
    requires if next then w.counters[0].settled && c == Call(0, Encrypting, w.counters[0].value + 1)
             else c == Call(0, Reading, 0)
    ensures OrderedCall(w', c, top + 1)
  {
    hide OrderedDisk, OrderedCalls;
  }

  lemma OrderedHigher(w: World, top: nat)
    requires Ordered(w, top)
    ensures Ordered(w, top + 1)
  {
    hide OrderedDisk;
    DiskStays(w, w, top);
    forall id | id in w.calls ensures OrderedCall(w, w.calls[id], top + 1) {
      assert OrderedCall(w, w.calls[id], top);
    }
  }

  lemma OrderedAdds(w: World, w': World, id: nat, c: Call, top: nat)
    requires Ordered(w, top) && Idle(w) && id !in w.calls && w'.calls == w.calls[id := c] && 0 in w.counters
    requires w'.counters.Keys == w.counters.Keys
    requires w'.counters[0] == w.counters[0].(restored := w'.counters[0].restored)
    requires w'.stored == w.stored && w'.sealed == w.sealed && w'.returned == w.returned
    requires OrderedCall(w', c, top + 1) && c.phase != Persisted
    ensures Ordered(w', top + 1)
  {
    hide Encode, Decode, OrderedDisk;
    DiskStays(w, w', top);
    forall a | a in w'.calls ensures OrderedCall(w', w'.calls[a], top + 1) {
      if a != id {
        assert OrderedCall(w, w.calls[a], top);
      }
    }
  }

  /**
   * Without an anchor the values still rise strictly, across a restart at any await, as long as 32 digits hold them.
   */
  lemma {:induction false} RisesAcrossRestarts(cfg: Config, w: World, events: seq<Event>, top: nat)
    requires !cfg.anchored && cfg.initial <= top && top + |events| < Pow(10, WIDTH) && Ordered(w, top)
    requires TurnRun(cfg, w, events)
    ensures Rising(Run(cfg, w, events).returned)
    decreases |events|
  {
    hide Step, Pow, InTurn;
    if events != [] {
      OrderedStep(cfg, w, events[0], top);
      RisesAcrossRestarts(cfg, Step(cfg, w, events[0]), events[1..], top + 1);
    }
  }

  lemma BootOrdered(anchor: int, top: nat)
    ensures Ordered(Boot(anchor), top)
  {
  }

  lemma SequentialRuns(cfg: Config, events: seq<Event>)
    requires !cfg.anchored && cfg.initial + |events| < Pow(10, WIDTH) && TurnRun(cfg, Boot(0), events)
    ensures Rising(Run(cfg, Boot(0), events).returned)
  {
    hide Pow;
    BootOrdered(0, cfg.initial);
    RisesAcrossRestarts(cfg, Boot(0), events, cfg.initial);
  }

  // ------------------------------------------------------------------ a write that lands late

  /** A whole `next`, with nothing going wrong. */
  function Next(id: nat): seq<Event> {
    [CallNext(0, id), Reply(id, Done, None), Reply(id, Done, None), Reply(id, Done, None)]
  }

  /** The last step of it, with its blob written. */
  function Written(w: World, id: nat, v: nat): World {
    w.(calls := w.calls[id := Call(0, Persisted, v)], sealed := w.sealed + {Encode(v)}, stored := Some(Encode(v)))
  }

  lemma NextWrites(w: World, id: nat)
    requires 0 in w.counters && id !in w.calls
    ensures Run(Config(0, false), w, Next(id)) ==
      Step(Config(0, false), Written(w, id, w.counters[0].value + 1), Reply(id, Done, None))
  {
    hide Run, Encode, RestoreAnswered;
    var cfg, events, v := Config(0, false), Next(id), w.counters[0].value + 1;
    var w1 := w.(calls := w.calls[id := Call(0, Encrypting, v)]);
    var w2 := w.(calls := w.calls[id := Call(0, Persisting, v)], sealed := w.sealed + {Encode(v)});
    RunOn(cfg, w, events, 0, w1);
    assert w1.calls[id := Call(0, Persisting, v)] == w2.calls;
    RunOn(cfg, w1, events, 1, w2);
    assert w2.calls[id := Call(0, Persisted, v)] == Written(w, id, v).calls;
    RunOn(cfg, w2, events, 2, Written(w, id, v));
    RunOn(cfg, Written(w, id, v), events, 3, Step(cfg, Written(w, id, v), events[3]));
    assert events[0..] == events;
  }

  lemma NextReturns(w: World, id: nat)
    requires 0 in w.counters && id !in w.calls
    ensures var v := w.counters[0].value + 1;
      Run(Config(0, false), w, Next(id)) ==
      w.(counters := w.counters[0 := w.counters[0].(value := v)], sealed := w.sealed + {Encode(v)},
         stored := Some(Encode(v)), returned := w.returned + [v])
  {
    hide Run, Encode, RestoreAnswered, Next;
    NextWrites(w, id);
    assert Written(w, id, w.counters[0].value + 1).calls - {id} == w.calls;
  }

  /** A `next` of value 1 whose write its caller gave up, still under way. */
  function GivenUp(): World {
    World(map[0 := Counter(0, true, true)], map[9 := Call(0, StrayWrite, 1)], -1, {Encode(1)}, None, [])
  }

  /** The same after three more, which gave out values 1 to 3. */
  function Underway(): World {
    World(map[0 := Counter(3, true, true)], map[9 := Call(0, StrayWrite, 1)], -1,
          {Encode(1), Encode(2), Encode(3)}, Some(Encode(3)), [1, 2, 3])
  }

  const BEGIN: seq<Event> := [Start(0), CallRestore(0, 8), Reply(8, Done, None)]
  const GIVE_UP: seq<Event> := [CallNext(0, 9), Reply(9, Done, None), Reply(9, Lost, None)]

  lemma Begins()
    ensures Run(Config(0, false), Boot(-1), BEGIN) == World(map[0 := Counter(0, true, true)], map[], -1, {}, None, [])
  {
    hide Run, Encode, Decode;
    var cfg := Config(0, false);
    var w1 := World(map[0 := Counter(0, false, false)], map[], -1, {}, None, []);
    var w2 := World(map[0 := Counter(0, true, false)], map[8 := Call(0, Reading, 0)], -1, {}, None, []);
    assert Step(cfg, Boot(-1), BEGIN[0]).calls == w1.calls;
    RunOn(cfg, Boot(-1), BEGIN, 0, w1);
    RunOn(cfg, w1, BEGIN, 1, w2);
    assert w2.calls - {8} == map[];
    RunOn(cfg, w2, BEGIN, 2, Step(cfg, w2, BEGIN[2]));
    assert BEGIN[0..] == BEGIN;
  }

  lemma GivesUp()
    ensures Run(Config(0, false), Run(Config(0, false), Boot(-1), BEGIN), GIVE_UP) == GivenUp()
  {
    hide Run, Encode, Decode;
    Begins();
    var cfg, c := Config(0, false), map[0 := Counter(0, true, true)];
    var w3, w4 := World(c, map[], -1, {}, None, []), World(c, map[9 := Call(0, Encrypting, 1)], -1, {}, None, []);
    var w5 := World(c, map[9 := Call(0, Persisting, 1)], -1, {Encode(1)}, None, []);
    RunOn(cfg, w3, GIVE_UP, 0, w4);
    RunOn(cfg, w4, GIVE_UP, 1, w5);
    RunOn(cfg, w5, GIVE_UP, 2, GivenUp());
    assert GIVE_UP[0..] == GIVE_UP;
  }

  lemma ThreeMore()
    ensures var cfg := Config(0, false);
      Run(cfg, Run(cfg, Run(cfg, GivenUp(), Next(1)), Next(2)), Next(3)) == Underway()
  {
    hide Run, Encode, Decode, Next;
    var w := GivenUp();
    NextReturns(w, 1);
    var w1 := Run(Config(0, false), w, Next(1));
    NextReturns(w1, 2);
    var w2 := Run(Config(0, false), w1, Next(2));
    NextReturns(w2, 3);
    assert w.returned + [1] + [2] + [3] == [1, 2, 3];
  }

  const RESTART: seq<Event> := [Start(0), CallRestore(0, 7), Reply(7, Done, Some(Encode(1))), Reply(7, Done, None)]

  /** That write lands, and the object is restarted and restored from it. */
  lemma Relands()
    ensures var cfg, w := Config(0, false), Underway();
      && Step(cfg, w, Reply(9, Done, None)) == w.(calls := map[], stored := Some(Encode(1)))
      && Run(cfg, Step(cfg, w, Reply(9, Done, None)), RESTART) ==
           w.(calls := map[], stored := Some(Encode(1)), counters := map[0 := Counter(2, true, true)])
  {
    hide Run, Encode, Decode, Pow;
    PowLarge();
    SealedOpens(1);
    var cfg, w := Config(0, false), Underway();
    var w1 := w.(calls := map[], stored := Some(Encode(1)));
    var w2 := w1.(counters := map[0 := Counter(0, false, false)]);
    var w4 := w1.(counters := map[0 := Counter(0, true, false)], calls := map[7 := Call(0, Reading, 0)]);
    var w5 := w4.(calls := map[7 := Call(0, Decrypting(Some(1)), 0)]);
    assert w.calls - {9} == map[];
    assert Step(cfg, w1, RESTART[0]).calls == w2.calls;
    RunOn(cfg, w1, RESTART, 0, w2);
    RunOn(cfg, w2, RESTART, 1, w4);
    RunOn(cfg, w4, RESTART, 2, w5);
    assert w5.calls - {7} == map[];
    RunOn(cfg, w5, RESTART, 3, w1.(counters := map[0 := Counter(2, true, true)]));
    assert RESTART[0..] == RESTART;
  }

  lemma GivesAgain()
    ensures var cfg := Config(0, false);
      Run(cfg, Run(cfg, Step(cfg, Underway(), Reply(9, Done, None)), RESTART), Next(6)).returned == [1, 2, 3, 3]
  {
    hide Run, Encode, Step, Next;
    Relands();
    var w := Underway().(calls := map[], stored := Some(Encode(1)), counters := map[0 := Counter(2, true, true)]);
    NextReturns(w, 6);
  }

  function LateWrite(): seq<Event> {
    BEGIN + (GIVE_UP + (Next(1) + (Next(2) + (Next(3) + ([Reply(9, Done, None)] + (RESTART + Next(6)))))))
  }

  /**
   * Without that condition on the disk a value is repeated: a run of one call at a time, the latest blob restored after
   * the restart, in which a write given up by its caller lands after three later ones.
   */
  lemma LateWriteRepeats()
    ensures Run(Config(0, false), Boot(-1), LateWrite()).returned == [1, 2, 3, 3]
  {
    hide Run, Encode, Decode, Next, Step;
    var cfg, land := Config(0, false), [Reply(9, Done, None)];
    var nexts := Next(1) + (Next(2) + (Next(3) + (land + (RESTART + Next(6)))));
    GivesUp();
    ThreeMore();
    GivesAgain();
    RunOn(cfg, Underway(), land, 0, Step(cfg, Underway(), land[0]));
    assert land[0..] == land;
    RunAppend(cfg, Boot(-1), BEGIN, GIVE_UP + nexts);
    RunAppend(cfg, Run(cfg, Boot(-1), BEGIN), GIVE_UP, nexts);
    var w1 := Run(cfg, GivenUp(), Next(1));
    RunAppend(cfg, GivenUp(), Next(1), Next(2) + (Next(3) + (land + (RESTART + Next(6)))));
    RunAppend(cfg, w1, Next(2), Next(3) + (land + (RESTART + Next(6))));
    RunAppend(cfg, Run(cfg, w1, Next(2)), Next(3), land + (RESTART + Next(6)));
    RunAppend(cfg, Underway(), land, RESTART + Next(6));
    RunAppend(cfg, Step(cfg, Underway(), land[0]), RESTART, Next(6));
  }

  lemma PowLarge()
    ensures Pow(10, WIDTH) == 100000000000000000000000000000000
  {
    assert Pow(10, 8) == 100000000;
    assert Pow(10, 16) == 10000000000000000;
    assert Pow(10, 24) == 1000000000000000000000000;
  }
}
