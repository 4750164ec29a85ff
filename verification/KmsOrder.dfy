/** The order in which the anchored counter of packages/adapter-nitro/src/kms-counter.ts gives its values out. */
module KmsOrder {
  import opened Bytes
  import opened KmsCounter
  import opened Numerals

  // ----------------------------------------------------------------- the order of the events

  /**
   * A run watched by its events alone: which event the anchor took each waiting call at, and for the calls that have
   * returned, in the order they did, the event the anchor took them at.
   */
  datatype Log = Log(world: World, taken: map<nat, nat>, returned: seq<nat>)

  /** The call is waiting for the anchor, and the anchor lets it go on. */
  predicate Takes(w: World, w': World, id: nat) {
    && id in w.calls && w.calls[id].phase == Anchoring
    && id in w'.calls && w'.calls[id].phase == Persisting
  }

  /** The call's last write is done, and it is told. */
  predicate Returns(w: World, id: nat, o: Outcome) {
    id in w.calls && w.calls[id].phase == Persisted && o == Done
  }

  function Note(cfg: Config, l: Log, e: Event, k: nat): Log {
    var w' := Step(cfg, l.world, e);
    if e.Reply? && Takes(l.world, w', e.id) then Log(w', l.taken[e.id := k], l.returned)
    else if e.Reply? && Returns(l.world, e.id, e.outcome) && e.id in l.taken then
      Log(w', l.taken, l.returned + [l.taken[e.id]])
    else Log(w', l.taken, l.returned)
  }

  function Watch(cfg: Config, anchor: int, events: seq<Event>): Log {
    if events == [] then Log(Boot(anchor), map[], [])
    else Note(cfg, Watch(cfg, anchor, Init(events)), Last(events), |events| - 1)
  }

  /** Two values, and the events the anchor took them at, in the same order. */
  predicate Alike(v: int, t: int, v': int, t': int) {
    (v < v' <==> t < t') && (v' < v <==> t' < t)
  }

  /** The waiting call holds a value that the anchor took. */
  predicate HoldsValue(l: Log, id: nat) {
    id in l.world.calls && Held(l.world.calls[id].phase)
  }

  ghost predicate SoFar(l: Log, clock: nat) {
    && |l.returned| == |l.world.returned|
    && (forall i :: 0 <= i < |l.returned| ==> l.returned[i] < clock && l.world.returned[i] <= l.world.anchor)
    && (forall a :: HoldsValue(l, a) ==>
          a in l.taken && l.taken[a] < clock && l.world.calls[a].candidate <= l.world.anchor)
  }

  /** The values let through, given out or held, are in the order in which the anchor took them. */
  ghost predicate InOrder(l: Log, clock: nat) {
    && SoFar(l, clock)
    && (forall i, j :: 0 <= i < |l.returned| && 0 <= j < |l.returned| ==>
          Alike(l.world.returned[i], l.returned[i], l.world.returned[j], l.returned[j]))
    && (forall i, a :: 0 <= i < |l.returned| && HoldsValue(l, a) ==>
          Alike(l.world.returned[i], l.returned[i], l.world.calls[a].candidate, l.taken[a]))
    && (forall a, b :: HoldsValue(l, a) && HoldsValue(l, b) ==>
          Alike(l.world.calls[a].candidate, l.taken[a], l.world.calls[b].candidate, l.taken[b]))
  }

  /** The calls that hold a value are some of those that did, with the values they had. */
  ghost predicate HoldNoMore(l: Log, l': Log, besides: set<nat>) {
    forall a :: HoldsValue(l', a) && a !in besides ==>
      HoldsValue(l, a) && l'.world.calls[a].candidate == l.world.calls[a].candidate
  }

  lemma OrderSame(l: Log, l': Log, k: nat)
    requires InOrder(l, k) && l'.returned == l.returned && l'.taken == l.taken
    requires l'.world.returned == l.world.returned && l'.world.anchor >= l.world.anchor && HoldNoMore(l, l', {})
    ensures InOrder(l', k + 1)
  {
  }

  lemma OrderTake(l: Log, l': Log, id: nat, k: nat)
    requires InOrder(l, k) && l'.returned == l.returned && l'.taken == l.taken[id := k]
    requires l'.world.returned == l.world.returned && HoldNoMore(l, l', {id})
    requires HoldsValue(l', id) && l'.world.calls[id].candidate == l'.world.anchor > l.world.anchor
    ensures InOrder(l', k + 1)
  {
  }

  lemma OrderReturn(l: Log, l': Log, id: nat, k: nat)
    requires InOrder(l, k) && HoldsValue(l, id) && l'.taken == l.taken && l'.returned == l.returned + [l.taken[id]]
    requires l'.world.returned == l.world.returned + [l.world.calls[id].candidate]
    requires l'.world.anchor == l.world.anchor && HoldNoMore(l, l', {})
    ensures InOrder(l', k + 1)
  {
  }

  /** What an event does to the values held and given out. */
  ghost predicate Effect(l: Log, l': Log, e: Event, k: nat) {
    if e.Reply? && Takes(l.world, l'.world, e.id) then
      && HoldNoMore(l, l', {e.id}) && l'.taken == l.taken[e.id := k] && l'.returned == l.returned
      && l'.world.returned == l.world.returned && l'.world.calls[e.id].candidate == l'.world.anchor > l.world.anchor
    else if e.Reply? && Returns(l.world, e.id, e.outcome) then
      && HoldNoMore(l, l', {}) && l'.taken == l.taken && l'.world.anchor == l.world.anchor
      && l'.returned == (if e.id in l.taken then l.returned + [l.taken[e.id]] else l.returned)
      && l'.world.returned == l.world.returned + [l.world.calls[e.id].candidate]
    else
      && HoldNoMore(l, l', {}) && l'.taken == l.taken && l'.returned == l.returned
      && l'.world.returned == l.world.returned && l'.world.anchor >= l.world.anchor
  }

  lemma NoteEffect(cfg: Config, l: Log, e: Event, k: nat)
    requires cfg.anchored
    ensures Effect(l, Note(cfg, l, e, k), e, k) && Note(cfg, l, e, k).world == Step(cfg, l.world, e)
  {
    hide Answered;
    if e.Reply? && e.id in l.world.calls {
      ReplyEffect(cfg, l.world, e.id, e.outcome, e.blob);
      OthersSame(l.world, Answered(cfg, l.world, e.id, e.outcome, e.blob), e.id);
    }
  }

  /** A reply moves one call: it takes its value, returns it, or does neither. */
  lemma ReplyEffect(cfg: Config, w: World, id: nat, o: Outcome, blob: Option<Bytes>)
    requires cfg.anchored && id in w.calls
    ensures var w' := Answered(cfg, w, id, o, blob);
      && w'.calls - {id} == w.calls - {id}
      && w'.returned == (if Returns(w, id, o) then w.returned + [w.calls[id].candidate] else w.returned)
      && (Held(w.calls[id].phase) ==> w'.anchor == w.anchor) && (Returns(w, id, o) ==> id !in w'.calls)
      && w'.anchor >= w.anchor
      && (id in w'.calls && Held(w'.calls[id].phase) ==>
            if Held(w.calls[id].phase) then w'.calls[id].candidate == w.calls[id].candidate
            else Takes(w, w', id) && w'.calls[id].candidate == w'.anchor > w.anchor)
  {
    hide Encode, RestoreAnswered;
    RestoreKeeps(cfg, w, id, o, blob);
  }

  lemma OrderStep(cfg: Config, l: Log, e: Event, k: nat)
    requires cfg.anchored && InOrder(l, k)
    ensures InOrder(Note(cfg, l, e, k), k + 1)
  {
    hide Step, Note, HoldNoMore, Alike;
    var l' := Note(cfg, l, e, k);
    NoteEffect(cfg, l, e, k);
    if e.Reply? && Takes(l.world, l'.world, e.id) {
      OrderTake(l, l', e.id, k);
    } else if e.Reply? && Returns(l.world, e.id, e.outcome) {
      assert HoldsValue(l, e.id);
      OrderReturn(l, l', e.id, k);
    } else {
      OrderSame(l, l', k);
    }
  }

  lemma {:induction false} OrderKept(cfg: Config, anchor: int, events: seq<Event>)
    requires cfg.anchored
    ensures InOrder(Watch(cfg, anchor, events), |events|)
    decreases |events|
  {
    hide Note, InOrder;
    if events == [] {
      BootInOrder(anchor);
    } else {
      OrderKept(cfg, anchor, Init(events));
      OrderStep(cfg, Watch(cfg, anchor, Init(events)), Last(events), |events| - 1);
    }
  }

  lemma BootInOrder(anchor: int)
    ensures InOrder(Log(Boot(anchor), map[], []), 0)
  {
  }

  lemma {:induction false} WatchIsRun(cfg: Config, anchor: int, events: seq<Event>)
    ensures Watch(cfg, anchor, events).world == Run(cfg, Boot(anchor), events)
    decreases |events|
  {
    hide Step;
    if events != [] {
      WatchIsRun(cfg, anchor, Init(events));
      RunAppend(cfg, Boot(anchor), Init(events), [Last(events)]);
      assert Init(events) + [Last(events)] == events;
      assert [Last(events)][1..] == [];
    }
  }

  /**
   * In every run with an anchor, two values are returned in the order of their size exactly when the anchor took them
   * in the order in which their calls came to their end. All of them rise exactly when every call does.
   */
  lemma ReturnsInOrder(cfg: Config, anchor: int, events: seq<Event>)
    requires cfg.anchored
    ensures var values, taken := Run(cfg, Boot(anchor), events).returned, Watch(cfg, anchor, events).returned;
      && |values| == |taken|
      && (forall i, j :: 0 <= i < |taken| && 0 <= j < |taken| ==> (values[i] < values[j] <==> taken[i] < taken[j]))
      && (Rising(values) <==> Rising(taken))
  {
    hide Step, Run, Watch;
    OrderKept(cfg, anchor, events);
    WatchIsRun(cfg, anchor, events);
  }

  /** What `Watch` notes of a returned value is the one event at which the anchor came to that value. */
  lemma {:induction false} TakenAt(cfg: Config, anchor: int, events: seq<Event>, i: nat)
    requires cfg.anchored && i < |Watch(cfg, anchor, events).returned|
    ensures var k, v := Watch(cfg, anchor, events).returned[i], Run(cfg, Boot(anchor), events).returned;
      && k < |events| && i < |v|
      && Run(cfg, Boot(anchor), events[..k]).anchor < v[i] == Run(cfg, Boot(anchor), events[..k + 1]).anchor
  {
    hide Step, Run, Watch, InOrder;
    WatchIsRun(cfg, anchor, events);
    TakenKept(cfg, anchor, events);
    WatchIsRun(cfg, anchor, events[..Watch(cfg, anchor, events).returned[i]]);
    WatchIsRun(cfg, anchor, events[..Watch(cfg, anchor, events).returned[i] + 1]);
  }

  ghost predicate TookAt(cfg: Config, anchor: int, events: seq<Event>, k: nat, v: int) {
    && k < |events|
    && Watch(cfg, anchor, events[..k]).world.anchor < v == Watch(cfg, anchor, events[..k + 1]).world.anchor
  }

  ghost predicate AllTook(cfg: Config, anchor: int, events: seq<Event>, l: Log) {
    && |l.returned| == |l.world.returned|
    && (forall i :: 0 <= i < |l.returned| ==> TookAt(cfg, anchor, events, l.returned[i], l.world.returned[i]))
    && (forall a :: HoldsValue(l, a) ==>
         a in l.taken && TookAt(cfg, anchor, events, l.taken[a], l.world.calls[a].candidate))
  }

  lemma TookLonger(cfg: Config, anchor: int, events: seq<Event>, k: nat, v: int)
    requires events != [] && TookAt(cfg, anchor, Init(events), k, v)
    ensures TookAt(cfg, anchor, events, k, v)
  {
    assert Init(events)[..k] == events[..k] && Init(events)[..k + 1] == events[..k + 1];
  }

  lemma TookNow(cfg: Config, anchor: int, events: seq<Event>)
    requires cfg.anchored && events != [] && Last(events).Reply?
    requires var l := Watch(cfg, anchor, Init(events));
      Takes(l.world, Step(cfg, l.world, Last(events)), Last(events).id)
    ensures var l, id := Watch(cfg, anchor, events), Last(events).id;
      HoldsValue(l, id) && TookAt(cfg, anchor, events, |events| - 1, l.world.calls[id].candidate)
  {
    hide Encode, Decode;
    assert events[..|events| - 1] == Init(events) && events[..|events|] == events;
  }

  lemma {:induction false} TakenKept(cfg: Config, anchor: int, events: seq<Event>)
    requires cfg.anchored
    ensures AllTook(cfg, anchor, events, Watch(cfg, anchor, events))
    decreases |events|
  {
    hide TookAt, Watch, Step, Note;
    if events == [] {
      WatchNone(cfg, anchor);
    } else {
      var l, e, k := Watch(cfg, anchor, Init(events)), Last(events), |events| - 1;
      TakenKept(cfg, anchor, Init(events));
      WatchMore(cfg, anchor, events);
      NoteEffect(cfg, l, e, k);
      forall k, v | TookAt(cfg, anchor, Init(events), k, v) ensures TookAt(cfg, anchor, events, k, v) {
        TookLonger(cfg, anchor, events, k, v);
      }
      if e.Reply? && Takes(l.world, Step(cfg, l.world, e), e.id) {
        TookNow(cfg, anchor, events);
      }
    }
  }

  lemma WatchNone(cfg: Config, anchor: int)
    ensures Watch(cfg, anchor, []) == Log(Boot(anchor), map[], [])
  {
  }

  lemma WatchMore(cfg: Config, anchor: int, events: seq<Event>)
    requires events != []
    ensures Watch(cfg, anchor, events) == Note(cfg, Watch(cfg, anchor, Init(events)), Last(events), |events| - 1)
  {
  }

  // --------------------------------------------------------------------- one call at a time

  /** A call begins only when no other is waiting, in any object. */
  ghost predicate BeginsAlone(w: World, e: Event) {
    e.CallNext? || e.CallRestore? ==> Idle(w)
  }

  ghost predicate OneAtATime(cfg: Config, w: World, events: seq<Event>)
    decreases |events|
  {
    events != [] ==> BeginsAlone(w, events[0]) && OneAtATime(cfg, Step(cfg, w, events[0]), events[1..])
  }

  ghost predicate Single(w: World) {
    && Rising(w.returned) && (forall v :: v in w.returned ==> v <= w.anchor)
    && OneWaits(w)
    && (forall a :: a in w.calls && Held(w.calls[a].phase) ==>
          w.calls[a].candidate <= w.anchor && forall v :: v in w.returned ==> v < w.calls[a].candidate)
  }

  lemma SingleStep(cfg: Config, w: World, e: Event)
    requires cfg.anchored && Single(w) && BeginsAlone(w, e)
    ensures Single(Step(cfg, w, e))
  {
    hide Encode, Decode, Rising, Answered;
    if e.Reply? && e.id in w.calls {
      SingleReply(cfg, w, e.id, e.outcome, e.blob);
    }
  }

  lemma SingleReply(cfg: Config, w: World, id: nat, o: Outcome, blob: Option<Bytes>)
    requires cfg.anchored && Single(w) && id in w.calls
    ensures Single(Answered(cfg, w, id, o, blob))
  {
    hide Rising, Answered;
    var w' := Answered(cfg, w, id, o, blob);
    ReplyEffect(cfg, w, id, o, blob);
    StrayStays(cfg, w, id, o, blob);
    OthersSame(w, w', id);
    if Returns(w, id, o) {
      RisingSnoc(w.returned, w.calls[id].candidate);
    }
  }

  /** A request that nobody waits for ends with its reply. */
  lemma StrayStays(cfg: Config, w: World, id: nat, o: Outcome, blob: Option<Bytes>)
    requires id in w.calls
    ensures IsStray(w.calls[id].phase) ==> id !in Answered(cfg, w, id, o, blob).calls
  {
    hide Encode, Decode;
  }

  lemma {:induction false} SingleRises(cfg: Config, w: World, events: seq<Event>)
    requires cfg.anchored && Single(w) && OneAtATime(cfg, w, events)
    ensures Rising(Run(cfg, w, events).returned)
    decreases |events|
  {
    hide Step, BeginsAlone;
    if events != [] {
      SingleStep(cfg, w, events[0]);
      SingleRises(cfg, Step(cfg, w, events[0]), events[1..]);
    }
  }

  /**
   * A caller that waits for each call's end before the next, in whatever object, sees values rise: no lost reply or
   * restart breaks it.
   */
  lemma OneAtATimeRises(cfg: Config, anchor: int, events: seq<Event>)
    requires cfg.anchored && OneAtATime(cfg, Boot(anchor), events)
    ensures Rising(Run(cfg, Boot(anchor), events).returned)
  {
    SingleRises(cfg, Boot(anchor), events);
  }

  // ----------------------------------------------------------------------- a run out of order

  /** A `next` that holds value 1, taken by the anchor, with its blob still being written. */
  function Holding(): World {
    World(map[0 := Counter(0, false, false)], map[1 := Call(0, Persisting, 1)], 1, {Encode(1)}, None, [])
  }

  /** The same, after the object has been restored from the blob of that value. */
  function Overtaken(): World {
    World(map[0 := Counter(2, true, true)], map[1 := Call(0, Persisting, 1)], 2, {Encode(1)}, None, [])
  }

  lemma BecomesHolding()
    ensures var r := Reply(1, Done, None); Run(Config(0, true), Boot(0), [Start(0), CallNext(0, 1), r, r]) == Holding()
  {
    hide Run, Encode;
    var cfg, events := Config(0, true), [Start(0), CallNext(0, 1), Reply(1, Done, None), Reply(1, Done, None)];
    var c := map[0 := Counter(0, false, false)];
    var w1, w2 := World(c, map[], 0, {}, None, []), World(c, map[1 := Call(0, Encrypting, 1)], 0, {}, None, []);
    var w3 := World(c, map[1 := Call(0, Anchoring, 1)], 0, {Encode(1)}, None, []);
    assert Step(cfg, Boot(0), events[0]).calls == w1.calls;
    RunOn(cfg, Boot(0), events, 0, w1);
    RunOn(cfg, w1, events, 1, w2);
    RunOn(cfg, w2, events, 2, w3);
    RunOn(cfg, w3, events, 3, Holding());
    assert events[0..] == events;
  }

  lemma BecomesOvertaken()
    ensures Run(Config(0, true), Holding(),
      [CallRestore(0, 2), Reply(2, Done, Some(Encode(1))), RESTORED, RESTORED, RESTORED]) == Overtaken()
  {
    hide Run, Encode, Decode, Pow, NextAnswered;
    var cfg, r := Config(0, true), RESTORED;
    var events := [CallRestore(0, 2), Reply(2, Done, Some(Encode(1))), r, r, r];
    PowLarge();
    SealedOpens(1);
    var held := Call(0, Persisting, 1);
    var c := map[0 := Counter(0, true, false)];
    var w1 := World(c, map[1 := held, 2 := Call(0, Reading, 0)], 1, {Encode(1)}, None, []);
    var w2 := World(c, map[1 := held, 2 := Call(0, Decrypting(Some(1)), 0)], 1, {Encode(1)}, None, []);
    var w3 := World(c, map[1 := held, 2 := Call(0, ReAnchoring, 2)], 1, {Encode(1)}, None, []);
    var w4 := World(c, map[1 := held, 2 := Call(0, ReAnchored, 2)], 2, {Encode(1)}, None, []);
    RunOn(cfg, Holding(), events, 0, w1);
    RunOn(cfg, w1, events, 1, w2);
    RunOn(cfg, w2, events, 2, w3);
    RunOn(cfg, w3, events, 3, w4);
    assert w4.calls - {2} == map[1 := held];
    assert Step(cfg, w4, events[4]) == Overtaken();
    RunOn(cfg, w4, events, 4, Overtaken());
    assert events[0..] == events;
  }

  const RESTORED: Event := Reply(2, Done, None)

  /** Another `next` has given out value 3 meanwhile. */
  function Passed(): World {
    World(map[0 := Counter(3, true, true)], map[1 := Call(0, Persisting, 1)], 3, {Encode(1), Encode(3)},
          Some(Encode(3)), [3])
  }

  lemma BecomesPassed()
    ensures var r := Reply(3, Done, None); Run(Config(0, true), Overtaken(), [CallNext(0, 3), r, r, r, r]) == Passed()
  {
    hide Run, Encode, RestoreAnswered;
    var r := Reply(3, Done, None);
    var cfg, events := Config(0, true), [CallNext(0, 3), r, r, r, r];
    var held := Call(0, Persisting, 1);
    var c := map[0 := Counter(2, true, true)];
    var w1 := World(c, map[1 := held, 3 := Call(0, Encrypting, 3)], 2, {Encode(1)}, None, []);
    var w2 := World(c, map[1 := held, 3 := Call(0, Anchoring, 3)], 2, {Encode(1), Encode(3)}, None, []);
    var w3 := World(c, map[1 := held, 3 := Call(0, Persisting, 3)], 3, {Encode(1), Encode(3)}, None, []);
    var w4 := World(c, map[1 := held, 3 := Call(0, Persisted, 3)], 3, {Encode(1), Encode(3)}, Some(Encode(3)), []);
    RunOn(cfg, Overtaken(), events, 0, w1);
    RunOn(cfg, w1, events, 1, w2);
    RunOn(cfg, w2, events, 2, w3);
    RunOn(cfg, w3, events, 3, w4);
    assert w4.calls - {3} == map[1 := held];
    assert Step(cfg, w4, events[4]) == Passed();
    RunOn(cfg, w4, events, 4, Passed());
    assert events[0..] == events;
  }

  lemma ReturnsBackwards()
    ensures var r := Reply(1, Done, None); Run(Config(0, true), Passed(), [r, r]).returned == [3, 1]
  {
    hide Run, Encode;
    var cfg, events := Config(0, true), [Reply(1, Done, None), Reply(1, Done, None)];
    var w1 := Passed().(calls := map[1 := Call(0, Persisted, 1)], stored := Some(Encode(1)));
    RunOn(cfg, Passed(), events, 0, w1);
    RunOn(cfg, w1, events, 1, Step(cfg, w1, events[1]));
    assert events[0..] == events;
  }

  /**
   * Values may come back out of order: a restore beside a waiting `next` lets a later value out before an earlier one.
   */
  lemma OutOfOrder()
    ensures exists events :: Run(Config(0, true), Boot(0), events).returned == [3, 1]
  {
    hide Run, Encode;
    var cfg, r := Config(0, true), Reply(3, Done, None);
    var a := [Start(0), CallNext(0, 1), Reply(1, Done, None), Reply(1, Done, None)];
    var b := [CallRestore(0, 2), Reply(2, Done, Some(Encode(1))), RESTORED, RESTORED, RESTORED];
    var c, d := [CallNext(0, 3), r, r, r, r], [Reply(1, Done, None), Reply(1, Done, None)];
    BecomesHolding();
    BecomesOvertaken();
    BecomesPassed();
    ReturnsBackwards();
    RunAppend(cfg, Boot(0), a, b + (c + d));
    RunAppend(cfg, Holding(), b, c + d);
    RunAppend(cfg, Overtaken(), c, d);
  }
}
