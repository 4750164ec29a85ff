/** When the anchored counter of packages/adapter-nitro/src/kms-counter.ts can give out no further value. */
module KmsStandstill {
  import opened Bytes
  import opened KmsCounter

  /**
   * Every value an object or a restart could try next has been taken by the anchor already, and no value that it took
   * is on its way back to a caller, an object or the disk.
   */
  ghost predicate Stuck(cfg: Config, w: World) {
    && cfg.initial < w.anchor
    && (forall i :: i in w.counters ==> w.counters[i].value < w.anchor)
    && (forall id :: id in w.calls ==> Hopeless(w, w.calls[id]))
    && (w.stored.Some? ==> Below(w, Decode(w.stored.value)))
  }

  predicate Below(w: World, opens: Option<nat>) {
    opens.Some? ==> opens.value < w.anchor
  }

  /** Whatever comes of the call, nothing is returned for it, and nothing above the anchor comes of it. */
  predicate Hopeless(w: World, c: Call) {
    match c.phase
    case Encrypting | Anchoring | ReAnchoring => c.candidate <= w.anchor
    case Persisting | Persisted => false
    case Reading | StrayTake => true
    case Decrypting(opens) => Below(w, opens)
    case ReAnchored => c.candidate < w.anchor
    case StrayWrite => Below(w, Decode(Encode(c.candidate)))
  }

  /** What a restore reads is what the disk last stored, or nothing. */
  predicate HonestDisk(w: World, e: Event) {
    e.Reply? && e.id in w.calls && w.calls[e.id].phase == Reading && e.blob.Some? ==> e.blob == w.stored
  }

  ghost predicate HonestRun(cfg: Config, w: World, events: seq<Event>)
    decreases |events|
  {
    events != [] ==> HonestDisk(w, events[0]) && HonestRun(cfg, Step(cfg, w, events[0]), events[1..])
  }

  lemma StuckStep(cfg: Config, w: World, e: Event)
    requires cfg.anchored && Stuck(cfg, w) && HonestDisk(w, e)
    ensures Stuck(cfg, Step(cfg, w, e)) && Step(cfg, w, e).returned == w.returned
  {
    hide Encode, Decode, Answered;
    if e.Reply? && e.id in w.calls {
      StuckReply(cfg, w, e.id, e.outcome, e.blob);
    }
  }

  lemma StuckReply(cfg: Config, w: World, id: nat, o: Outcome, blob: Option<Bytes>)
    requires cfg.anchored && Stuck(cfg, w) && id in w.calls && HonestDisk(w, Reply(id, o, blob))
    ensures Stuck(cfg, Answered(cfg, w, id, o, blob)) && Answered(cfg, w, id, o, blob).returned == w.returned
  {
    hide Encode, Decode, NextAnswered, RestoreAnswered;
    match w.calls[id].phase
    case Encrypting | Anchoring | Persisting | Persisted => StuckNext(cfg, w, id, o);
    case StrayTake | StrayWrite =>
    case _ => StuckRestore(cfg, w, id, o, blob);
  }

  lemma StuckNext(cfg: Config, w: World, id: nat, o: Outcome)
    requires cfg.anchored && Stuck(cfg, w) && id in w.calls
    requires w.calls[id].phase == Encrypting || w.calls[id].phase == Anchoring || Held(w.calls[id].phase)
    ensures Stuck(cfg, NextAnswered(cfg, w, id, o)) && NextAnswered(cfg, w, id, o).returned == w.returned
  {
    hide Encode, Decode;
  }

  lemma StuckRestore(cfg: Config, w: World, id: nat, o: Outcome, blob: Option<Bytes>)
    requires cfg.anchored && Stuck(cfg, w) && id in w.calls && HonestDisk(w, Reply(id, o, blob))
    requires var p := w.calls[id].phase; p == Reading || p.Decrypting? || p == ReAnchoring || p == ReAnchored
    ensures Stuck(cfg, RestoreAnswered(cfg, w, id, o, blob))
    ensures RestoreAnswered(cfg, w, id, o, blob).returned == w.returned
  {
    hide Encode, Decode;
  }

  /** From a stuck state nothing is ever returned again, however often it is restarted and restored. */
  lemma {:induction false} StuckForever(cfg: Config, w: World, events: seq<Event>)
    requires cfg.anchored && Stuck(cfg, w) && HonestRun(cfg, w, events)
    ensures Run(cfg, w, events).returned == w.returned
    decreases |events|
  {
    hide Step, Stuck;
    if events != [] {
      StuckStep(cfg, w, events[0]);
      StuckForever(cfg, Step(cfg, w, events[0]), events[1..]);
    }
  }

  // ------------------------------------------------------- from every other state it goes on

  /** Some run, the disk giving back what it stored, returns one more value. */
  ghost predicate GoesOn(cfg: Config, w: World) {
    exists events :: HonestRun(cfg, w, events) && |Run(cfg, w, events).returned| == |w.returned| + 1
  }

  /** A waiting call's inst is known, and what was sealed includes what is stored and what is being stored. */
  ghost predicate Sound(w: World) {
    && (w.stored.Some? ==> w.stored.value in w.sealed)
    && (forall id :: id in w.calls ==>
          && w.calls[id].inst in w.counters
          && (HasBlob(w.calls[id].phase) ==> Encode(w.calls[id].candidate) in w.sealed))
  }

  /** The call's value has been sealed, and its blob may come to the disk. */
  predicate HasBlob(p: Phase) {
    p == Anchoring || p == Persisting || p == StrayWrite
  }

  lemma SoundStep(cfg: Config, w: World, e: Event)
    requires Sound(w)
    ensures Sound(Step(cfg, w, e))
  {
    hide Encode, Decode, Answered;
    if e.Reply? && e.id in w.calls {
      SoundReply(cfg, w, e.id, e.outcome, e.blob);
    }
  }

  lemma SoundReply(cfg: Config, w: World, id: nat, o: Outcome, blob: Option<Bytes>)
    requires Sound(w) && id in w.calls
    ensures Sound(Answered(cfg, w, id, o, blob))
  {
    hide Encode, Decode, Answered;
    var w' := Answered(cfg, w, id, o, blob);
    ReplyMoves(cfg, w, id, o, blob);
    ReplySeals(cfg, w, id, o, blob);
    OthersSame(w, w', id);
  }

  /** A reply leaves the other calls and the objects alone. */
  lemma ReplyMoves(cfg: Config, w: World, id: nat, o: Outcome, blob: Option<Bytes>)
    requires id in w.calls
    ensures var w' := Answered(cfg, w, id, o, blob);
      && w'.calls - {id} == w.calls - {id} && (forall i :: i in w.counters ==> i in w'.counters)
      && (id in w'.calls ==> w'.calls[id].inst == w.calls[id].inst)
  {
    hide NextAnswered, RestoreAnswered, Encode;
    NextMoves(cfg, w, id, o);
    RestoreKeeps(cfg, w, id, o, blob);
  }

  lemma NextMoves(cfg: Config, w: World, id: nat, o: Outcome)
    requires id in w.calls
    ensures var w' := NextAnswered(cfg, w, id, o);
      && w'.calls - {id} == w.calls - {id} && (forall i :: i in w.counters ==> i in w'.counters)
      && (id in w'.calls ==> w'.calls[id].inst == w.calls[id].inst)
  {
    hide Encode;
  }

  /** A call goes on to the anchor or the disk with what was sealed for it. */
  lemma ReplySeals(cfg: Config, w: World, id: nat, o: Outcome, blob: Option<Bytes>)
    requires id in w.calls
    ensures var c, w' := w.calls[id], Answered(cfg, w, id, o, blob);
      && w.sealed <= w'.sealed
      && (w'.stored == w.stored || (HasBlob(c.phase) && w'.stored == Some(Encode(c.candidate))))
      && (id in w'.calls && HasBlob(w'.calls[id].phase) ==>
            w'.calls[id].candidate == c.candidate && (HasBlob(c.phase) || Encode(c.candidate) in w'.sealed))
  {
    hide Encode, Opens, RestoreAnswered;
    RestoreKeeps(cfg, w, id, o, blob);
  }

  lemma {:induction false} SoundRun(cfg: Config, w: World, events: seq<Event>)
    requires Sound(w)
    ensures Sound(Run(cfg, w, events))
    decreases |events|
  {
    hide Step, Sound;
    if events != [] {
      SoundStep(cfg, w, events[0]);
      SoundRun(cfg, Step(cfg, w, events[0]), events[1..]);
    }
  }

  lemma Then(cfg: Config, w: World, e: Event)
    requires HonestDisk(w, e)
    requires Step(cfg, w, e).returned == w.returned && GoesOn(cfg, Step(cfg, w, e))
    ensures GoesOn(cfg, w)
  {
    hide Step, HonestDisk;
    var w' := Step(cfg, w, e);
    var events :| HonestRun(cfg, w', events) && |Run(cfg, w', events).returned| == |w'.returned| + 1;
    assert ([e] + events)[1..] == events;
    assert HonestRun(cfg, w, [e] + events);
  }

  lemma PersistedGoesOn(cfg: Config, w: World, id: nat)
    requires id in w.calls && w.calls[id].phase == Persisted
    ensures GoesOn(cfg, w)
  {
    hide Encode;
    var e := Reply(id, Done, None);
    assert [e][1..] == [];
    assert HonestRun(cfg, w, [e]);
    assert Run(cfg, w, [e]) == Step(cfg, w, e);
  }

  lemma PersistingGoesOn(cfg: Config, w: World, id: nat)
    requires id in w.calls && w.calls[id].phase == Persisting
    ensures GoesOn(cfg, w)
  {
    hide GoesOn, Encode;
    PersistedGoesOn(cfg, Step(cfg, w, Reply(id, Done, None)), id);
    Then(cfg, w, Reply(id, Done, None));
  }

  lemma AnchoringGoesOn(cfg: Config, w: World, id: nat)
    requires id in w.calls && w.calls[id].phase == Anchoring && w.calls[id].candidate > w.anchor
    ensures GoesOn(cfg, w)
  {
    hide GoesOn;
    PersistingGoesOn(cfg, Step(cfg, w, Reply(id, Done, None)), id);
    Then(cfg, w, Reply(id, Done, None));
  }

  lemma EncryptingGoesOn(cfg: Config, w: World, id: nat)
    requires cfg.anchored
    requires id in w.calls && w.calls[id].phase == Encrypting && w.calls[id].candidate > w.anchor
    ensures GoesOn(cfg, w)
  {
    hide GoesOn, Encode;
    AnchoringGoesOn(cfg, Step(cfg, w, Reply(id, Done, None)), id);
    Then(cfg, w, Reply(id, Done, None));
  }

  /** An id that no waiting call has. */
  lemma {:induction false} Unused(ids: set<nat>) returns (id: nat)
    ensures id !in ids && forall i :: i in ids ==> i < id
  {
    if ids == {} {
      id := 0;
    } else {
      var i :| i in ids;
      var above := Unused(ids - {i});
      assert forall j :: j in ids ==> j == i || j in ids - {i};
      id := if above > i then above else i + 1;
    }
  }

  lemma CounterGoesOn(cfg: Config, w: World, inst: nat)
    requires cfg.anchored && inst in w.counters && w.counters[inst].value >= w.anchor
    ensures GoesOn(cfg, w)
  {
    hide GoesOn;
    var id := Unused(w.calls.Keys);
    EncryptingGoesOn(cfg, Step(cfg, w, CallNext(inst, id)), id);
    Then(cfg, w, CallNext(inst, id));
  }

  lemma ReAnchoredGoesOn(cfg: Config, w: World, id: nat)
    requires cfg.anchored && id in w.calls && w.calls[id].phase == ReAnchored && w.calls[id].candidate >= w.anchor
    requires w.calls[id].inst in w.counters
    ensures GoesOn(cfg, w)
  {
    hide GoesOn;
    CounterGoesOn(cfg, Step(cfg, w, Reply(id, Done, None)), w.calls[id].inst);
    Then(cfg, w, Reply(id, Done, None));
  }

  lemma ReAnchoringGoesOn(cfg: Config, w: World, id: nat)
    requires cfg.anchored && id in w.calls && w.calls[id].phase == ReAnchoring && w.calls[id].candidate > w.anchor
    requires w.calls[id].inst in w.counters
    ensures GoesOn(cfg, w)
  {
    hide GoesOn;
    ReAnchoredGoesOn(cfg, Step(cfg, w, Reply(id, Done, None)), id);
    Then(cfg, w, Reply(id, Done, None));
  }

  /** A restore goes on that holds a blob high enough, whatever the disk holds by now. */
  lemma DecryptingGoesOn(cfg: Config, w: World, id: nat)
    requires cfg.anchored && id in w.calls && w.calls[id].phase.Decrypting? && !Below(w, w.calls[id].phase.opens)
    requires w.calls[id].inst in w.counters
    ensures GoesOn(cfg, w)
  {
    hide GoesOn;
    ReAnchoringGoesOn(cfg, Step(cfg, w, Reply(id, Done, None)), id);
    Then(cfg, w, Reply(id, Done, None));
  }

  /** An object started anew goes on when its first value is high enough. */
  lemma FreshGoesOn(cfg: Config, w: World)
    requires cfg.anchored && cfg.initial >= w.anchor
    ensures GoesOn(cfg, w)
  {
    hide GoesOn;
    CounterGoesOn(cfg, Step(cfg, w, Start(0)), 0);
    Then(cfg, w, Start(0));
  }

  /** So does one that is restored, when the blob on disk is. */
  lemma StoredGoesOn(cfg: Config, w: World)
    requires cfg.anchored && Sound(w)
    requires w.stored.Some? && Decode(w.stored.value).Some? && Decode(w.stored.value).value >= w.anchor
    ensures GoesOn(cfg, w)
  {
    hide GoesOn, Encode, Decode;
    var w1 := Step(cfg, w, Start(0));
    var id := Unused(w1.calls.Keys);
    var w2 := Step(cfg, w1, CallRestore(0, id));
    var w3 := Step(cfg, w2, Reply(id, Done, w.stored));
    DecryptingGoesOn(cfg, w3, id);
    Then(cfg, w2, Reply(id, Done, w.stored));
    Then(cfg, w1, CallRestore(0, id));
    Then(cfg, w, Start(0));
  }

  /** So does a write that nobody waits for any more: it lands, and a restore finds it. */
  lemma StrayWriteGoesOn(cfg: Config, w: World, id: nat)
    requires cfg.anchored && Sound(w) && id in w.calls && w.calls[id].phase == StrayWrite
    requires !Below(w, Decode(Encode(w.calls[id].candidate)))
    ensures GoesOn(cfg, w)
  {
    hide GoesOn, Encode, Decode, Sound;
    SoundStep(cfg, w, Reply(id, Done, None));
    StoredGoesOn(cfg, Step(cfg, w, Reply(id, Done, None)));
    Then(cfg, w, Reply(id, Done, None));
  }

  lemma CallGoesOn(cfg: Config, w: World, id: nat)
    requires cfg.anchored && Sound(w) && id in w.calls && !Hopeless(w, w.calls[id])
    ensures GoesOn(cfg, w)
  {
    hide GoesOn, Encode, Decode;
    match w.calls[id].phase
    case Encrypting => EncryptingGoesOn(cfg, w, id);
    case Anchoring => AnchoringGoesOn(cfg, w, id);
    case Persisting => PersistingGoesOn(cfg, w, id);
    case Persisted => PersistedGoesOn(cfg, w, id);
    case Decrypting(opens) => DecryptingGoesOn(cfg, w, id);
    case ReAnchoring => ReAnchoringGoesOn(cfg, w, id);
    case ReAnchored => ReAnchoredGoesOn(cfg, w, id);
    case StrayWrite => StrayWriteGoesOn(cfg, w, id);
    case _ =>
  }

  lemma NotStuckGoesOn(cfg: Config, w: World)
    requires cfg.anchored && Sound(w) && !Stuck(cfg, w)
    ensures GoesOn(cfg, w)
  {
    hide GoesOn, Encode, Decode, Sound, Hopeless;
    if cfg.initial >= w.anchor {
      FreshGoesOn(cfg, w);
    } else if i :| i in w.counters && w.counters[i].value >= w.anchor {
      CounterGoesOn(cfg, w, i);
    } else if id :| id in w.calls && !Hopeless(w, w.calls[id]) {
      CallGoesOn(cfg, w, id);
    } else {
      StoredGoesOn(cfg, w);
    }
  }

  /**
   * Whatever has happened, an anchored counter is at a standstill, so that no honest disk, no restart and no restore
   * ever makes it return anything again, exactly when it is stuck.
   */
  lemma StandstillIffStuck(cfg: Config, anchor: int, history: seq<Event>)
    requires cfg.anchored
    ensures var w := Run(cfg, Boot(anchor), history);
      Stuck(cfg, w) <==> forall events :: HonestRun(cfg, w, events) ==> Run(cfg, w, events).returned == w.returned
  {
    hide Run, HonestRun, Stuck, Sound;
    var w := Run(cfg, Boot(anchor), history);
    if Stuck(cfg, w) {
      forall events | HonestRun(cfg, w, events) ensures Run(cfg, w, events).returned == w.returned {
        StuckForever(cfg, w, events);
      }
    } else {
      BootSound(anchor);
      SoundRun(cfg, Boot(anchor), history);
      NotStuckGoesOn(cfg, w);
      var events :| HonestRun(cfg, w, events) && |Run(cfg, w, events).returned| == |w.returned| + 1;
      assert Run(cfg, w, events).returned != w.returned;
    }
  }

  lemma BootSound(anchor: int)
    ensures Sound(Boot(anchor))
  {
  }

  /**
   * One failed write of the blob, after the anchor has taken the value, is enough to be stuck: in any state with
   * no other call waiting, where the anchor, the object and the disk are level.
   */
  lemma FailedWriteSticks(cfg: Config, w: World, inst: nat, id: nat)
    requires cfg.anchored && w.calls == map[] && w.counters.Keys == {inst}
    requires cfg.initial <= w.anchor == w.counters[inst].value
    requires w.stored.Some? ==> Decode(w.stored.value) == Some(w.anchor)
    ensures var failed := [CallNext(inst, id), Reply(id, Done, None), Reply(id, Done, None), Reply(id, Failed, None)];
            Stuck(cfg, Run(cfg, w, failed)) && Run(cfg, w, failed).returned == w.returned
  {
    hide Run, Encode, Decode;
    var c := w.counters[inst].value + 1;
    var failed := [CallNext(inst, id), Reply(id, Done, None), Reply(id, Done, None), Reply(id, Failed, None)];
    var w1 := Step(cfg, w, CallNext(inst, id));
    var w2 := Step(cfg, w1, Reply(id, Done, None));
    var w3 := Step(cfg, w2, Reply(id, Done, None));
    assert w3.calls[id] == Call(inst, Persisting, c) && w3.anchor == c;
    var w4 := Step(cfg, w3, Reply(id, Failed, None));
    assert w4.calls.Keys == {};
    RunOn(cfg, w, failed, 0, w1);
    RunOn(cfg, w1, failed, 1, w2);
    RunOn(cfg, w2, failed, 2, w3);
    RunOn(cfg, w3, failed, 3, w4);
    assert failed[0..] == failed;
  }
}
