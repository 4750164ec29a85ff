/**
 * The writer of recovery entries, as src/recovery-write.ts runs it against a create-only store: replies are lost,
 * others write first, and a run may end at any await, to be resumed from a state it saved.
 */
module RecoveryWriter {
  import opened Bytes
  import opened Placement
  import opened TreeMember
  import opened RecoveryEntry

  const MAX_BATCH_ENTRIES: nat := 500
  const MAX_PAGES: nat := 1000

  type Entries = map<Key, Envelope>

  /** A create-only store: what is there stays as it is. */
  ghost predicate Grows(a: Entries, b: Entries) {
    forall k :: k in a ==> k in b && b[k] == a[k]
  }

  /** A checked tree, a name per member, whether salted names are tried, and the salts that randomness may give. */
  datatype Job = Job(env: Env, tree: Tree, names: seq<Option<Bytes>>, fallback: bool, salts: set<Bytes>)

  ghost predicate JobReads(job: Job) {
    && TreeReads(job.env, job.tree) && |job.names| == |job.tree.leaves| < 4294967296
    && (forall i :: 0 <= i < |job.names| && job.names[i].Some? ==> 1 <= |job.names[i].value| <= MAX_NAME_BYTES)
    && (forall s :: s in job.salts ==> |s| == SALT_BYTES)
    && CollisionFreeOn(job.env.hash, Names(job))
  }

  ghost predicate IsSide(job: Job, i: nat, side: Side) {
    i < |job.tree.leaves| && i < |job.names| && LeafShape(job.tree.leaves[i]) && side in SidesOf(job.tree, i)
  }

  /** Every member has a leaf that can be read, and a place for a name. */
  ghost predicate Shaped(job: Job) {
    |job.names| == |job.tree.leaves| && forall i :: 0 <= i < |job.tree.leaves| ==> LeafShape(job.tree.leaves[i])
  }

  /** Everything an entry name of this job can be the hash of. */
  ghost function Names(job: Job): set<Bytes> {
    (set i, side | 0 <= i < |job.tree.leaves| && side in {Origin, Artifact, Side.AsIs} &&
      LeafShape(job.tree.leaves[i]) ::
       NameInput(DigestOf(job.tree, i, side), job.tree.proofHash, i, None))
    + (set i, side, s | 0 <= i < |job.tree.leaves| && side in {Origin, Artifact, Side.AsIs} && s in job.salts &&
      LeafShape(job.tree.leaves[i]) ::
       NameInput(DigestOf(job.tree, i, side), job.tree.proofHash, i, Some(s)))
  }

  // ------------------------------------------------------------------------ one sealed side

  datatype Planned = Planned(index: nat, side: Side, digest: Bytes, key: Key, envelope: Envelope, salt: Option<Bytes>,
      plaintext: Plaintext)

  function Seal(job: Job, i: nat, side: Side, salt: Option<Bytes>): Planned
    requires i < |job.tree.leaves| && i < |job.names| && LeafShape(job.tree.leaves[i])
  {
    var digest := DigestOf(job.tree, i, side);
    var key := Key(Address(job.env, digest), EntryId(job.env, digest, job.tree.proofHash, i, salt));
    var plaintext := PlaintextFor(job.env, job.tree, i, job.names[i], salt);
    Planned(i, side, digest, key, Sealed(digest, key, Some(plaintext)), salt, plaintext)
  }

  ghost predicate Proper(job: Job, p: Planned)
  {
    IsSide(job, p.index, p.side) && (p.salt.Some? ==> p.salt.value in job.salts) &&
      p == Seal(job, p.index, p.side, p.salt)
  }

  // --------------------------------------------------------------------- what progress claims

  /** What the writer keeps between runs. */
  datatype Saved = Saved(progress: seq<bv8>, salts: map<(nat, Side), Bytes>)

  /** A reader of the side's digest finds this member in the store. */
  ghost predicate Findable(job: Job, entries: Entries, i: nat, side: Side)
    requires IsSide(job, i, side)
  {
    exists key :: key in entries && FoundAt(job, entries, i, side, key)
  }

  ghost predicate FoundAt(job: Job, entries: Entries, i: nat, side: Side, key: Key)
    requires IsSide(job, i, side) && key in entries
  {
    var digest := DigestOf(job.tree, i, side);
    var found := OpenListed(job.env, digest, key, entries[key]);
    key.address == Address(job.env, digest) && found.Some? && SameMember(found.value.plaintext, Expected(job, i))
  }

  function Expected(job: Job, i: nat): Plaintext
    requires i < |job.tree.leaves| && i < |job.names|
  {
    PlaintextFor(job.env, job.tree, i, job.names[i], None)
  }

  /** The side's name, under this salt or none, is held by an entry that is not this member's. */
  ghost predicate Taken(job: Job, entries: Entries, i: nat, side: Side, salt: Option<Bytes>)
    requires IsSide(job, i, side)
  {
    var p := Seal(job, i, side, salt);
    p.key in entries && !HoldsMember(job.env, p.digest, p.key, entries[p.key], Expected(job, i))
  }

  /**
   * Kept is findable; blocked is taken, by default under both names; a salt is there because the plain name is taken.
   */
  ghost predicate SideTrue(job: Job, entries: Entries, st: Saved, i: nat, side: Side)
    requires IsSide(job, i, side) && i < |st.progress|
  {
    var state := StateOf(st.progress[i], side);
    && (state == Kept ==> Findable(job, entries, i, side))
    && ((i, side) in st.salts ==> Taken(job, entries, i, side, None))
    && ((i, side) in st.salts && state == Pending ==> st.salts[(i, side)] in job.salts)
    && (state == Blocked ==> Taken(job, entries, i, side, None))
    && (state == Blocked && job.fallback ==>
         (i, side) in st.salts && Taken(job, entries, i, side, Some(st.salts[(i, side)])))
  }

  ghost predicate Truthful(job: Job, entries: Entries, st: Saved)
  {
    |st.progress| == |job.tree.leaves| && forall i, side :: IsSide(job, i, side) ==> SideTrue(job, entries, st, i, side)
  }

  lemma SideStaysTrue(job: Job, a: Entries, b: Entries, st: Saved, i: nat, side: Side)
    requires IsSide(job, i, side) && i < |st.progress| && SideTrue(job, a, st, i, side) && Grows(a, b)
    ensures SideTrue(job, b, st, i, side)
  {
    hide JobReads, Seal, StateOf, HoldsMember, Expected, SidesOf, LeafShape;
    if StateOf(st.progress[i], side) == Kept {
      var key :| key in a && FoundAt(job, a, i, side, key);
      assert FoundAt(job, b, i, side, key);
    }
  }

  /** Nothing that others write, then or later, makes a saved state untrue. */
  lemma TruthGrows(job: Job, a: Entries, b: Entries, st: Saved)
    requires Truthful(job, a, st) && Grows(a, b)
    ensures Truthful(job, b, st)
  {
    hide JobReads, SideTrue, Grows, SidesOf, LeafShape;
    forall i, side | IsSide(job, i, side) ensures SideTrue(job, b, st, i, side) {
      SideStaysTrue(job, a, b, st, i, side);
    }
  }

  /** A fresh start claims nothing. */
  lemma StartIsTrue(job: Job, entries: Entries)
    ensures Truthful(job, entries, Saved(seq(|job.tree.leaves|, _ => 0), map[]))
  {
    hide JobReads, Findable, Taken, SidesOf, LeafShape;
  }

  lemma SidesTogether(job: Job, i: nat, a: Side, b: Side)
    requires IsSide(job, i, a) && IsSide(job, i, b)
    ensures Together(a, b)
  {
  }

  lemma MarksKept(job: Job, entries: Entries, st: Saved, i: nat, side: Side)
    requires Truthful(job, entries, st) && IsSide(job, i, side) && Findable(job, entries, i, side)
    ensures Truthful(job, entries, st.(progress := st.progress[i := Mark(st.progress[i], side, true)]))
  {
    hide JobReads, Findable, Taken, SidesOf, LeafShape, StateOf, Mark;
    var st' := st.(progress := st.progress[i := Mark(st.progress[i], side, true)]);
    forall j, other | IsSide(job, j, other) ensures SideTrue(job, entries, st', j, other) {
      assert SideTrue(job, entries, st, j, other);
      if j == i {
        SidesTogether(job, i, side, other);
        MarksOneSide(st.progress[i], side, other);
      }
    }
  }

  lemma MarksBlocked(job: Job, entries: Entries, st: Saved, i: nat, side: Side)
    requires Truthful(job, entries, st) && IsSide(job, i, side) && Taken(job, entries, i, side, None)
    requires job.fallback ==> (i, side) in st.salts && Taken(job, entries, i, side, Some(st.salts[(i, side)]))
    ensures Truthful(job, entries, st.(progress := st.progress[i := Mark(st.progress[i], side, false)]))
  {
    hide JobReads, Findable, Taken, SidesOf, LeafShape, StateOf, Mark;
    var st' := st.(progress := st.progress[i := Mark(st.progress[i], side, false)]);
    forall j, other | IsSide(job, j, other) ensures SideTrue(job, entries, st', j, other) {
      assert SideTrue(job, entries, st, j, other);
      if j == i {
        SidesTogether(job, i, side, other);
        MarksOneSide(st.progress[i], side, other);
      }
    }
  }

  lemma SetsSalt(job: Job, entries: Entries, st: Saved, i: nat, side: Side, salt: Bytes)
    requires Truthful(job, entries, st) && IsSide(job, i, side) && Taken(job, entries, i, side, None)
    requires StateOf(st.progress[i], side) == Kept || ((i, side) !in st.salts && salt in job.salts && job.fallback)
    ensures Truthful(job, entries, st.(salts := st.salts[(i, side) := salt]))
  {
    hide JobReads, Findable, Taken, SidesOf, LeafShape, StateOf, Mark;
    var st' := st.(salts := st.salts[(i, side) := salt]);
    forall j, other | IsSide(job, j, other) ensures SideTrue(job, entries, st', j, other) {
      assert SideTrue(job, entries, st, j, other);
    }
  }

  // ----------------------------------------------------------------- why an answer is believed

  lemma JobHas(job: Job, i: nat)
    requires JobReads(job) && i < |job.tree.leaves|
    ensures i < |job.names| && LeafShape(job.tree.leaves[i]) && TreeReads(job.env, job.tree)
    ensures job.names[i].Some? ==> 1 <= |job.names[i].value| <= MAX_NAME_BYTES
  {
    hide CollisionFreeOn, Names, LeafShape;
  }

  lemma SealOpens(job: Job, i: nat, side: Side, salt: Option<Bytes>)
    requires i < |job.tree.leaves| && i < |job.names| && LeafShape(job.tree.leaves[i])
    ensures var p := Seal(job, i, side, salt);
      && Open(p.digest, p.key, p.envelope) == Some(p.plaintext)
      && EntryIdOf(job.env, p.digest, p.plaintext) == p.key.entryId
      && p.plaintext == PlaintextFor(job.env, job.tree, i, job.names[i], salt)
      && p.plaintext.member.leaf == job.tree.leaves[i]
      && SameMember(p.plaintext, Expected(job, i)) && p.digest == DigestOf(job.tree, i, side)
  {
    hide LeafShape, NameInput;
  }

  lemma SealsReadable(job: Job, i: nat, side: Side, salt: Option<Bytes>)
    requires JobReads(job) && IsSide(job, i, side) && (salt.Some? ==> |salt.value| == SALT_BYTES)
    ensures var p := Seal(job, i, side, salt); OpenListed(job.env, p.digest, p.key, p.envelope).Some?
    ensures var p := Seal(job, i, side, salt);
      SameMember(OpenListed(job.env, p.digest, p.key, p.envelope).value.plaintext, Expected(job, i))
  {
    hide PlaintextReads, TreeReads, LeafShape, JobReads, Seal, PlaintextFor, Expected, SameMember, EntryIdOf, Open;
    hide SidesOf, DigestOf;
    JobHas(job, i);
    PlaintextForReads(job.env, job.tree, i, job.names[i], salt);
    SealOpens(job, i, side, salt);
    LeafHasDigest(job, i, side);
  }

  lemma InNames(job: Job, p: Planned)
    requires Proper(job, p)
    ensures NameInput(p.digest, job.tree.proofHash, p.index, p.salt) in Names(job)
  {
    hide JobReads, NameInput;
    assert p.side in {Origin, Artifact, Side.AsIs};
  }

  /** One name is one member's, under one digest and one salt. */
  lemma OneName(job: Job, p: Planned, q: Planned)
    requires JobReads(job) && Proper(job, p) && Proper(job, q) && p.key == q.key
    ensures p.index == q.index && p.digest == q.digest && p.salt == q.salt
  {
    hide NameInput, Names, CollisionFreeOn;
    InNames(job, p);
    InNames(job, q);
    OneInput(job.env.hash, Names(job), NameInput(p.digest, job.tree.proofHash, p.index, p.salt),
      NameInput(q.digest, job.tree.proofHash, q.index, q.salt));
    NameTells(p.digest, job.tree.proofHash, p.index, p.salt, q.digest, job.tree.proofHash, q.index, q.salt);
  }

  /** "created": what is stored there now is this member's own entry, or the same one's under the same digest. */
  lemma CreatedIsFindable(job: Job, entries: Entries, p: Planned, q: Planned)
    requires JobReads(job) && Proper(job, p) && Proper(job, q) && p.key == q.key && q.key in entries
    requires entries[q.key] == q.envelope
    ensures Findable(job, entries, p.index, p.side)
  {
    hide Names, CollisionFreeOn, OpenListed, NameInput, TreeReads, StateOf;
    OneName(job, p, q);
    SealsReadable(job, q.index, q.side, q.salt);
    assert FoundAt(job, entries, p.index, p.side, p.key);
  }

  /** "exists", and the stored envelope passes the writer's test. */
  lemma HeldIsFindable(job: Job, entries: Entries, p: Planned)
    requires Proper(job, p) && p.key in entries
    requires HoldsMember(job.env, p.digest, p.key, entries[p.key], p.plaintext)
    ensures Findable(job, entries, p.index, p.side)
  {
    hide Names, CollisionFreeOn, HoldsMember, OpenListed, NameInput, TreeReads, StateOf;
    LeafHasDigest(job, p.index, p.side);
    HeldIsListed(job.env, p.digest, p.key, entries[p.key], p.plaintext);
    assert FoundAt(job, entries, p.index, p.side, p.key);
  }

  lemma LeafHasDigest(job: Job, i: nat, side: Side)
    requires IsSide(job, i, side)
    ensures var leaf, d := job.tree.leaves[i], DigestOf(job.tree, i, side);
      LeafShape(leaf) && (leaf[1..33] == d || leaf[33..65] == d)
  {
  }

  lemma SaltNoMatter(job: Job, digest: Bytes, key: Key, e: Envelope, i: nat, salt: Option<Bytes>)
    requires i < |job.tree.leaves| && i < |job.names|
    ensures HoldsMember(job.env, digest, key, e, PlaintextFor(job.env, job.tree, i, job.names[i], salt)) <==>
            HoldsMember(job.env, digest, key, e, Expected(job, i))
  {
    hide PlaintextReads, EntryIdOf;
  }

  // ------------------------------------------------------------------------------ the counts

  function InState(b: bv8, sides: seq<Side>, want: SideState): nat
    requires 1 <= |sides| <= 2
  {
    (if StateOf(b, sides[0]) == want then 1 else 0) + (if |sides| == 2 && StateOf(b, sides[1]) == want then 1 else 0)
  }

  /** The sides of the first `n` members in that state. */
  ghost function Count(job: Job, progress: seq<bv8>, want: SideState, n: nat): nat
    requires Shaped(job) && n <= |job.tree.leaves| == |progress|
  {
    if n == 0 then 0 else Count(job, progress, want, n - 1) + InState(progress[n - 1], SidesOf(job.tree, n - 1), want)
  }

  ghost function Sides(job: Job, n: nat): nat
    requires Shaped(job) && n <= |job.tree.leaves|
  {
    if n == 0 then 0 else Sides(job, n - 1) + |SidesOf(job.tree, n - 1)|
  }

  /** How many sides are kept. */
  ghost function KeptOf(job: Job, progress: seq<bv8>): nat {
    if Shaped(job) && |progress| == |job.tree.leaves| then Count(job, progress, Kept, |progress|) else 0
  }

  /** Every side is in exactly one state. */
  lemma {:induction false} StatesPartition(job: Job, progress: seq<bv8>, n: nat)
    requires Shaped(job) && n <= |job.tree.leaves| == |progress|
    ensures Count(job, progress, Kept, n) + Count(job, progress, Blocked, n) + Count(job, progress, Pending, n) ==
      Sides(job, n)
  {
    hide JobReads, StateOf;
    if n > 0 {
      StatesPartition(job, progress, n - 1);
    }
  }

  lemma {:induction false} CountSame(job: Job, a: seq<bv8>, b: seq<bv8>, want: SideState, n: nat)
    requires Shaped(job) && n <= |job.tree.leaves| == |a| == |b| && forall j :: 0 <= j < n ==> a[j] == b[j]
    ensures Count(job, a, want, n) == Count(job, b, want, n)
  {
    hide JobReads, StateOf, InState, SidesOf;
    if n > 0 {
      CountSame(job, a, b, want, n - 1);
    }
  }

  lemma InStateMarked(job: Job, i: nat, side: Side, b: bv8)
    requires IsSide(job, i, side) && StateOf(b, side) == Pending
    ensures InState(Mark(b, side, true), SidesOf(job.tree, i), Kept) == InState(b, SidesOf(job.tree, i), Kept) + 1
    ensures InState(Mark(b, side, false), SidesOf(job.tree, i), Kept) == InState(b, SidesOf(job.tree, i), Kept)
  {
    hide StateOf, Mark, LeafShape, InState, SidesOf;
    var kept, blocked := Mark(b, side, true), Mark(b, side, false);
    MarksOneSide(b, side, side);
    var sides := SidesOf(job.tree, i);
    if sides != [side] {
      var other := if side == Origin then Artifact else Origin;
      OtherSide(job, i, side, other);
      MarksOneSide(b, side, other);
      InStateTwo(b, kept, sides, side, other);
      InStateTwo(b, blocked, sides, side, other);
    } else {
      InStateOne(b, kept, side);
      InStateOne(b, blocked, side);
    }
  }

  lemma OtherSide(job: Job, i: nat, side: Side, other: Side)
    requires IsSide(job, i, side) && SidesOf(job.tree, i) != [side] &&
      other == if side == Origin then Artifact else Origin
    ensures Together(side, other) && other != side
    ensures SidesOf(job.tree, i) == [side, other] || SidesOf(job.tree, i) == [other, side]
  {
    hide LeafShape;
  }

  lemma InStateTwo(b: bv8, c: bv8, sides: seq<Side>, side: Side, other: Side)
    requires (sides == [side, other] || sides == [other, side]) && StateOf(c, other) == StateOf(b, other)
    requires StateOf(b, side) == Pending
    ensures InState(c, sides, Kept) == InState(b, sides, Kept) + if StateOf(c, side) == Kept then 1 else 0
  {
    hide StateOf;
  }

  lemma InStateOne(b: bv8, c: bv8, side: Side)
    requires StateOf(b, side) == Pending
    ensures InState(c, [side], Kept) == InState(b, [side], Kept) + if StateOf(c, side) == Kept then 1 else 0
  {
    hide StateOf;
  }

  /** A pending side that is marked moves from one count to one other. */
  lemma {:induction false} CountMarked(job: Job, a: seq<bv8>, i: nat, side: Side, kept: bool, n: nat)
    requires Shaped(job) && IsSide(job, i, side) && n <= |job.tree.leaves| == |a| && StateOf(a[i], side) == Pending
    ensures Count(job, a[i := Mark(a[i], side, kept)], Kept, n) ==
      Count(job, a, Kept, n) + if i < n && kept then 1 else 0
  {
    hide JobReads, StateOf, Mark, InState, SidesOf, LeafShape;
    var b := a[i := Mark(a[i], side, kept)];
    if i >= n {
      CountSame(job, a, b, Kept, n);
    } else if i == n - 1 {
      CountSame(job, a, b, Kept, n - 1);
      InStateMarked(job, i, side, a[i]);
    } else {
      CountMarked(job, a, i, side, kept, n - 1);
    }
  }

  // --------------------------------------------------------------------------- slots of a batch

  predicate SameSlot(p: Planned, q: Planned) {
    p.index == q.index && p.side == q.side
  }

  /** No side is in the batch twice. */
  ghost predicate Unique(batch: seq<Planned>) {
    forall a, b :: 0 <= a < b < |batch| ==> !SameSlot(batch[a], batch[b])
  }

  ghost predicate IsPending(progress: seq<bv8>, p: Planned) {
    p.index < |progress| && StateOf(progress[p.index], p.side) == Pending
  }

  lemma OthersStayPending(job: Job, progress: seq<bv8>, p: Planned, q: Planned, kept: bool)
    requires IsSide(job, p.index, p.side) && IsSide(job, q.index, q.side) && !SameSlot(p, q)
    requires p.index < |progress| && IsPending(progress, q)
    ensures IsPending(progress[p.index := Mark(progress[p.index], p.side, kept)], q)
  {
    hide StateOf, Mark, SidesOf, LeafShape;
    if p.index == q.index {
      SidesTogether(job, p.index, p.side, q.side);
      MarksOneSide(progress[p.index], p.side, q.side);
    }
  }

  lemma TakenGrows(job: Job, a: Entries, b: Entries, i: nat, side: Side, salt: Option<Bytes>)
    requires IsSide(job, i, side) && Taken(job, a, i, side, salt) && Grows(a, b)
    ensures Taken(job, b, i, side, salt)
  {
    hide JobReads, Seal, HoldsMember, Expected, SidesOf, LeafShape;
  }

  // ---------------------------------------------------------------------------------- answers

  datatype Answer = Created | Exists(envelope: Envelope)

  ghost predicate AnswerTrue(entries: Entries, batch: seq<Planned>, k: Key, a: Answer) {
    && k in entries
    && match a {
         case Created => exists q :: q in batch && q.key == k && entries[k] == q.envelope
         case Exists(e) => entries[k] == e
       }
  }

  /** Every entry of the batch is answered. */
  ghost predicate AllAnswered(batch: seq<Planned>, answers: map<Key, Answer>) {
    forall p :: p in batch ==> p.key in answers
  }

  ghost predicate AnswersTrue(entries: Entries, batch: seq<Planned>, answers: map<Key, Answer>) {
    forall k :: k in answers ==> AnswerTrue(entries, batch, k, answers[k])
  }

  /** What becomes of one posted entry: done and answered, or not answered with or without effect. */
  datatype Fate = Full | Mute(effect: bool)
  datatype Reply = Answered | Lost | Refused

  /** One page of a listing: the keys shown, and the cursor; or a failed read. */
  datatype Shown = NoPage | Keys(keys: seq<Key>, next: Option<Bytes>)

  /**
   * What meets the writer at one await: others' writes first, a deadline that has passed or not, and the reply to
   * a request, entry by entry, or to the reads of an address. A script of these that ends cuts the run off there.
   */
  datatype Move = Move(foreign: Entries, late: bool, reply: Reply, fates: nat -> Fate, pages: Bytes -> seq<Shown>)

  /** The pages of an address to their end: nothing else is shown, no read fails, the cursor moves. */
  predicate Complete(shown: seq<Shown>, address: Bytes, after: Option<Bytes>, left: nat) {
    && left > 0 && shown != [] && shown[0].Keys? && (forall k :: k in shown[0].keys ==> k.address == address)
    && (shown[0].next.Some? ==>
          Advances(after, shown[0].next.value) && Complete(shown[1..], address, shown[0].next, left - 1))
  }

  /** Nothing goes amiss at this await, whatever others write. */
  ghost predicate Calm(m: Move) {
    && !m.late && m.reply == Answered && (forall k :: m.fates(k).Full?)
    && forall address :: Complete(m.pages(address), address, None, MAX_PAGES)
  }

  /** The time never runs out, and the site takes writes. */
  ghost predicate Willing(script: seq<Move>) {
    forall m :: m in script ==> !m.late && m.reply != Refused
  }

  /** How many moves something goes amiss at. */
  ghost function Amiss(script: seq<Move>): nat {
    if script == [] then 0 else (if Calm(script[0]) then 0 else 1) + Amiss(script[1..])
  }

  /** What is still to come of a script: no more is amiss in it than in the whole. */
  ghost predicate Follows(a: seq<Move>, b: seq<Move>) {
    Willing(b) && Amiss(b) <= Amiss(a)
  }

  /** Something went amiss in between. */
  ghost predicate Spoilt(a: seq<Move>, b: seq<Move>) {
    Amiss(b) < Amiss(a)
  }

  lemma NextFollows(script: seq<Move>)
    requires script != [] && Willing(script)
    ensures Follows(script, script[1..]) && !script[0].late && script[0].reply != Refused
    ensures Calm(script[0]) || Spoilt(script, script[1..])
  {
    hide Calm;
  }

  lemma NoneFollows(script: seq<Move>)
    ensures Willing(script) ==> Follows(script, script)
  {
  }

  /** One part of a run after another. */
  lemma Onward(willing: bool, a: seq<Move>, b: seq<Move>, c: seq<Move>)
    requires willing ==> Follows(a, b) && (Willing(b) ==> Follows(b, c))
    ensures willing ==> Follows(a, c) && Willing(b) && (Spoilt(a, b) || Spoilt(b, c) ==> Spoilt(a, c))
  {
    hide Amiss;
  }

  lemma Lessens(willing: bool, a: seq<Move>, b: seq<Move>)
    requires willing ==> Willing(a) && Follows(a, b)
    ensures willing ==> Amiss(b) + (if Spoilt(a, b) then 1 else 0) <= Amiss(a)
  {
    hide Amiss;
  }

  lemma FollowsWilling(a: seq<Move>, b: seq<Move>)
    requires Follows(a, b)
    ensures Willing(b)
  {
  }

  lemma FollowsOn(a: seq<Move>, b: seq<Move>, c: seq<Move>)
    requires Follows(a, b) && Follows(b, c)
    ensures Follows(a, c) && (Spoilt(a, b) || Spoilt(b, c) ==> Spoilt(a, c))
  {
    hide Amiss, Willing;
  }

  function ItemsAt(entries: Entries, keys: seq<Key>): seq<Item> {
    if keys == [] then []
    else (if keys[0] in entries then [Item(keys[0], entries[keys[0]])] else []) + ItemsAt(entries, keys[1..])
  }

  function PagesAt(entries: Entries, shown: seq<Shown>): seq<PageReply> {
    if shown == [] then []
    else
      var page := match shown[0] case NoPage => ReadFailed case Keys(keys, next) => Page(ItemsAt(entries, keys), next);
      [page] + PagesAt(entries, shown[1..])
  }

  lemma {:induction false} ItemsAreStored(entries: Entries, keys: seq<Key>)
    ensures forall item :: item in ItemsAt(entries, keys) ==> item.key in entries && entries[item.key] == item.envelope
  {
    if keys != [] {
      ItemsAreStored(entries, keys[1..]);
    }
  }

  /** An honest listing shows what is stored. */
  lemma {:induction false} PagesAreStored(entries: Entries, shown: seq<Shown>, item: Item)
    requires InPages(PagesAt(entries, shown), item)
    ensures item.key in entries && entries[item.key] == item.envelope
  {
    var pages := PagesAt(entries, shown);
    var k :| 0 <= k < |pages| && pages[k].Page? && item in pages[k].items;
    if k == 0 {
      ItemsAreStored(entries, shown[0].keys);
    } else {
      assert pages[1..] == PagesAt(entries, shown[1..]);
      assert pages[1..][k - 1] == pages[k];
      PagesAreStored(entries, shown[1..], item);
    }
  }

  lemma {:induction false} ItemsAreShown(entries: Entries, keys: seq<Key>)
    ensures forall item :: item in ItemsAt(entries, keys) ==> item.key in keys
  {
    if keys != [] {
      ItemsAreShown(entries, keys[1..]);
    }
  }

  /** A complete listing is read, whatever is stored under it. */
  lemma {:induction false} CompleteIsRead(
    env: Env, digest: Bytes, entries: Entries, shown: seq<Shown>, after: Option<Bytes>, left: nat)
    requires Complete(shown, Address(env, digest), after, left)
    ensures Collected(env, digest, PagesAt(entries, shown), after, left).Ok?
    decreases left
  {
    hide Address, Opened, Advances;
    var pages, items := PagesAt(entries, shown), ItemsAt(entries, shown[0].keys);
    ItemsAreShown(entries, shown[0].keys);
    OpenedWhen(env, digest, items);
    assert pages[0] == Page(items, shown[0].next) && pages[1..] == PagesAt(entries, shown[1..]);
    if shown[0].next.Some? {
      CompleteIsRead(env, digest, entries, shown[1..], shown[0].next, left - 1);
    }
  }

  /** A page of the address shows the key, before its end. */
  predicate Shows(shown: seq<Shown>, key: Key) {
    shown != [] && shown[0].Keys? && (key in shown[0].keys || (shown[0].next.Some? && Shows(shown[1..], key)))
  }

  lemma {:induction false} ItemsHold(entries: Entries, keys: seq<Key>, key: Key)
    requires key in keys && key in entries
    ensures Item(key, entries[key]) in ItemsAt(entries, keys)
  {
    if keys[0] != key {
      ItemsHold(entries, keys[1..], key);
    }
  }

  /** What is shown and opens is collected. */
  lemma {:induction false} ShownIsCollected(env: Env, digest: Bytes, entries: Entries, shown: seq<Shown>,
      after: Option<Bytes>, left: nat, key: Key)
    requires Collected(env, digest, PagesAt(entries, shown), after, left).Ok? && Shows(shown, key) && key in entries
    requires OpenListed(env, digest, key, entries[key]).Some?
    ensures OpenListed(env, digest, key, entries[key]).value in
      Collected(env, digest, PagesAt(entries, shown), after, left).value
    decreases |shown|
  {
    hide OpenListed, Address, Opened, Advances;
    var pages := PagesAt(entries, shown);
    assert pages[0] == Page(ItemsAt(entries, shown[0].keys), shown[0].next);
    assert pages[1..] == PagesAt(entries, shown[1..]);
    if key in shown[0].keys {
      ItemsHold(entries, shown[0].keys, key);
      OpenedIs(env, digest, pages[0].items);
    } else {
      ShownIsCollected(env, digest, entries, shown[1..], shown[0].next, left - 1, key);
    }
  }

  /** At this read, over this store, the pages of the side's address show no entry that is this member's. */
  ghost predicate Unshown(job: Job, e: Entries, m: Move, p: Planned)
    requires IsSide(job, p.index, p.side)
  {
    forall key :: Shows(m.pages(Address(job.env, DigestOf(job.tree, p.index, p.side))), key) && key in e ==>
      !FoundAt(job, e, p.index, p.side, key)
  }

  /** The address was read, at some time between two states of the store, and no entry of this member's was shown. */
  ghost predicate LookedFor(job: Job, a: Entries, b: Entries, script: seq<Move>, p: Planned) {
    IsSide(job, p.index, p.side) && exists m, e :: m in script && Grows(a, e) && Grows(e, b) && Unshown(job, e, m, p)
  }

  lemma LookedLater(job: Job, a: Entries, a': Entries, b: Entries, b': Entries, script: seq<Move>, whole: seq<Move>,
      p: Planned)
    requires LookedFor(job, a, b, script, p) && Grows(a', a) && Grows(b, b')
    requires forall m :: m in script ==> m in whole
    ensures LookedFor(job, a', b', whole, p)
  {
    hide Grows, Unshown, IsSide;
    var m, e :| m in script && Grows(a, e) && Grows(e, b) && Unshown(job, e, m, p);
    GrowsOn(a', a, e);
    GrowsOn(e, b, b');
  }

  // ------------------------------------------------------------------- what stays settled

  /** A side that is kept or blocked stays as it is. */
  ghost predicate Stays(job: Job, a: seq<bv8>, b: seq<bv8>) {
    && |a| == |b|
    && forall i: nat, side :: IsSide(job, i, side) && i < |a| && StateOf(a[i], side) != Pending ==>
         StateOf(b[i], side) == StateOf(a[i], side)
  }

  lemma StaysSame(job: Job, a: seq<bv8>)
    ensures Stays(job, a, a)
  {
  }

  lemma StaysOn(job: Job, a: seq<bv8>, b: seq<bv8>, c: seq<bv8>)
    requires Stays(job, a, b) && Stays(job, b, c)
    ensures Stays(job, a, c)
  {
    hide StateOf, IsSide;
  }

  lemma StaysMarked(job: Job, a: seq<bv8>, p: Planned, kept: bool)
    requires IsSide(job, p.index, p.side) && IsPending(a, p)
    ensures Stays(job, a, MarkedAs(a, p, kept)) && !IsPending(MarkedAs(a, p, kept), p)
  {
    hide StateOf, Mark, SidesOf, LeafShape;
    MarksOneSide(a[p.index], p.side, p.side);
    forall j: nat, other | IsSide(job, j, other) && j == p.index && other != p.side
      ensures StateOf(Mark(a[j], p.side, kept), other) == StateOf(a[j], other)
    {
      SidesTogether(job, j, p.side, other);
      MarksOneSide(a[j], p.side, other);
    }
  }

  lemma StaysOne(job: Job, a: seq<bv8>, b: seq<bv8>, p: Planned)
    requires Proper(job, p) && IsPending(a, p) && OneMarked(a, b, p)
    ensures Stays(job, a, b)
  {
    hide Proper, Stays, IsPending, IsSide, MarkedAs;
    ProperSide(job, p);
    if b == a {
      StaysSame(job, a);
    } else if b == MarkedAs(a, p, true) {
      StaysMarked(job, a, p, true);
    } else {
      StaysMarked(job, a, p, false);
    }
  }

  /** All of them are settled, but for some of those that are left. */
  ghost predicate SettledBut(progress: seq<bv8>, ps: seq<Planned>, left: seq<Planned>) {
    forall p :: p in ps ==> !IsPending(progress, p) || p in left
  }

  lemma SettledStays(job: Job, a: seq<bv8>, b: seq<bv8>, ps: seq<Planned>, left: seq<Planned>)
    requires Stays(job, a, b) && SettledBut(a, ps, left) && forall p :: p in ps ==> Proper(job, p)
    ensures SettledBut(b, ps, left)
  {
    hide StateOf, Proper, IsSide;
    forall p | p in ps ensures !IsPending(b, p) || p in left {
      ProperSide(job, p);
    }
  }

  lemma SettledMore(progress: seq<bv8>, ps: seq<Planned>, left: seq<Planned>, p: Planned, left': seq<Planned>)
    requires SettledBut(progress, ps, left) && (!IsPending(progress, p) || p in left')
    requires forall q :: q in left ==> q in left'
    ensures SettledBut(progress, ps + [p], left')
  {
    hide IsPending;
  }

  lemma SettledThrough(progress: seq<bv8>, ps: seq<Planned>, left: seq<Planned>, left': seq<Planned>)
    requires SettledBut(progress, ps, left) && SettledBut(progress, left, left')
    ensures SettledBut(progress, ps, left')
  {
    hide IsPending;
  }

  /** Those left were sealed again, and settled so. */
  lemma SettledSlots(progress: seq<bv8>, ps: seq<Planned>, left: seq<Planned>, again: seq<Planned>)
    requires SettledBut(progress, ps, left) && SettledBut(progress, again, []) && SameSlots(left, again)
    ensures SettledBut(progress, ps, [])
  {
    hide StateOf;
    forall p | p in ps ensures !IsPending(progress, p) {
      if p in left {
        var q :| q in again && SameSlot(p, q);
      }
    }
  }

  lemma SettledSelf(progress: seq<bv8>, ps: seq<Planned>)
    ensures SettledBut(progress, ps, ps)
  {
  }

  lemma SettledNone(progress: seq<bv8>)
    ensures SettledBut(progress, [], [])
  {
  }

  ghost predicate SameSlots(ps: seq<Planned>, qs: seq<Planned>) {
    forall p :: p in ps ==> exists q :: q in qs && SameSlot(p, q)
  }

  lemma NoSlots()
    ensures SameSlots([], [])
  {
  }

  lemma SlotsMore(ps: seq<Planned>, qs: seq<Planned>, p: Planned, q: Planned)
    requires SameSlots(ps, qs) && SameSlot(p, q)
    ensures SameSlots(ps + [p], qs + [q])
  {
    forall x | x in ps + [p] ensures exists y :: y in qs + [q] && SameSlot(x, y) {
      if x in ps {
        var y :| y in qs && SameSlot(x, y);
        assert y in qs + [q];
      } else {
        assert q in qs + [q];
      }
    }
  }

  /** No side of the first `n` members is pending. */
  ghost predicate NonePending(job: Job, progress: seq<bv8>, n: nat) {
    forall i: nat, side :: i < n && i < |progress| && IsSide(job, i, side) ==> StateOf(progress[i], side) != Pending
  }

  lemma NonePendingNone(job: Job, progress: seq<bv8>)
    ensures NonePending(job, progress, 0)
  {
  }

  lemma NonePendingStays(job: Job, a: seq<bv8>, b: seq<bv8>, n: nat)
    requires Stays(job, a, b) && NonePending(job, a, n)
    ensures NonePending(job, b, n)
  {
    hide StateOf, IsSide;
  }

  /** A batch that held all that was pending of some members, settled. */
  lemma NonePendingMore(job: Job, a: seq<bv8>, b: seq<bv8>, at: nat, to: nat, batch: seq<Planned>)
    requires NonePending(job, a, at) && Covers(job, a, at, to, batch) && Stays(job, a, b)
    requires SettledBut(b, batch, [])
    ensures NonePending(job, b, to)
  {
    hide StateOf, IsSide;
    forall i: nat, side | i < to && i < |b| && IsSide(job, i, side) ensures StateOf(b[i], side) != Pending {
      if i >= at && StateOf(a[i], side) == Pending {
        var p :| p in batch && p.index == i && p.side == side;
        assert !IsPending(b, p);
      }
    }
  }

  lemma {:induction false} NonePendingCounts(job: Job, progress: seq<bv8>, n: nat)
    requires Shaped(job) && n <= |job.tree.leaves| == |progress| && NonePending(job, progress, |progress|)
    ensures Count(job, progress, Pending, n) == 0
  {
    hide StateOf;
    if n > 0 {
      NonePendingCounts(job, progress, n - 1);
      var sides := SidesOf(job.tree, n - 1);
      assert forall side :: side in sides ==> IsSide(job, n - 1, side);
      assert sides[0] in sides && (|sides| == 2 ==> sides[1] in sides);
    }
  }

  // ------------------------------------------------------------------- salts of kept sides

  ghost function SaltsOf(st: Saved, i: nat, sides: seq<Side>, k: nat): (n: nat)
    requires i < |st.progress| && k <= |sides|
    ensures n <= StatesOf(st.progress[i], sides, Kept, k)
  {
    if k == 0 then 0 else
      SaltsOf(st, i, sides, k - 1)
        + if StateOf(st.progress[i], sides[k - 1]) == Kept && (i, sides[k - 1]) in st.salts then 1 else 0
  }

  /** The kept sides of the first `n` members that have a salt. */
  ghost function Salted(job: Job, st: Saved, n: nat): nat
    requires Shaped(job) && n <= |job.tree.leaves| == |st.progress|
  {
    if n == 0 then 0
    else Salted(job, st, n - 1) + SaltsOf(st, n - 1, SidesOf(job.tree, n - 1), |SidesOf(job.tree, n - 1)|)
  }

  lemma SaltedNothing(job: Job, st: Saved)
    requires Shaped(job) && |job.tree.leaves| == |st.progress|
    ensures Salted(job, st, 0) == 0
  {
  }

  lemma SaltedNext(job: Job, st: Saved, i: nat)
    requires Shaped(job) && i < |job.tree.leaves| == |st.progress|
    ensures var sides := SidesOf(job.tree, i);
      Salted(job, st, i + 1) == Salted(job, st, i) + SaltsOf(st, i, sides, |sides|)
  {
    hide StateOf, SaltsOf;
  }

  /** The own entry that was found is where it was found, with that salt. */
  ghost predicate OwnThere(job: Job, entries: Entries, p: Planned, own: Own) {
    && IsSide(job, p.index, p.side) && own.key in entries && FoundAt(job, entries, p.index, p.side, own.key)
    && OpenListed(job.env, DigestOf(job.tree, p.index, p.side), own.key, entries[own.key]).value.plaintext.salt ==
         own.salt
  }

  lemma OwnIsThere(job: Job, entries: Entries, shown: seq<Shown>, p: Planned, item: Item, f: Recovered)
    requires Proper(job, p) && InPages(PagesAt(entries, shown), item)
    requires item.key.address == Address(job.env, p.digest)
    requires OpenListed(job.env, p.digest, item.key, item.envelope) == Some(f)
    requires SameMember(f.plaintext, p.plaintext)
    ensures OwnThere(job, entries, p, Own(f.key, f.plaintext.salt))
  {
    hide Names, CollisionFreeOn, NameInput, TreeReads, StateOf, InPages, PagesAt, PlaintextReads, EntryIdOf;
    PagesAreStored(entries, shown, item);
  }

  lemma OwnIsFindable(job: Job, entries: Entries, p: Planned, own: Own)
    requires OwnThere(job, entries, p, own)
    ensures IsSide(job, p.index, p.side) && Findable(job, entries, p.index, p.side)
  {
    hide FoundAt, IsSide;
  }

  /** What the salts are once an own entry was found: with its salt, if it has one. */
  ghost predicate TakenOver(job: Job, entries: Entries, p: Planned, own: Own, a: map<(nat, Side), Bytes>,
      b: map<(nat, Side), Bytes>)
  {
    OwnThere(job, entries, p, own) && b == if own.salt.Some? then a[(p.index, p.side) := own.salt.value] else a
  }

  lemma NothingShown(job: Job, entries: Entries, m: Move, p: Planned)
    requires Proper(job, p)
    requires var pages := PagesAt(entries, m.pages(Address(job.env, p.digest)));
      var all := Collected(job.env, p.digest, pages, None, MAX_PAGES);
      all.Ok? && forall f :: f in all.value ==> !SameMember(f.plaintext, p.plaintext)
    ensures IsSide(job, p.index, p.side) && Unshown(job, entries, m, p)
  {
    hide OpenListed, Collected, PagesAt, Address, Shows;
    var shown := m.pages(Address(job.env, p.digest));
    forall key | Shows(shown, key) && key in entries ensures !FoundAt(job, entries, p.index, p.side, key) {
      if OpenListed(job.env, p.digest, key, entries[key]).Some? {
        ShownIsCollected(job.env, p.digest, entries, shown, None, MAX_PAGES, key);
      }
    }
  }

  // ------------------------------------------------------------------------------- the writer

  /** What holds of a run between any two awaits. */
  ghost predicate Sane(job: Job, entries: Entries, st: Saved, saved: seq<Saved>, random: seq<Bytes>) {
    && JobReads(job) && Truthful(job, entries, st)
    && (forall s :: s in saved ==> Truthful(job, entries, s)) && (forall r :: r in random ==> r in job.salts)
  }

  lemma SaneGrows(job: Job, a: Entries, b: Entries, st: Saved, saved: seq<Saved>, random: seq<Bytes>)
    requires Sane(job, a, st, saved, random) && Grows(a, b)
    ensures Sane(job, b, st, saved, random)
  {
    hide JobReads, Truthful, Grows;
    TruthGrows(job, a, b, st);
    forall s | s in saved ensures Truthful(job, b, s) {
      TruthGrows(job, a, b, s);
    }
  }

  /** A batch as it goes out: sealed sides of this job, each once, none of them settled yet. */
  ghost predicate Ready(job: Job, st: Saved, batch: seq<Planned>)
  {
    && Unique(batch)
    && forall p :: p in batch ==> Proper(job, p) && IsPending(st.progress, p) && SaltKnown(st, p)
  }

  predicate SaltKnown(st: Saved, p: Planned) {
    p.salt.Some? ==> (p.index, p.side) in st.salts && st.salts[(p.index, p.side)] == p.salt.value
  }

  datatype Report = Report(entries: nat, kept: nat, written: nat, alreadyThere: nat, salted: nat, blocked: nat,
      pending: nat, state: Saved, done: bool)

  class Writer {
    const job: Job
    // The world: the store, what is still to come, the random salts, and whether the run has been cut off.
    var entries: Entries
    var script: seq<Move>
    var random: seq<Bytes>
    var crashed: bool
    // The writer's own state.
    var progress: seq<bv8>
    var salts: map<(nat, Side), Bytes>
    var written: nat
    var alreadyThere: nat
    var stopped: bool
    // Every state handed out to be kept; the state the run began from, and how many answers "created" it was given.
    var saved: seq<Saved>
    ghost const begun: Saved
    ghost var heard: nat

    ghost function State(): Saved
      reads this
    {
      Saved(progress, salts)
    }

    ghost predicate Valid()
      reads this
    {
      Sane(job, entries, State(), saved, random)
    }

    /** The state as it is has been handed out, or is what the run began from. */
    ghost predicate Handed()
      reads this
    {
      State() == begun || (saved != [] && Last(saved) == State())
    }

    /** A run from a state an earlier one saved, or from the start, over what the store holds by now. */
    constructor (job: Job, state: Saved, entries: Entries, script: seq<Move>, random: seq<Bytes>)
      requires JobReads(job) && Truthful(job, entries, state) && forall r :: r in random ==> r in job.salts
      ensures Valid() && this.job == job && this.entries == entries && State() == state && saved == []
      ensures written == 0 && alreadyThere == 0 && heard == 0 && !stopped && !crashed && Handed()
    {
      hide JobReads, Truthful;
      this.job, this.entries, this.script, this.random, this.crashed := job, entries, script, random, false;
      this.progress, this.salts := state.progress, state.salts;
      this.written, this.alreadyThere, this.stopped := 0, 0, false;
      this.saved := [];
      this.begun, this.heard := state, 0;
    }

    /** One await: others write, and the run goes on with what came, or ends here. */
    method Await() returns (m: Option<Move>)
      requires Valid()
      modifies this`entries, this`script, this`crashed
      ensures Valid() && Grows(old(entries), entries)
      ensures m.None? ==> crashed
      ensures m.Some? ==> crashed == old(crashed) && m.value in old(script)
      ensures forall x :: x in script ==> x in old(script)
      ensures Willing(old(script)) ==>
        && Follows(old(script), script)
        && (m.Some? ==> !m.value.late && m.value.reply != Refused)
        && (m.Some? ==> Calm(m.value) || Spoilt(old(script), script))
    {
      hide Sane, Calm, Follows, Spoilt;
      NoneFollows(script);
      if script == [] {
        crashed := true;
        return None;
      }
      if Willing(script) {
        NextFollows(script);
      }
      m := Some(script[0]);
      script := script[1..];
      var grown := m.value.foreign + entries;
      SaneGrows(job, entries, grown, State(), saved, random);
      entries := grown;
    }

    /** Hand the state out to be kept. */
    method Keep()
      requires Valid()
      modifies this`entries, this`script, this`crashed, this`saved
      ensures Valid() && Grows(old(entries), entries) && saved == old(saved) + [State()]
      ensures Willing(old(script)) ==> Follows(old(script), script)
    {
      hide Sane, Willing, Follows, Spoilt;
      SaneSaves(job, entries, State(), saved, random);
      saved := saved + [Saved(progress, salts)];
      var m := Await();
    }

    /**
     * The store's side of one request: each entry is created if its key is free, and answered unless the fate is mute.
     */
    method Serve(batch: seq<Planned>, fates: nat -> Fate) returns (answers: map<Key, Answer>)
      requires Valid()
      modifies this`entries
      ensures Valid() && Grows(old(entries), entries) && AnswersTrue(entries, batch, answers)
      ensures (forall k :: fates(k).Full?) ==> AllAnswered(batch, answers)
    {
      hide Sane, AnswerTrue;
      answers := map[];
      for k := 0 to |batch|
        invariant Valid() && Grows(old(entries), entries) && AnswersTrue(entries, batch[..k], answers)
        invariant (forall k :: fates(k).Full?) ==> AllAnswered(batch[..k], answers)
      {
        var p, fate := batch[k], fates(k);
        assert batch[..k + 1] == batch[..k] + [p];
        var isNew := p.key !in entries;
        var grown := if isNew && (fate.Full? || fate.effect) then entries[p.key := p.envelope] else entries;
        SaneGrows(job, entries, grown, State(), saved, random);
        AnswersStay(entries, grown, batch, k, answers);
        entries := grown;
        if fate.Full? {
          var a := if isNew then Created else Exists(entries[p.key]);
          AnswerIs(entries, batch, k, a);
          answers := answers[p.key := a];
        }
      }
      assert batch[..|batch|] == batch;
    }

    /** One request. None when nothing was answered: cut off, out of time, lost, or refused. */
    method Post(batch: seq<Planned>) returns (answers: Option<map<Key, Answer>>)
      requires Valid() && SaltsOut(begun, saved, batch)
      modifies this`entries, this`script, this`crashed, this`stopped, this`heard
      ensures Valid() && Grows(old(entries), entries)
      ensures answers.Some? ==> AnswersTrue(entries, batch, answers.value)
      ensures heard == old(heard) + if answers.Some? then Createds(batch, answers.value) else 0
      ensures Willing(old(script)) ==>
        && Follows(old(script), script) && stopped == old(stopped)
        && (Spoilt(old(script), script) || if answers.Some? then AllAnswered(batch, answers.value) else crashed)
    {
      hide Sane, AnswersTrue, Willing, Follows, Spoilt, AllAnswered, Complete, SaltsOut, Createds;
      var m := Await();
      if m.None? {
        return None;
      }
      if m.value.late {
        stopped := true;
        return None;
      }
      match m.value.reply {
        case Refused =>
          stopped := true;
          answers := None;
        case Lost =>
          var unheard := Serve(batch, m.value.fates);
          answers := None;
        case Answered =>
          var given := Serve(batch, m.value.fates);
          answers := Some(given);
          heard := heard + Createds(batch, given);
      }
    }

    /** The pending sides of the members from `at` on, sealed, as many members as one request takes. */
    method NextBatch(at: nat) returns (batch: seq<Planned>, to: nat)
      requires Valid() && at <= |job.tree.leaves|
      ensures Ready(job, State(), batch) && |batch| <= MAX_BATCH_ENTRIES
      ensures at <= to <= |job.tree.leaves| && (if batch == [] then to == |job.tree.leaves| else at < to)
      ensures to < |job.tree.leaves| ==> |batch| >= MAX_BATCH_ENTRIES - 1
      ensures Covers(job, progress, at, to, batch)
    {
      hide Sane, Ready, StateOf, Covers, JobReads;
      SaneHas(job, entries, State(), saved, random);
      batch, to := [], at;
      NothingReady(job, State());
      CoversNothing(job, progress, at);
      while to < |job.tree.leaves|
        invariant at <= to <= |job.tree.leaves| && |batch| <= MAX_BATCH_ENTRIES && (batch != [] ==> at < to)
        invariant Ready(job, State(), batch) && forall p :: p in batch ==> p.index < to
        invariant Covers(job, progress, at, to, batch)
      {
        var more := PlanMember(to);
        if |batch| + |more| > MAX_BATCH_ENTRIES {
          return;
        }
        ReadyBoth(job, State(), batch, more, to);
        CoversMore(job, progress, at, to, batch, more);
        batch := batch + more;
        to := to + 1;
      }
    }

    method PlanMember(i: nat) returns (planned: seq<Planned>)
      requires Valid() && i < |job.tree.leaves|
      ensures Ready(job, State(), planned) && |planned| <= 2 && forall p :: p in planned ==> p.index == i
      ensures Covers(job, progress, i, i + 1, planned)
    {
      hide Sane, StateOf, Seal, Ready, JobReads, InBatch;
      SaneHas(job, entries, State(), saved, random);
      var sides := SidesOf(job.tree, i);
      planned := [];
      NothingReady(job, State());
      for k := 0 to |sides|
        invariant Ready(job, State(), planned) && |planned| <= k && forall p :: p in planned ==>
          p.index == i && p.side in sides[..k]
        invariant forall side :: side in sides[..k] && StateOf(progress[i], side) == Pending ==>
          InBatch(planned, i, side)
      {
        var side := sides[k];
        if StateOf(progress[i], side) == Pending {
          var salt := if (i, side) in salts then Some(salts[(i, side)]) else None;
          var p := Seal(job, i, side, salt);
          SealReady(job, entries, State(), saved, random, i, side, planned, sides, k);
          InBatchMore(planned, [p]);
          planned := planned + [p];
        }
        assert sides[..k + 1] == sides[..k] + [side];
      }
      assert sides[..|sides|] == sides;
    }

    method MarkKept(p: Planned)
      requires Valid() && Proper(job, p) && IsPending(progress, p) && Findable(job, entries, p.index, p.side)
      modifies this`progress
      ensures Valid() && KeptOf(job, progress) == KeptOf(job, old(progress)) + 1
      ensures p.index < |old(progress)| && progress == MarkedAs(old(progress), p, true) && !IsPending(progress, p)
    {
      hide Sane, JobReads, KeptOf, Findable, Proper, StateOf, Mark, IsSide;
      SaneHas(job, entries, State(), saved, random);
      ProperSide(job, p);
      StaysMarked(job, progress, p, true);
      SaneKept(job, entries, State(), saved, random, p);
      progress := progress[p.index := Mark(progress[p.index], p.side, true)];
    }

    method MarkBlocked(p: Planned)
      requires Valid() && Proper(job, p) && IsPending(progress, p) && Taken(job, entries, p.index, p.side, None)
      requires job.fallback ==>
        (p.index, p.side) in salts && Taken(job, entries, p.index, p.side, Some(salts[(p.index, p.side)]))
      modifies this`progress
      ensures Valid() && KeptOf(job, progress) == KeptOf(job, old(progress))
      ensures p.index < |old(progress)| && progress == MarkedAs(old(progress), p, false) && !IsPending(progress, p)
    {
      hide Sane, JobReads, KeptOf, Taken, Proper, StateOf, Mark, IsSide;
      SaneHas(job, entries, State(), saved, random);
      ProperSide(job, p);
      StaysMarked(job, progress, p, false);
      SaneBlocked(job, entries, State(), saved, random, p);
      progress := progress[p.index := Mark(progress[p.index], p.side, false)];
    }

    /** One answer applied; true when the side has yet to be tried under a salted name. */
    method SettleOne(p: Planned, a: Option<Answer>, ghost batch: seq<Planned>) returns (again: bool)
      requires Valid() && Proper(job, p) && IsPending(progress, p) && SaltKnown(State(), p)
      requires (forall q :: q in batch ==> Proper(job, q)) && (a.Some? ==> AnswerTrue(entries, batch, p.key, a.value))
      modifies this`progress, this`written, this`alreadyThere
      ensures Valid() && written >= old(written) && alreadyThere >= old(alreadyThere)
      ensures KeptOf(job, progress) ==
        KeptOf(job, old(progress)) + (written - old(written)) + (alreadyThere - old(alreadyThere))
      ensures again ==>
        p.salt == None && job.fallback && Taken(job, entries, p.index, p.side, None) && progress == old(progress)
      ensures OneMarked(old(progress), progress, p) && (a.Some? && !again ==> !IsPending(progress, p))
      ensures written == old(written) + if a == Some(Created) then 1 else 0
    {
      hide Sane, Proper, StateOf, HoldsMember, Findable, Taken, Mark, JobReads, Seal, IsSide, KeptOf, Count, MarkedAs;
      SaneHas(job, entries, State(), saved, random);
      again := false;
      if a.None? {
        return;
      }
      match a.value {
        case Created =>
          ghost var q :| q in batch && q.key == p.key && entries[p.key] == q.envelope;
          CreatedIsFindable(job, entries, p, q);
          MarkKept(p);
          written := written + 1;
        case Exists(e) =>
          if HoldsMember(job.env, p.digest, p.key, e, p.plaintext) {
            HeldIsFindable(job, entries, p);
            MarkKept(p);
            alreadyThere := alreadyThere + 1;
          } else {
            NotHeldIsTaken(job, entries, State(), saved, random, p);
            if p.salt.Some? || !job.fallback {
              MarkBlocked(p);
            } else {
              again := true;
            }
          }
      }
    }

    /** A request's answers applied; what is left are the sides whose plain name another entry holds. */
    method Settle(batch: seq<Planned>, answers: map<Key, Answer>) returns (fallbacks: seq<Planned>)
      requires Valid() && Ready(job, State(), batch) && AnswersTrue(entries, batch, answers)
      modifies this`progress, this`written, this`alreadyThere
      ensures Valid() && written >= old(written) && alreadyThere >= old(alreadyThere)
      ensures KeptOf(job, progress) ==
        KeptOf(job, old(progress)) + (written - old(written)) + (alreadyThere - old(alreadyThere))
      ensures Waiting(job, entries, State(), fallbacks) && (fallbacks != [] ==> !AllSalted(batch))
      ensures Stays(job, old(progress), progress)
      ensures AllAnswered(batch, answers) ==> SettledBut(progress, batch, fallbacks)
      ensures written == old(written) + Createds(batch, answers)
    {
      hide Sane, Proper, StateOf, Taken, Mark, Ready, AnswerTrue, KeptOf, Waiting, JobReads, Stays, IsPending;
      hide OneMarked, SettledBut, Createds;
      CreatedsNone(answers);
      StaysSame(job, progress);
      SettledNone(progress);
      SaneHas(job, entries, State(), saved, random);
      fallbacks := [];
      NoneWaiting(job, entries, State());
      ReadyHas(job, State(), batch);
      assert batch[0..] == batch;
      for k := 0 to |batch|
        invariant Valid() && salts == old(salts) && written >= old(written) && alreadyThere >= old(alreadyThere)
        invariant KeptOf(job, progress) ==
          KeptOf(job, old(progress)) + (written - old(written)) + (alreadyThere - old(alreadyThere))
        invariant Ready(job, State(), batch[k..]) && Waiting(job, entries, State(), fallbacks)
        invariant forall p :: p in fallbacks ==> p in batch[..k] && p.salt == None
        invariant Stays(job, old(progress), progress)
        invariant AllAnswered(batch, answers) ==> SettledBut(progress, batch[..k], fallbacks)
        invariant written == old(written) + Createds(batch[..k], answers)
      {
        var p := batch[k];
        ghost var st := State();
        assert batch[k..] == [p] + batch[k + 1..] && batch[k..][0] == p;
        ReadyHas(job, st, batch[k..]);
        var a := if p.key in answers then Some(answers[p.key]) else None;
        var again := SettleOne(p, a, batch);
        ReadyDrops(job, st, State(), p, batch[k + 1..]);
        SlotsApart(batch, k, fallbacks);
        WaitingMarks(job, entries, entries, st, State(), fallbacks, p);
        StaysOne(job, st.progress, progress, p);
        StaysOn(job, old(progress), st.progress, progress);
        if AllAnswered(batch, answers) {
          SettledStays(job, st.progress, progress, batch[..k], fallbacks);
          SettledMore(progress, batch[..k], fallbacks, p, if again then fallbacks + [p] else fallbacks);
        }
        if again {
          WaitingMore(job, entries, State(), fallbacks, p);
          fallbacks := fallbacks + [p];
        }
        assert batch[..k + 1] == batch[..k] + [p];
        CreatedsMore(batch[..k], p, answers);
      }
      assert batch[..|batch|] == batch;
      if fallbacks != [] {
        assert fallbacks[0] in fallbacks;
      }
    }

    /** The address read before a salted write: this member's own entry may be there already. */
    method ReadAddress(p: Planned) returns (own: Result<Option<Own>>, out: bool)
      requires Valid() && Proper(job, p)
      modifies this`entries, this`script, this`crashed, this`stopped
      ensures Valid() && Grows(old(entries), entries)
      ensures out ==> stopped || crashed
      ensures own.Ok? && own.value.Some? ==> OwnThere(job, entries, p, own.value.value)
      ensures !out && own.Ok? && own.value.None? ==> LookedFor(job, old(entries), entries, old(script), p)
      ensures forall x :: x in script ==> x in old(script)
      ensures Willing(old(script)) ==>
        && Follows(old(script), script) && stopped == old(stopped)
        && (if out then crashed else own.Ok? || Spoilt(old(script), script))
    {
      hide Sane, Proper, StateOf, Findable, JobReads, IsSide, Grows, OpenListed, InPages, Collected, PagesAt, Willing;
      hide Complete, Follows, Spoilt;
      SaneHas(job, entries, State(), saved, random);
      var m := Await();
      if m.None? {
        return Err, true;
      }
      if m.value.late {
        stopped := true;
        return Err, true;
      }
      if m.value.reply != Answered {
        return Err, false;
      }
      out := false;
      var shown := m.value.pages(Address(job.env, p.digest));
      own := FindOwn(job.env, p.digest, p.plaintext, PagesAt(entries, shown), MAX_PAGES);
      if Calm(m.value) {
        CompleteIsRead(job.env, p.digest, entries, shown, None, MAX_PAGES);
      }
      if own.Ok? && own.value.Some? {
        ghost var item, f :| InPages(PagesAt(entries, shown), item) && item.key.address == Address(job.env, p.digest)
          && OpenListed(job.env, p.digest, item.key, item.envelope) == Some(f) && SameMember(f.plaintext, p.plaintext)
          && own.value.value == Own(f.key, f.plaintext.salt);
        OwnIsThere(job, entries, shown, p, item, f);
      } else if own.Ok? {
        NothingShown(job, entries, m.value, p);
        GrowsSame(entries);
      }
    }

    /** Found there, the side is kept and its salt taken over; not read, it is left as it is. */
    method LookOne(p: Planned) returns (look: Looked)
      requires Valid() && Proper(job, p) && IsPending(progress, p) && Taken(job, entries, p.index, p.side, None)
      modifies this`entries, this`script, this`crashed, this`stopped, this`progress, this`salts, this`alreadyThere
      ensures Valid() && Grows(old(entries), entries) && alreadyThere >= old(alreadyThere)
      ensures KeptOf(job, progress) == KeptOf(job, old(progress)) + (alreadyThere - old(alreadyThere))
      ensures OneMarked(old(progress), progress, p) && (look != Mine ==> progress == old(progress))
      ensures look == Out ==> stopped || crashed
      ensures look == Mine ==> !IsPending(progress, p)
      ensures look == Mine ==> exists own :: TakenOver(job, entries, p, own, old(salts), salts)
      ensures look != Mine ==> salts == old(salts)
      ensures look == NotThere ==> LookedFor(job, old(entries), entries, old(script), p)
      ensures forall x :: x in script ==> x in old(script)
      ensures Willing(old(script)) ==>
        && Follows(old(script), script) && stopped == old(stopped)
        && (look == Out ==> crashed) && (look == Unread ==> Spoilt(old(script), script))
    {
      hide Sane, Proper, StateOf, Findable, Taken, Mark, JobReads, IsSide, KeptOf, Grows, Willing, Follows, Spoilt;
      hide LookedFor, OwnThere;
      SaneHas(job, entries, State(), saved, random);
      var own, out := ReadAddress(p);
      if out {
        return Out;
      }
      if own.Err? {
        return Unread;
      }
      if own.value.None? {
        return NotThere;
      }
      var salt := own.value.value.salt;
      OwnIsFindable(job, entries, p, own.value.value);
      SaneOwn(job, old(entries), entries, State(), saved, random, p, salt);
      MarkKept(p);
      alreadyThere := alreadyThere + 1;
      if salt.Some? {
        salts := salts[(p.index, p.side) := salt.value];
      }
      look := Mine;
      assert TakenOver(job, entries, p, own.value.value, old(salts), salts);
    }

    /** The sides that are not there under any name yet, each of them looked for. */
    method LookFirst(fallbacks: seq<Planned>) returns (unheld: seq<Planned>, out: bool)
      requires Valid() && Waiting(job, entries, State(), fallbacks)
      modifies this`entries, this`script, this`crashed, this`stopped, this`progress, this`salts, this`alreadyThere
      ensures Valid() && Grows(old(entries), entries) && alreadyThere >= old(alreadyThere)
      ensures KeptOf(job, progress) == KeptOf(job, old(progress)) + (alreadyThere - old(alreadyThere))
      ensures Waiting(job, entries, State(), unheld)
      ensures out ==> stopped || crashed
      ensures forall p :: p in unheld ==> LookedFor(job, old(entries), entries, old(script), p)
      ensures Stays(job, old(progress), progress)
      ensures Willing(old(script)) ==>
        && Follows(old(script), script) && stopped == old(stopped)
        && (if out then crashed else Spoilt(old(script), script) || SettledBut(progress, fallbacks, unheld))
    {
      hide Sane, Proper, Waiting, JobReads, KeptOf, Grows, OneMarked, Taken, StateOf, Willing, Stays, SettledBut;
      hide IsPending, Follows, Spoilt, LookedFor, TakenOver;
      NoneFollows(script);
      SaneHas(job, entries, State(), saved, random);
      StaysSame(job, progress);
      SettledNone(progress);
      WaitingProper(job, entries, State(), fallbacks);
      NoneWaiting(job, entries, State());
      GrowsSame(entries);
      unheld := [];
      assert [] + fallbacks[0..] == fallbacks;
      for k := 0 to |fallbacks|
        invariant Valid() && Grows(old(entries), entries) && alreadyThere >= old(alreadyThere)
        invariant KeptOf(job, progress) == KeptOf(job, old(progress)) + (alreadyThere - old(alreadyThere))
        invariant Waiting(job, entries, State(), unheld + fallbacks[k..])
        invariant Stays(job, old(progress), progress)
        invariant forall p :: p in unheld ==> LookedFor(job, old(entries), entries, old(script), p)
        invariant forall x :: x in script ==> x in old(script)
        invariant Willing(old(script)) ==>
          && Follows(old(script), script) && stopped == old(stopped)
          && (Spoilt(old(script), script) || SettledBut(progress, fallbacks[..k], unheld))
      {
        var p, rest := fallbacks[k], fallbacks[k + 1..];
        ghost var st, here, before := State(), entries, script;
        assert unheld + fallbacks[k..] == unheld + [p] + rest;
        WaitingPicks(job, entries, State(), unheld, p, rest);
        var look := LookOne(p);
        GrowsSame(old(entries));
        forall q | q in unheld ensures LookedFor(job, old(entries), entries, old(script), q) {
          LookedLater(job, old(entries), old(entries), here, entries, old(script), old(script), q);
        }
        GrowsOn(old(entries), here, entries);
        WaitingMarks(job, here, entries, st, State(), unheld + rest, p);
        StaysOne(job, st.progress, progress, p);
        StaysOn(job, old(progress), st.progress, progress);
        assert fallbacks[..k + 1] == fallbacks[..k] + [p];
        if Willing(old(script)) {
          FollowsWilling(old(script), before);
          FollowsOn(old(script), before, script);
        }
        if Willing(old(script)) && look != Out && !Spoilt(old(script), script) {
          SettledStays(job, st.progress, progress, fallbacks[..k], unheld);
          SettledMore(progress, fallbacks[..k], unheld, p, if look == NotThere then unheld + [p] else unheld);
        }
        if look == Out {
          WaitingSome(job, entries, State(), unheld, rest);
          return unheld, true;
        }
        if look == NotThere {
          GrowsSame(entries);
          LookedLater(job, here, old(entries), entries, entries, before, old(script), p);
          WaitingGrows(job, here, entries, st, State(), unheld + [p] + rest);
          unheld := unheld + [p];
        }
      }
      assert unheld + fallbacks[|fallbacks|..] == unheld && fallbacks[..|fallbacks|] == fallbacks;
      out := false;
    }

    /** A salt for each, kept before its write, and the same entries sealed again under it. */
    method Resalt(unheld: seq<Planned>) returns (resealed: seq<Planned>)
      requires Valid() && Waiting(job, entries, State(), unheld)
      modifies this`entries, this`script, this`crashed, this`salts, this`random, this`saved
      ensures Valid() && Grows(old(entries), entries) && old(saved) <= saved
      ensures Ready(job, State(), resealed) && AllSalted(resealed)
      ensures !crashed ==> SameSlots(unheld, resealed) && saved == old(saved) + [State()]
      ensures Willing(old(script)) ==> Follows(old(script), script)
    {
      hide Sane, Proper, Waiting, JobReads, Grows, Taken, StateOf, Seal, Ready, Willing, Follows, SameSlots;
      NoneFollows(script);
      SaneHas(job, entries, State(), saved, random);
      NothingReady(job, State());
      GrowsSame(entries);
      resealed := [];
      assert SameSlots([], []) by { NoSlots(); }
      assert unheld[..0] == [];
      for k := 0 to |unheld|
        invariant Valid() && Waiting(job, entries, State(), unheld) && entries == old(entries) && saved == old(saved)
        invariant script == old(script)
        invariant forall j :: 0 <= j < k ==> (unheld[j].index, unheld[j].side) in salts
      {
        var p := unheld[k];
        if (p.index, p.side) !in salts {
          if random == [] {
            crashed := true;
            NothingReady(job, State());
            return;
          }
          SaneSalted(job, entries, State(), saved, random, unheld, k);
          salts := salts[(p.index, p.side) := random[0]];
          random := random[1..];
        }
      }
      ghost var here := entries;
      Keep();
      WaitingGrows(job, here, entries, State(), State(), unheld);
      NothingReady(job, State());
      for k := 0 to |unheld|
        modifies {}
        invariant Ready(job, State(), resealed) && AllSalted(resealed)
        invariant forall q :: q in resealed ==> exists j :: 0 <= j < k && SameSlot(unheld[j], q)
        invariant SameSlots(unheld[..k], resealed)
      {
        var p := unheld[k];
        WaitingAt(job, entries, State(), unheld, k);
        ResealReady(job, entries, State(), saved, random, unheld, k, resealed);
        var q := Seal(job, p.index, p.side, Some(salts[(p.index, p.side)]));
        SlotsMore(unheld[..k], resealed, p, q);
        assert unheld[..k + 1] == unheld[..k] + [p];
        resealed := resealed + [q];
        assert SameSlot(unheld[k], q);
      }
      assert unheld[..|unheld|] == unheld;
    }

    /**
     * One request's answers applied, and the salted writes they call for sent at once. A salted name that is held
     * too is blocked, so this goes round at most twice.
     */
    method Apply(batch: seq<Planned>, answers: map<Key, Answer>)
      requires Valid() && Ready(job, State(), batch) && AnswersTrue(entries, batch, answers)
      requires heard == written + Createds(batch, answers)
      modifies this`entries, this`script, this`crashed, this`stopped, this`progress, this`salts, this`random,
        this`written, this`alreadyThere, this`saved, this`heard
      ensures Valid() && Grows(old(entries), entries) && old(saved) <= saved
      ensures written >= old(written) && alreadyThere >= old(alreadyThere)
      ensures KeptOf(job, progress) ==
        KeptOf(job, old(progress)) + (written - old(written)) + (alreadyThere - old(alreadyThere))
      ensures Stays(job, old(progress), progress)
      ensures heard == written
      ensures Willing(old(script)) && !old(stopped) ==>
        && Follows(old(script), script) && !stopped
        && (AllAnswered(batch, answers) ==> crashed || Spoilt(old(script), script) || SettledBut(progress, batch, []))
      decreases if AllSalted(batch) then 0 else 2
    {
      hide Sane, Ready, Waiting, JobReads, KeptOf, Grows, AnswersTrue, Stays, Willing, SettledBut, SameSlots;
      hide AllAnswered, Proper, Follows, Spoilt, SaltsOut, Createds;
      ghost var willing, full := Willing(script) && !stopped, AllAnswered(batch, answers);
      GrowsSame(entries);
      NoneFollows(script);
      ReadyHas(job, State(), batch);
      var fallbacks := Settle(batch, answers);
      if fallbacks == [] || stopped {
        return;
      }
      ghost var settled := progress;
      var unheld, out := LookFirst(fallbacks);
      StaysOn(job, old(progress), settled, progress);
      if willing && full && !out && !Spoilt(old(script), script) {
        SettledStays(job, settled, progress, batch, fallbacks);
        SettledThrough(progress, batch, fallbacks, unheld);
      }
      if out || unheld == [] {
        return;
      }
      ghost var here, looked, afterLook := entries, progress, script;
      SendAgain(unheld);
      GrowsOn(old(entries), here, entries);
      Onward(willing, old(script), afterLook, script);
      StaysOn(job, old(progress), looked, progress);
      if willing && full && !crashed && !Spoilt(old(script), script) {
        SettledStays(job, looked, progress, batch, unheld);
        SettledThrough(progress, batch, unheld, []);
      }
    }

    /** The same members once more, under salts of their own. */
    method SendAgain(unheld: seq<Planned>)
      requires Valid() && Waiting(job, entries, State(), unheld) && heard == written
      modifies this`entries, this`script, this`crashed, this`stopped, this`progress, this`salts, this`random,
        this`written, this`alreadyThere, this`saved, this`heard
      ensures Valid() && Grows(old(entries), entries) && old(saved) <= saved
      ensures written >= old(written) && alreadyThere >= old(alreadyThere)
      ensures KeptOf(job, progress) ==
        KeptOf(job, old(progress)) + (written - old(written)) + (alreadyThere - old(alreadyThere))
      ensures Stays(job, old(progress), progress)
      ensures heard == written
      ensures Willing(old(script)) && !old(stopped) ==>
        && Follows(old(script), script) && !stopped
        && (crashed || Spoilt(old(script), script) || SettledBut(progress, unheld, []))
      decreases 1
    {
      hide Sane, Ready, Waiting, JobReads, KeptOf, Grows, AnswersTrue, Stays, Willing, SettledBut, SameSlots;
      hide AllAnswered, Proper, Follows, Spoilt, SaltsOut, Createds;
      ghost var willing := Willing(script) && !stopped;
      NoneFollows(script);
      StaysSame(job, progress);
      var resealed := Resalt(unheld);
      if crashed {
        return;
      }
      ReadyOut(job, State(), resealed, begun, saved);
      ghost var kept, afterKeep := entries, script;
      var again := Post(resealed);
      GrowsOn(old(entries), kept, entries);
      Onward(willing, old(script), afterKeep, script);
      if again.Some? {
        ghost var later, afterPost := entries, script;
        Apply(resealed, again.value);
        GrowsOn(old(entries), later, entries);
        Onward(willing, old(script), afterPost, script);
        if willing && !crashed && !Spoilt(old(script), script) {
          SettledSelf(progress, unheld);
          SettledSlots(progress, unheld, unheld, resealed);
        }
      }
    }

    /** The counts of a finished run: every side is kept, blocked or pending, and `salted` of the kept have a salt. */
    method Tally() returns (r: Report)
      requires Valid()
      ensures var n := |job.tree.leaves|;
        && Shaped(job) && n == |progress|
        && r.kept == Count(job, progress, Kept, n) && r.blocked == Count(job, progress, Blocked, n)
        && r.pending == Count(job, progress, Pending, n)
        && r.entries == Sides(job, n) == r.kept + r.blocked + r.pending
      ensures r.salted == Salted(job, State(), |progress|) <= r.kept && r.written == written
      ensures r.alreadyThere == alreadyThere
      ensures r.state == State() && (r.done <==> r.pending == 0)
    {
      hide Sane, JobReads, StateOf, InState, Count, Sides, Salted, StatesOf, SaltsOf;
      SaneHas(job, entries, State(), saved, random);
      SaltedNothing(job, State());
      CountNothing(job, progress);
      var all, kept, salted, blocked, pending := 0, 0, 0, 0, 0;
      for i := 0 to |job.tree.leaves|
        invariant kept == Count(job, progress, Kept, i) && blocked == Count(job, progress, Blocked, i)
        invariant pending == Count(job, progress, Pending, i)
        invariant all == Sides(job, i) && salted == Salted(job, State(), i) <= kept
      {
        var sides := SidesOf(job.tree, i);
        CountNext(job, progress, i);
        SaltedNext(job, State(), i);
        NoStates(State(), i, sides);
        for k := 0 to |sides|
          invariant all == Sides(job, i) + k
          invariant salted == Salted(job, State(), i) + SaltsOf(State(), i, sides, k) <= kept
          invariant kept == Count(job, progress, Kept, i) + StatesOf(progress[i], sides, Kept, k)
          invariant blocked == Count(job, progress, Blocked, i) + StatesOf(progress[i], sides, Blocked, k)
          invariant pending == Count(job, progress, Pending, i) + StatesOf(progress[i], sides, Pending, k)
        {
          OneState(State(), i, sides, k);
          all := all + 1;
          var state := StateOf(progress[i], sides[k]);
          if state == Kept {
            kept := kept + 1;
            if (i, sides[k]) in salts {
              salted := salted + 1;
            }
          } else if state == Blocked {
            blocked := blocked + 1;
          } else {
            pending := pending + 1;
          }
        }
      }
      StatesPartition(job, progress, |progress|);
      r := Report(all, kept, written, alreadyThere, salted, blocked, pending, Saved(progress, salts), pending == 0);
    }

    /**
     * A whole run, to its report or to where it was cut off. Either way what it claims is true of the store, in its
     * own state and in every state it handed out, the last of which is its own; a side once settled stays as it is,
     * and its report adds up. In time and at a site that takes writes, a run that comes to its report leaves nothing
     * pending when something goes amiss at no more moves than it has retries, whatever others write.
     */
    method WriteRecoveryEntries(retries: nat) returns (r: Option<Report>)
      requires Valid() && !crashed && written == 0 && alreadyThere == 0 && heard == 0 && Handed()
      modifies this
      ensures Valid() && Grows(old(entries), entries) && old(saved) <= saved
      ensures r.None? ==> crashed
      ensures KeptOf(job, progress) == KeptOf(job, old(progress)) + written + alreadyThere
      ensures r.Some? ==>
        && r.value.kept == KeptOf(job, old(progress)) + r.value.written + r.value.alreadyThere
        && r.value.entries == r.value.kept + r.value.blocked + r.value.pending && r.value.entries == SidesIn(job)
        && r.value.state == State() && (r.value.done <==> r.value.pending == 0)
      ensures Stays(job, old(progress), progress)
      ensures r.Some? ==> r.value.written == heard && Handed()
      ensures Willing(old(script)) && !old(stopped) && Amiss(old(script)) <= retries && r.Some? ==> r.value.done
    {
      hide Sane, JobReads, KeptOf, Grows, SidesIn, Stays, NonePending;
      hide Willing, Amiss, Follows, Spoilt, Calm;
      ghost var willing := Willing(script) && !stopped;
      NoneFollows(script);
      GrowsSame(entries);
      StaysSame(job, progress);
      var round := 0;
      while round <= retries && !stopped
        invariant Valid() && Grows(old(entries), entries) && old(saved) <= saved && !crashed
        invariant KeptOf(job, progress) == KeptOf(job, old(progress)) + written + alreadyThere
        invariant Stays(job, old(progress), progress)
        invariant written == heard && Handed()
        invariant willing ==>
          && Follows(old(script), script) && !stopped
          && (NonePending(job, progress, |job.tree.leaves|) || round + Amiss(script) <= Amiss(old(script)))
        decreases retries + 1 - round
      {
        ghost var before, was, began := entries, progress, script;
        var more := NextRound(round);
        GrowsOn(old(entries), before, entries);
        StaysOn(job, old(progress), was, progress);
        Onward(willing, old(script), began, script);
        Lessens(willing, began, script);
        if crashed {
          return None;
        }
        if NonePending(job, was, |job.tree.leaves|) {
          NonePendingStays(job, was, progress, |job.tree.leaves|);
        }
        if !more {
          break;
        }
        round := round + 1;
      }
      var report := Finish();
      r := Some(report);
    }

    /** The report of a run that has come to its end. */
    method Finish() returns (r: Report)
      requires Valid()
      ensures r.kept == KeptOf(job, progress) && r.written == written && r.alreadyThere == alreadyThere
      ensures r.entries == r.kept + r.blocked + r.pending && r.entries == SidesIn(job)
      ensures r.state == State() && (r.done <==> r.pending == 0)
      ensures NonePending(job, progress, |job.tree.leaves|) ==> r.done
    {
      hide Sane, JobReads, Count, Sides, NonePending, Salted;
      SaneHas(job, entries, State(), saved, random);
      r := Tally();
      KeptIsCount(job, progress);
      if NonePending(job, progress, |progress|) {
        NonePendingCounts(job, progress, |progress|);
      }
    }

    /** A pause before every round but the first, and the round. */
    method NextRound(round: nat) returns (more: bool)
      requires Valid() && !crashed && heard == written && Handed()
      modifies this`entries, this`script, this`crashed, this`stopped, this`progress, this`salts, this`random,
        this`written, this`alreadyThere, this`saved, this`heard
      ensures Valid() && Grows(old(entries), entries) && old(saved) <= saved
      ensures KeptOf(job, progress) ==
        KeptOf(job, old(progress)) + (written - old(written)) + (alreadyThere - old(alreadyThere))
      ensures Stays(job, old(progress), progress)
      ensures heard == written && (!crashed ==> Handed())
      ensures Willing(old(script)) && !old(stopped) ==>
        && Follows(old(script), script) && !stopped
        && (crashed || Spoilt(old(script), script) || NonePending(job, progress, |job.tree.leaves|))
        && (crashed || more || NonePending(job, progress, |job.tree.leaves|))
    {
      hide Sane, JobReads, KeptOf, Grows, Stays, NonePending, Willing, Follows, Spoilt, Calm;
      ghost var willing := Willing(script) && !stopped;
      NoneFollows(script);
      GrowsSame(entries);
      StaysSame(job, progress);
      if round > 0 {
        var wait := Await();
        if wait.None? || wait.value.late {
          return false;
        }
      }
      ghost var here, left := entries, script;
      more := SendRound();
      GrowsOn(old(entries), here, entries);
      Onward(willing, old(script), left, script);
    }

    /** One pass over the members: batch after batch, until none is left, time runs out, or the site refuses. */
    method SendRound() returns (sentAny: bool)
      requires Valid() && !crashed && heard == written && Handed()
      modifies this`entries, this`script, this`crashed, this`stopped, this`progress, this`salts, this`random,
        this`written, this`alreadyThere, this`saved, this`heard
      ensures Valid() && Grows(old(entries), entries) && old(saved) <= saved
      ensures written >= old(written) && alreadyThere >= old(alreadyThere)
      ensures KeptOf(job, progress) ==
        KeptOf(job, old(progress)) + (written - old(written)) + (alreadyThere - old(alreadyThere))
      ensures Stays(job, old(progress), progress)
      ensures heard == written && (!crashed ==> Handed())
      ensures Willing(old(script)) && !old(stopped) ==>
        && Follows(old(script), script) && !stopped
        && (crashed || Spoilt(old(script), script) || NonePending(job, progress, |job.tree.leaves|))
        && (crashed || sentAny || NonePending(job, progress, |job.tree.leaves|))
    {
      hide Sane, Ready, JobReads, KeptOf, Grows, AnswersTrue, Covers, Stays, Willing, SettledBut, NonePending;
      hide Follows, Spoilt, SaltsOut;
      ghost var willing := Willing(script) && !stopped;
      NoneFollows(script);
      GrowsSame(entries);
      StaysSame(job, progress);
      NonePendingNone(job, progress);
      var at := 0;
      sentAny := false;
      while !stopped
        invariant Valid() && Grows(old(entries), entries) && old(saved) <= saved && !crashed && at <= |job.tree.leaves|
        invariant written >= old(written) && alreadyThere >= old(alreadyThere)
        invariant KeptOf(job, progress) ==
          KeptOf(job, old(progress)) + (written - old(written)) + (alreadyThere - old(alreadyThere))
        invariant Stays(job, old(progress), progress)
        invariant heard == written && Handed() && (sentAny || at == 0)
        invariant willing ==>
          && Follows(old(script), script) && !stopped
          && (Spoilt(old(script), script) || NonePending(job, progress, at))
        decreases |job.tree.leaves| - at
      {
        ghost var here, began := entries, script;
        var m := Await();
        GrowsOn(old(entries), here, entries);
        Onward(willing, old(script), began, script);
        if m.None? {
          return;
        }
        if m.value.late {
          stopped := true;
          return;
        }
        var batch, to := NextBatch(at);
        if |batch| == 0 {
          if at == 0 {
            NonePendingNone(job, progress);
          }
          if NonePending(job, progress, at) {
            StaysSame(job, progress);
            SettledNone(progress);
            NonePendingMore(job, progress, progress, at, to, batch);
          }
          return;
        }
        ghost var sent, was, next := entries, progress, script;
        SendBatch(batch);
        GrowsOn(old(entries), sent, entries);
        Onward(willing, old(script), next, script);
        StaysOn(job, old(progress), was, progress);
        if willing && !crashed && !Spoilt(old(script), script) {
          NonePendingMore(job, was, progress, at, to, batch);
        }
        at := to;
        sentAny := true;
        if crashed {
          return;
        }
      }
    }

    method SendBatch(batch: seq<Planned>)
      requires Valid() && Ready(job, State(), batch) && heard == written && Handed()
      modifies this`entries, this`script, this`crashed, this`stopped, this`progress, this`salts, this`random,
        this`written, this`alreadyThere, this`saved, this`heard
      ensures Valid() && Grows(old(entries), entries) && old(saved) <= saved
      ensures written >= old(written) && alreadyThere >= old(alreadyThere)
      ensures KeptOf(job, progress) ==
        KeptOf(job, old(progress)) + (written - old(written)) + (alreadyThere - old(alreadyThere))
      ensures Stays(job, old(progress), progress)
      ensures heard == written && (!crashed ==> Handed())
      ensures Willing(old(script)) && !old(stopped) ==>
        && Follows(old(script), script) && !stopped
        && (crashed || Spoilt(old(script), script) || SettledBut(progress, batch, []))
    {
      hide Sane, Ready, JobReads, KeptOf, Grows, AnswersTrue, Stays, Willing, SettledBut, AllAnswered;
      hide Follows, Spoilt, SaltsOut, Createds;
      ghost var willing := Willing(script) && !stopped;
      GrowsSame(entries);
      StaysSame(job, progress);
      ReadyOut(job, State(), batch, begun, saved);
      var answers := Post(batch);
      if crashed && answers.None? {
        return;
      }
      ghost var here, posted := entries, script;
      if answers.Some? {
        Apply(batch, answers.value);
        GrowsOn(old(entries), here, entries);
        Onward(willing, old(script), posted, script);
        if crashed {
          return;
        }
      }
      ghost var later, applied := entries, script;
      Keep();
      GrowsOn(old(entries), later, entries);
      Onward(willing, old(script), applied, script);
    }
  }

  /** Every salt that is sent is in a state that was handed out, or in the one the run began from. */
  ghost predicate SaltsOut(begun: Saved, saved: seq<Saved>, batch: seq<Planned>) {
    forall p :: p in batch ==> SaltKnown(begun, p) || exists s :: s in saved && SaltKnown(s, p)
  }

  lemma ReadyOut(job: Job, st: Saved, batch: seq<Planned>, begun: Saved, saved: seq<Saved>)
    requires Ready(job, st, batch) && (st == begun || (saved != [] && Last(saved) == st))
    ensures SaltsOut(begun, saved, batch)
  {
    hide Proper, IsPending, SaltKnown;
    if st != begun {
      assert st in saved;
    }
  }

  /** How many of a batch were answered "created". */
  ghost function Createds(batch: seq<Planned>, answers: map<Key, Answer>): nat {
    if batch == [] then 0 else
      var created := Last(batch).key in answers && answers[Last(batch).key] == Created;
      Createds(Init(batch), answers) + (if created then 1 else 0)
  }

  lemma CreatedsNone(answers: map<Key, Answer>)
    ensures Createds([], answers) == 0
  {
  }

  lemma CreatedsMore(batch: seq<Planned>, p: Planned, answers: map<Key, Answer>)
    ensures Createds(batch + [p], answers) ==
      Createds(batch, answers) + if p.key in answers && answers[p.key] == Created then 1 else 0
  {
    Snoc(batch, p);
  }

  ghost predicate InBatch(batch: seq<Planned>, i: nat, side: Side) {
    exists p :: p in batch && p.index == i && p.side == side
  }

  /** Every pending side of the members from `at` to `to` is in the batch. */
  ghost predicate Covers(job: Job, progress: seq<bv8>, at: nat, to: nat, batch: seq<Planned>) {
    forall i, side :: at <= i < to && IsSide(job, i, side) && i < |progress| ==>
      StateOf(progress[i], side) == Pending ==> InBatch(batch, i, side)
  }

  lemma CoversNothing(job: Job, progress: seq<bv8>, at: nat)
    ensures Covers(job, progress, at, at, [])
  {
  }

  lemma InBatchMore(a: seq<Planned>, b: seq<Planned>)
    ensures forall i, side :: InBatch(a, i, side) || InBatch(b, i, side) ==> InBatch(a + b, i, side)
    ensures |b| == 1 ==> InBatch(a + b, b[0].index, b[0].side)
  {
    forall i, side | InBatch(a, i, side) || InBatch(b, i, side) ensures InBatch(a + b, i, side) {
      var p :| (p in a || p in b) && p.index == i && p.side == side;
      assert p in a + b;
    }
    if |b| == 1 {
      assert b[0] in a + b;
    }
  }

  lemma CoversMore(job: Job, progress: seq<bv8>, at: nat, to: nat, batch: seq<Planned>, more: seq<Planned>)
    requires Covers(job, progress, at, to, batch) && Covers(job, progress, to, to + 1, more)
    ensures Covers(job, progress, at, to + 1, batch + more)
  {
    hide InBatch, StateOf, IsSide;
    InBatchMore(batch, more);
  }

  lemma SaneHas(job: Job, entries: Entries, st: Saved, saved: seq<Saved>, random: seq<Bytes>)
    requires Sane(job, entries, st, saved, random)
    ensures JobReads(job) && Shaped(job) && |st.progress| == |job.tree.leaves| == |job.names|
    ensures forall i :: 0 <= i < |job.tree.leaves| ==> LeafShape(job.tree.leaves[i])
  {
    hide CollisionFreeOn, Names, LeafShape;
  }

  lemma KeptOfMarked(job: Job, a: seq<bv8>, p: Planned)
    requires Shaped(job) && |a| == |job.tree.leaves| && IsSide(job, p.index, p.side) && IsPending(a, p)
    ensures KeptOf(job, a[p.index := Mark(a[p.index], p.side, true)]) == KeptOf(job, a) + 1
    ensures KeptOf(job, a[p.index := Mark(a[p.index], p.side, false)]) == KeptOf(job, a)
  {
    hide JobReads, StateOf, Mark, SidesOf, LeafShape, Count;
    CountMarked(job, a, p.index, p.side, true, |a|);
    CountMarked(job, a, p.index, p.side, false, |a|);
  }

  lemma SaneSaves(job: Job, entries: Entries, st: Saved, saved: seq<Saved>, random: seq<Bytes>)
    requires Sane(job, entries, st, saved, random)
    ensures Sane(job, entries, st, saved + [st], random)
  {
    hide JobReads, Truthful;
  }

  lemma SaneStill(job: Job, entries: Entries, st: Saved, st': Saved, saved: seq<Saved>, random: seq<Bytes>)
    requires Sane(job, entries, st, saved, random) && Truthful(job, entries, st')
    ensures Sane(job, entries, st', saved, random)
  {
    hide JobReads, Truthful;
  }

  lemma SaneTrue(job: Job, entries: Entries, st: Saved, saved: seq<Saved>, random: seq<Bytes>)
    requires Sane(job, entries, st, saved, random)
    ensures JobReads(job) && Truthful(job, entries, st)
  {
    hide JobReads, Truthful;
  }

  lemma SaneKept(job: Job, entries: Entries, st: Saved, saved: seq<Saved>, random: seq<Bytes>, p: Planned)
    requires Sane(job, entries, st, saved, random) && Proper(job, p) && IsPending(st.progress, p)
    requires Findable(job, entries, p.index, p.side)
    ensures var st' := st.(progress := st.progress[p.index := Mark(st.progress[p.index], p.side, true)]);
      Sane(job, entries, st', saved, random) && KeptOf(job, st'.progress) == KeptOf(job, st.progress) + 1
  {
    hide Sane, JobReads, Truthful, Findable, Proper, Mark, IsSide, KeptOf;
    SaneHas(job, entries, st, saved, random);
    SaneTrue(job, entries, st, saved, random);
    ProperSide(job, p);
    KeptOfMarked(job, st.progress, p);
    var st' := st.(progress := st.progress[p.index := Mark(st.progress[p.index], p.side, true)]);
    MarksKept(job, entries, st, p.index, p.side);
    SaneStill(job, entries, st, st', saved, random);
  }

  lemma SaneBlocked(job: Job, entries: Entries, st: Saved, saved: seq<Saved>, random: seq<Bytes>, p: Planned)
    requires Sane(job, entries, st, saved, random) && Proper(job, p) && IsPending(st.progress, p)
    requires Taken(job, entries, p.index, p.side, None)
    requires job.fallback ==>
      (p.index, p.side) in st.salts && Taken(job, entries, p.index, p.side, Some(st.salts[(p.index, p.side)]))
    ensures var st' := st.(progress := st.progress[p.index := Mark(st.progress[p.index], p.side, false)]);
      Sane(job, entries, st', saved, random) && KeptOf(job, st'.progress) == KeptOf(job, st.progress)
  {
    hide Sane, JobReads, Truthful, Taken, Proper, Mark, IsSide, KeptOf;
    SaneHas(job, entries, st, saved, random);
    SaneTrue(job, entries, st, saved, random);
    ProperSide(job, p);
    KeptOfMarked(job, st.progress, p);
    var st' := st.(progress := st.progress[p.index := Mark(st.progress[p.index], p.side, false)]);
    MarksBlocked(job, entries, st, p.index, p.side);
    SaneStill(job, entries, st, st', saved, random);
  }

  lemma NothingReady(job: Job, st: Saved)
    ensures Ready(job, st, [])
  {
  }

  lemma ProperSide(job: Job, p: Planned)
    requires Proper(job, p)
    ensures IsSide(job, p.index, p.side)
  {
  }

  lemma ReadyBoth(job: Job, st: Saved, batch: seq<Planned>, more: seq<Planned>, i: nat)
    requires Ready(job, st, batch) && Ready(job, st, more)
    requires (forall p :: p in batch ==> p.index < i) && forall p :: p in more ==> p.index == i
    ensures Ready(job, st, batch + more)
  {
    hide JobReads, Proper, IsPending, SaltKnown;
    var all := batch + more;
    forall a, b | 0 <= a < b < |all| ensures !SameSlot(all[a], all[b]) {
      if b < |batch| {
        assert all[a] == batch[a] && all[b] == batch[b];
      } else if a < |batch| {
        assert all[a] == batch[a] && all[b] == more[b - |batch|];
        assert batch[a] in batch && more[b - |batch|] in more;
      } else {
        assert all[a] == more[a - |batch|] && all[b] == more[b - |batch|];
      }
    }
  }

  lemma SealReady(job: Job, entries: Entries, st: Saved, saved: seq<Saved>, random: seq<Bytes>, i: nat, side: Side,
      planned: seq<Planned>, sides: seq<Side>, k: nat)
    requires Sane(job, entries, st, saved, random) && i < |job.tree.leaves| && LeafShape(job.tree.leaves[i])
    requires i < |job.names|
    requires sides == SidesOf(job.tree, i) && k < |sides| && sides[k] == side && i < |st.progress|
    requires StateOf(st.progress[i], side) == Pending
    requires Ready(job, st, planned) && forall p :: p in planned ==> p.index == i && p.side in sides[..k]
    ensures var p := Seal(job, i, side, if (i, side) in st.salts then Some(st.salts[(i, side)]) else None);
      p.index == i && p.side == side && Ready(job, st, planned + [p])
  {
    hide JobReads, StateOf, LeafShape, Taken, Findable;
    var salt := if (i, side) in st.salts then Some(st.salts[(i, side)]) else None;
    var p := Seal(job, i, side, salt);
    assert SideTrue(job, entries, st, i, side);
    assert Proper(job, p) && IsPending(st.progress, p) && SaltKnown(st, p);
    var all := planned + [p];
    forall a, b | 0 <= a < b < |all| ensures !SameSlot(all[a], all[b]) {
      if b == |planned| {
        assert planned[a] in planned;
      }
    }
  }

  lemma AnswersStay(a: Entries, b: Entries, batch: seq<Planned>, k: nat, answers: map<Key, Answer>)
    requires k < |batch| && Grows(a, b) && AnswersTrue(a, batch[..k], answers)
    ensures AnswersTrue(b, batch[..k + 1], answers)
  {
    forall key | key in answers ensures AnswerTrue(b, batch[..k + 1], key, answers[key]) {
      assert AnswerTrue(a, batch[..k], key, answers[key]);
      if answers[key].Created? {
        var q :| q in batch[..k] && q.key == key && a[key] == q.envelope;
        assert q in batch[..k + 1];
      }
    }
  }

  lemma AnswerIs(entries: Entries, batch: seq<Planned>, k: nat, a: Answer)
    requires k < |batch| && batch[k].key in entries
    requires match a
      case Created => entries[batch[k].key] == batch[k].envelope
      case Exists(e) => entries[batch[k].key] == e
    ensures AnswerTrue(entries, batch[..k + 1], batch[k].key, a)
  {
    assert batch[..k + 1][k] == batch[k];
    assert batch[k] in batch[..k + 1];
  }

  ghost predicate AllSalted(batch: seq<Planned>) {
    forall p :: p in batch ==> p.salt.Some?
  }

  /** Sides that go on to a salted name: the plain one is another entry's, and salted names are tried. */
  ghost predicate Waiting(job: Job, entries: Entries, st: Saved, ps: seq<Planned>)
  {
    && Unique(ps)
    && forall p :: p in ps ==>
         Proper(job, p) && p.salt == None && job.fallback && IsPending(st.progress, p) &&
           Taken(job, entries, p.index, p.side, None)
  }

  lemma NoneWaiting(job: Job, entries: Entries, st: Saved)
    ensures Waiting(job, entries, st, [])
  {
  }

  lemma ReadyHas(job: Job, st: Saved, batch: seq<Planned>)
    requires Ready(job, st, batch)
    ensures Unique(batch) && forall p :: p in batch ==> Proper(job, p) && IsPending(st.progress, p) && SaltKnown(st, p)
  {
  }

  ghost function MarkedAs(a: seq<bv8>, p: Planned, kept: bool): seq<bv8>
    requires p.index < |a|
  {
    a[p.index := Mark(a[p.index], p.side, kept)]
  }

  /** Nothing changed, or this one side was marked. */
  ghost predicate OneMarked(a: seq<bv8>, b: seq<bv8>, p: Planned) {
    a == b || (p.index < |a| && (b == MarkedAs(a, p, true) || b == MarkedAs(a, p, false)))
  }

  lemma StaysPending(job: Job, a: seq<bv8>, b: seq<bv8>, p: Planned, q: Planned)
    requires IsSide(job, p.index, p.side) && IsSide(job, q.index, q.side) && !SameSlot(p, q) && OneMarked(a, b, p)
    requires IsPending(a, q)
    ensures IsPending(b, q)
  {
    hide StateOf, Mark, SidesOf, LeafShape, IsPending;
    if b == a {
    } else if b == MarkedAs(a, p, true) {
      OthersStayPending(job, a, p, q, true);
    } else {
      OthersStayPending(job, a, p, q, false);
    }
  }

  lemma ReadyDrops(job: Job, a: Saved, b: Saved, p: Planned, rest: seq<Planned>)
    requires Ready(job, a, [p] + rest) && OneMarked(a.progress, b.progress, p) && a.salts == b.salts
    ensures Ready(job, b, rest)
  {
    hide JobReads, Proper, IsPending, OneMarked, IsSide;
    var all := [p] + rest;
    assert all[0] == p && p in all;
    ProperSide(job, p);
    forall q | q in rest ensures Proper(job, q) && IsPending(b.progress, q) && SaltKnown(b, q) {
      var k :| 0 <= k < |rest| && rest[k] == q;
      assert all[k + 1] == q && q in all && !SameSlot(all[0], all[k + 1]);
      ProperSide(job, q);
      StaysPending(job, a.progress, b.progress, p, q);
    }
    forall x, y | 0 <= x < y < |rest| ensures !SameSlot(rest[x], rest[y]) {
      assert all[x + 1] == rest[x] && all[y + 1] == rest[y];
    }
  }

  lemma SlotsApart(batch: seq<Planned>, k: nat, some: seq<Planned>)
    requires Unique(batch) && k < |batch| && forall p :: p in some ==> p in batch[..k]
    ensures forall q :: q in some ==> !SameSlot(batch[k], q)
  {
    forall q | q in some ensures !SameSlot(batch[k], q) {
      var j :| 0 <= j < |batch[..k]| && batch[..k][j] == q;
      assert batch[j] == q;
    }
  }

  /** The others go on waiting when one side is marked and the store grows. */
  lemma WaitingMarks(job: Job, e: Entries, e': Entries, a: Saved, b: Saved, ps: seq<Planned>, p: Planned)
    requires Waiting(job, e, a, ps) && Grows(e, e') && Proper(job, p) && OneMarked(a.progress, b.progress, p)
    requires forall q :: q in ps ==> !SameSlot(p, q)
    ensures Waiting(job, e', b, ps)
  {
    hide JobReads, Proper, IsPending, OneMarked, SidesOf, LeafShape, Taken, Grows;
    ProperSide(job, p);
    forall q | q in ps
      ensures IsSide(job, q.index, q.side) && IsPending(b.progress, q) && Taken(job, e', q.index, q.side, None)
    {
      ProperSide(job, q);
      StaysPending(job, a.progress, b.progress, p, q);
      TakenGrows(job, e, e', q.index, q.side, None);
    }
  }

  lemma WaitingMore(job: Job, entries: Entries, st: Saved, ps: seq<Planned>, p: Planned)
    requires Waiting(job, entries, st, ps) && forall q :: q in ps ==> !SameSlot(p, q)
    requires Proper(job, p) && p.salt == None && job.fallback && IsPending(st.progress, p)
    requires Taken(job, entries, p.index, p.side, None)
    ensures Waiting(job, entries, st, ps + [p])
  {
    hide JobReads, Proper, IsPending, Taken, IsSide;
    var all := ps + [p];
    forall x, y | 0 <= x < y < |all| ensures !SameSlot(all[x], all[y]) {
      if y == |ps| {
        assert ps[x] in ps;
      }
    }
  }

  /** "exists" with another's envelope: the name asked for is taken, and under a salt the plain one was before. */
  lemma NotHeldIsTaken(job: Job, entries: Entries, st: Saved, saved: seq<Saved>, random: seq<Bytes>, p: Planned)
    requires Sane(job, entries, st, saved, random) && Proper(job, p) && SaltKnown(st, p) && p.key in entries
    requires !HoldsMember(job.env, p.digest, p.key, entries[p.key], p.plaintext)
    ensures Taken(job, entries, p.index, p.side, None)
    ensures p.salt.Some? ==>
      (p.index, p.side) in st.salts && Taken(job, entries, p.index, p.side, Some(st.salts[(p.index, p.side)]))
  {
    hide HoldsMember, StateOf, Findable, CollisionFreeOn, Names, NameInput, TreeReads;
    ProperSide(job, p);
    assert SideTrue(job, entries, st, p.index, p.side);
    SaltNoMatter(job, p.digest, p.key, entries[p.key], p.index, p.salt);
    assert Taken(job, entries, p.index, p.side, p.salt);
  }

  datatype Looked = Mine | NotThere | Unread | Out

  lemma GrowsSame(a: Entries)
    ensures Grows(a, a)
  {
  }

  lemma GrowsOn(a: Entries, b: Entries, c: Entries)
    requires Grows(a, b) && Grows(b, c)
    ensures Grows(a, c)
  {
  }

  lemma WaitingGrows(job: Job, e: Entries, e': Entries, a: Saved, b: Saved, ps: seq<Planned>)
    requires Waiting(job, e, a, ps) && Grows(e, e') && a.progress == b.progress
    ensures Waiting(job, e', b, ps)
  {
    hide JobReads, Proper, IsPending, SidesOf, LeafShape, Taken, Grows;
    forall q | q in ps ensures IsSide(job, q.index, q.side) && Taken(job, e', q.index, q.side, None) {
      ProperSide(job, q);
      TakenGrows(job, e, e', q.index, q.side, None);
    }
  }

  lemma WaitingPicks(job: Job, entries: Entries, st: Saved, a: seq<Planned>, p: Planned, b: seq<Planned>)
    requires Waiting(job, entries, st, a + [p] + b)
    ensures Waiting(job, entries, st, a + b) && (forall q :: q in a + b ==> !SameSlot(p, q))
    ensures Proper(job, p) && IsPending(st.progress, p) && Taken(job, entries, p.index, p.side, None)
  {
    hide JobReads, Proper, IsPending, Taken;
    var all, some := a + [p] + b, a + b;
    assert all[|a|] == p && p in all;
    forall x | 0 <= x < |some| ensures some[x] in all && !SameSlot(p, some[x]) {
      var y := if x < |a| then x else x + 1;
      assert some[x] == all[y];
    }
    forall x, y | 0 <= x < y < |some| ensures !SameSlot(some[x], some[y]) {
      assert some[x] == all[if x < |a| then x else x + 1] && some[y] == all[if y < |a| then y else y + 1];
    }
  }

  lemma WaitingSome(job: Job, entries: Entries, st: Saved, a: seq<Planned>, b: seq<Planned>)
    requires Waiting(job, entries, st, a + b)
    ensures Waiting(job, entries, st, a)
  {
    hide JobReads, Proper, IsPending, Taken;
    forall x | 0 <= x < |a| ensures (a + b)[x] == a[x] && a[x] in a + b {
    }
  }

  lemma WaitingProper(job: Job, entries: Entries, st: Saved, ps: seq<Planned>)
    requires Waiting(job, entries, st, ps)
    ensures forall p :: p in ps ==> Proper(job, p)
  {
    hide JobReads, IsPending, Taken, Proper;
  }

  lemma WaitingAt(job: Job, entries: Entries, st: Saved, ps: seq<Planned>, k: nat)
    requires Waiting(job, entries, st, ps) && k < |ps|
    ensures Proper(job, ps[k]) && IsPending(st.progress, ps[k]) && Taken(job, entries, ps[k].index, ps[k].side, None)
    ensures job.fallback
    ensures IsSide(job, ps[k].index, ps[k].side)
  {
    hide JobReads, IsPending, Taken;
    assert ps[k] in ps;
  }

  /** An own entry found: kept, its salt taken over. */
  lemma SaneOwn(job: Job, e: Entries, e': Entries, st: Saved, saved: seq<Saved>, random: seq<Bytes>, p: Planned,
      salt: Option<Bytes>)
    requires Sane(job, e', st, saved, random) && Proper(job, p) && IsPending(st.progress, p)
    requires Findable(job, e', p.index, p.side)
    requires Taken(job, e, p.index, p.side, None) && Grows(e, e')
    ensures var st' := st.(progress := st.progress[p.index := Mark(st.progress[p.index], p.side, true)]);
      var st'' := if salt.Some? then st'.(salts := st'.salts[(p.index, p.side) := salt.value]) else st';
      Sane(job, e', st'', saved, random)
  {
    hide Sane, JobReads, Truthful, Findable, Proper, Mark, SidesOf, LeafShape, KeptOf, Taken, StateOf;
    SaneHas(job, e', st, saved, random);
    ProperSide(job, p);
    SaneKept(job, e', st, saved, random, p);
    var st' := st.(progress := st.progress[p.index := Mark(st.progress[p.index], p.side, true)]);
    if salt.Some? {
      SaneTrue(job, e', st', saved, random);
      TakenGrows(job, e, e', p.index, p.side, None);
      MarksOneSide(st.progress[p.index], p.side, p.side);
      SetsSalt(job, e', st', p.index, p.side, salt.value);
      SaneStill(job, e', st', st'.(salts := st'.salts[(p.index, p.side) := salt.value]), saved, random);
    }
  }

  /** A fresh salt for a side that has none. */
  lemma SaneSalted(job: Job, entries: Entries, st: Saved, saved: seq<Saved>, random: seq<Bytes>, unheld: seq<Planned>,
      k: nat)
    requires Sane(job, entries, st, saved, random) && Waiting(job, entries, st, unheld) && k < |unheld|
    requires (unheld[k].index, unheld[k].side) !in st.salts && random != []
    ensures var st' := st.(salts := st.salts[(unheld[k].index, unheld[k].side) := random[0]]);
      Sane(job, entries, st', saved, random[1..]) && Waiting(job, entries, st', unheld)
  {
    hide JobReads, Truthful, Findable, Proper, SidesOf, LeafShape, Taken, StateOf;
    WaitingAt(job, entries, st, unheld, k);
    assert random[0] in random && forall r :: r in random[1..] ==> r in random;
    SetsSalt(job, entries, st, unheld[k].index, unheld[k].side, random[0]);
  }

  /** A side sealed again under its salt is ready to go out. */
  lemma ResealReady(job: Job, entries: Entries, st: Saved, saved: seq<Saved>, random: seq<Bytes>, unheld: seq<Planned>,
      k: nat, resealed: seq<Planned>)
    requires Sane(job, entries, st, saved, random) && Waiting(job, entries, st, unheld) && k < |unheld|
    requires (unheld[k].index, unheld[k].side) in st.salts && Ready(job, st, resealed)
    requires forall q :: q in resealed ==> exists j :: 0 <= j < k && SameSlot(unheld[j], q)
    requires unheld[k].index < |job.tree.leaves| && unheld[k].index < |job.names|
    requires LeafShape(job.tree.leaves[unheld[k].index])
    ensures var q := Seal(job, unheld[k].index, unheld[k].side, Some(st.salts[(unheld[k].index, unheld[k].side)]));
      q.index == unheld[k].index && q.side == unheld[k].side && q.salt.Some? && Ready(job, st, resealed + [q])
  {
    hide JobReads, StateOf, LeafShape, Taken, Findable;
    WaitingAt(job, entries, st, unheld, k);
    var p := unheld[k];
    var q := Seal(job, p.index, p.side, Some(st.salts[(p.index, p.side)]));
    assert SideTrue(job, entries, st, p.index, p.side);
    assert Proper(job, q) && IsPending(st.progress, q) && SaltKnown(st, q);
    var all := resealed + [q];
    forall a, b | 0 <= a < b < |all| ensures !SameSlot(all[a], all[b]) {
      if b == |resealed| {
        assert resealed[a] in resealed;
        var j :| 0 <= j < k && SameSlot(unheld[j], resealed[a]);
        assert !SameSlot(unheld[j], unheld[k]);
      }
    }
  }

  /** How many entries a job needs. */
  ghost function SidesIn(job: Job): nat {
    if Shaped(job) then Sides(job, |job.tree.leaves|) else 0
  }

  function StatesOf(b: bv8, sides: seq<Side>, want: SideState, k: nat): nat
    requires k <= |sides|
  {
    if k == 0 then 0 else StatesOf(b, sides, want, k - 1) + if StateOf(b, sides[k - 1]) == want then 1 else 0
  }

  lemma NoStates(st: Saved, i: nat, sides: seq<Side>)
    requires i < |st.progress|
    ensures forall want :: StatesOf(st.progress[i], sides, want, 0) == 0
    ensures SaltsOf(st, i, sides, 0) == 0
  {
  }

  lemma OneState(st: Saved, i: nat, sides: seq<Side>, k: nat)
    requires i < |st.progress| && k < |sides|
    ensures var b, state := st.progress[i], StateOf(st.progress[i], sides[k]);
      && (forall want ::
            StatesOf(b, sides, want, k + 1) == StatesOf(b, sides, want, k) + if state == want then 1 else 0)
      && SaltsOf(st, i, sides, k + 1) ==
           SaltsOf(st, i, sides, k) + if state == Kept && (i, sides[k]) in st.salts then 1 else 0
  {
    hide StateOf;
  }

  lemma CountNothing(job: Job, progress: seq<bv8>)
    requires Shaped(job) && |progress| == |job.tree.leaves|
    ensures forall want :: Count(job, progress, want, 0) == 0
    ensures Sides(job, 0) == 0
  {
  }

  lemma CountNext(job: Job, progress: seq<bv8>, i: nat)
    requires Shaped(job) && i < |job.tree.leaves| == |progress|
    ensures var sides := SidesOf(job.tree, i);
      && 1 <= |sides| <= 2 && Sides(job, i + 1) == Sides(job, i) + |sides|
      && forall want :: Count(job, progress, want, i + 1) ==
           Count(job, progress, want, i) + StatesOf(progress[i], sides, want, |sides|)
  {
    hide JobReads, StateOf, LeafShape;
    forall want
      ensures Count(job, progress, want, i + 1) ==
        Count(job, progress, want, i) + StatesOf(progress[i], SidesOf(job.tree, i), want, |SidesOf(job.tree, i)|)
    {
      AllStates(progress[i], SidesOf(job.tree, i), want);
    }
  }

  lemma AllStates(b: bv8, sides: seq<Side>, want: SideState)
    requires 1 <= |sides| <= 2
    ensures StatesOf(b, sides, want, |sides|) == InState(b, sides, want)
  {
    hide StateOf;
    assert StatesOf(b, sides, want, 0) == 0;
    assert StatesOf(b, sides, want, 1) == if StateOf(b, sides[0]) == want then 1 else 0;
  }

  lemma KeptIsCount(job: Job, progress: seq<bv8>)
    requires Shaped(job) && |progress| == |job.tree.leaves|
    ensures KeptOf(job, progress) == Count(job, progress, Kept, |progress|) && SidesIn(job) == Sides(job, |progress|)
  {
    hide JobReads, Count, Sides;
  }

  /** One run of a series: what others write before it, what meets it, and which of the states there are it takes up. */
  datatype Life = Life(foreign: Entries, script: seq<Move>, random: seq<Bytes>, retries: nat, pick: nat)

  /**
   * Any number of runs, each cut off where its script ends and begun from any state there is by then: the fresh one, or
   * one that some run before handed out or reported. What any of them claims is true of the store, then and later.
   */
  method ManyRuns(job: Job, entries: Entries, lives: seq<Life>) returns (states: seq<Saved>, stored: Entries)
    requires JobReads(job) && forall l :: l in lives ==> forall r :: r in l.random ==> r in job.salts
    ensures Grows(entries, stored) && forall s :: s in states ==> Truthful(job, stored, s)
  {
    hide JobReads, Truthful, Grows, Sane, Willing;
    states, stored := [Saved(seq(|job.tree.leaves|, _ => 0), map[])], entries;
    StartIsTrue(job, entries);
    GrowsSame(entries);
    for k := 0 to |lives|
      invariant states != [] && Grows(entries, stored)
      invariant forall s :: s in states ==> Truthful(job, stored, s)
    {
      var l := lives[k];
      var met := l.foreign + stored;
      ForeignGrows(stored, l.foreign);
      AllGrow(job, stored, met, states);
      var state := states[if l.pick < |states| then l.pick else 0];
      var writer := new Writer(job, state, met, l.script, l.random);
      var report := writer.WriteRecoveryEntries(l.retries);
      GrowsOn(entries, stored, met);
      GrowsOn(entries, met, writer.entries);
      SavedTrue(job, writer.entries, writer.State(), writer.saved, writer.random);
      AllGrow(job, met, writer.entries, states);
      states := states + writer.saved + (if report.Some? then [report.value.state] else []);
      stored := writer.entries;
    }
  }

  lemma AllGrow(job: Job, a: Entries, b: Entries, states: seq<Saved>)
    requires Grows(a, b) && forall s :: s in states ==> Truthful(job, a, s)
    ensures forall s :: s in states ==> Truthful(job, b, s)
  {
    hide JobReads, Truthful, Grows;
    forall s | s in states ensures Truthful(job, b, s) {
      TruthGrows(job, a, b, s);
    }
  }

  lemma ForeignGrows(a: Entries, foreign: Entries)
    ensures Grows(a, foreign + a)
  {
  }

  lemma SavedTrue(job: Job, entries: Entries, st: Saved, saved: seq<Saved>, random: seq<Bytes>)
    requires Sane(job, entries, st, saved, random)
    ensures Truthful(job, entries, st) && forall s :: s in saved ==> Truthful(job, entries, s)
  {
    hide JobReads, Truthful;
  }
}
