/**
 * Recovery entries, as src/recovery.ts names, seals, opens and lists them. Documents are records, and text that
 * spells bytes is the bytes. A sealed envelope opens only under its digest's key and its own object key.
 */
module RecoveryEntry {
  import opened Bytes
  import opened Lex
  import opened Placement
  import opened TreeMember
  import R = Rfc6962

  const LOOKUP_LABEL: Bytes := [98, 105, 116, 103, 114, 97, 112, 104, 45, 108, 111, 111, 107, 117, 112]
  const ENTRY_LABEL: Bytes := LOOKUP_LABEL + [45, 101, 110, 116, 114, 121]
  const SALTED_ENTRY_LABEL: Bytes := ENTRY_LABEL + [47, 115, 97, 108, 116, 101, 100]
  const SALT_BYTES: nat := 32
  const MAX_NAME_BYTES: nat := 512
  const MAX_COUNTER: nat := 99999999999999999999

  // ------------------------------------------------------------------ progress, side by side

  datatype Side = Origin | Artifact | AsIs
  datatype SideState = Kept | Pending | Blocked

  function KeptBits(side: Side): bv8 {
    match side case Origin => 1 case Artifact => 2 case AsIs => 3
  }

  function BlockedBits(side: Side): bv8 {
    match side case Origin => 4 case Artifact => 8 case AsIs => 12
  }

  function StateOf(b: bv8, side: Side): SideState {
    if b & KeptBits(side) == KeptBits(side) then Kept
    else if b & BlockedBits(side) == BlockedBits(side) then Blocked
    else Pending
  }

  /** A side marked kept, or else blocked. */
  function Mark(b: bv8, side: Side, kept: bool): bv8 {
    b | (if kept then KeptBits(side) else BlockedBits(side))
  }

  /** The sides of one member: one, or two that are not that one. */
  predicate Together(a: Side, b: Side) {
    a == b || (a != Side.AsIs && b != Side.AsIs)
  }

  /** Marking one side of a member kept or blocked says so of that side and nothing of its other one. */
  lemma MarksOneSide(b: bv8, side: Side, other: Side)
    requires Together(side, other)
    ensures StateOf(Mark(b, side, true), side) == Kept
    ensures StateOf(Mark(b, side, false), side) == (if StateOf(b, side) == Kept then Kept else Blocked)
    ensures other != side ==>
      StateOf(Mark(b, side, true), other) == StateOf(Mark(b, side, false), other) == StateOf(b, other)
  {
  }

  // -------------------------------------------------------------------------- the tree

  datatype Locator = Locator(epochId: Bytes, counter: nat, digest: Bytes)

  predicate LocatorReads(l: Locator) {
    |l.epochId| == DIGEST && l.counter <= MAX_COUNTER && |l.digest| == DIGEST
  }

  datatype Tree = Tree(proofHash: Bytes, locator: Locator, rootDocument: Bytes, leaves: seq<Bytes>)

  function LeafHashes(env: Env, leaves: seq<Bytes>): (hs: seq<Bytes>)
    ensures |hs| == |leaves| && forall i :: 0 <= i < |hs| ==> hs[i] == LeafHash(env, leaves[i])
  {
    seq(|leaves|, i requires 0 <= i < |leaves| => LeafHash(env, leaves[i]))
  }

  predicate LeavesRise(leaves: seq<Bytes>) {
    && (forall i :: 0 <= i < |leaves| ==> LeafShape(leaves[i]))
    && (forall i :: 0 < i < |leaves| ==> Compare(leaves[i - 1][1..33], leaves[i][1..33]) < 0)
  }

  /** What is checked before anything is sealed. */
  predicate TreeReads(env: Env, t: Tree) {
    && |t.proofHash| == DIGEST && LocatorReads(t.locator)
    && ParseRootDoc(t.rootDocument).Some? && env.hash(t.rootDocument) == t.locator.digest
    && |t.leaves| == ParseRootDoc(t.rootDocument).value.count >= 1 && LeavesRise(t.leaves)
    && R.Mth(Node(env), LeafHashes(env, t.leaves)) == ParseRootDoc(t.rootDocument).value.root
  }

  method TreeFromParts(env: Env, t: Tree) returns (r: Result<Tree>)
    ensures r == if TreeReads(env, t) then Ok(t) else Err
  {
    hide R.Mth, Compare, ParseRootDoc;
    if |t.proofHash| != DIGEST || !LocatorReads(t.locator) {
      return Err;
    }
    var doc := ParseRootDoc(t.rootDocument);
    if doc.None? || env.hash(t.rootDocument) != t.locator.digest || |t.leaves| == 0 || |t.leaves| != doc.value.count {
      return Err;
    }
    var hashes: seq<Bytes> := [];
    for i := 0 to |t.leaves|
      invariant hashes == LeafHashes(env, t.leaves)[..i]
      invariant LeavesRise(t.leaves[..i])
    {
      if !LeafShape(t.leaves[i]) {
        return Err;
      }
      if i > 0 && Compare(t.leaves[i - 1][1..33], t.leaves[i][1..33]) >= 0 {
        return Err;
      }
      RiseNext(t.leaves, i);
      hashes := hashes + [LeafHash(env, t.leaves[i])];
    }
    assert t.leaves[..|t.leaves|] == t.leaves && hashes == LeafHashes(env, t.leaves);
    r := if R.Mth(Node(env), hashes) == doc.value.root then Ok(t) else Err;
  }

  lemma RiseNext(leaves: seq<Bytes>, i: nat)
    requires i < |leaves| && LeavesRise(leaves[..i]) && LeafShape(leaves[i])
    requires i > 0 ==> LeafShape(leaves[i - 1]) && Compare(leaves[i - 1][1..33], leaves[i][1..33]) < 0
    ensures LeavesRise(leaves[..i + 1])
  {
    hide Compare;
    var a, b := leaves[..i], leaves[..i + 1];
    forall k | 0 <= k < |b| ensures LeafShape(b[k]) {
      if k < i {
        assert b[k] == a[k];
      }
    }
    forall k | 0 < k < |b| ensures Compare(b[k - 1][1..33], b[k][1..33]) < 0 {
      if k < i {
        assert b[k] == a[k] && b[k - 1] == a[k - 1];
      }
    }
  }

  /** Ascending neighbours: no committed digest is in the list twice. */
  lemma {:induction false} LeavesDiffer(leaves: seq<Bytes>, i: nat, j: nat)
    requires LeavesRise(leaves) && i < j < |leaves|
    ensures Compare(leaves[i][1..33], leaves[j][1..33]) < 0 && leaves[i][1..33] != leaves[j][1..33]
    decreases j
  {
    hide Compare;
    assert Compare(leaves[j - 1][1..33], leaves[j][1..33]) < 0;
    if i < j - 1 {
      LeavesDiffer(leaves, i, j - 1);
      CompareBelow(leaves[i][1..33], leaves[j - 1][1..33], leaves[j][1..33]);
    }
    CompareSame(leaves[i][1..33], leaves[j][1..33]);
  }

  lemma CompareBelow(a: Bytes, b: Bytes, c: Bytes)
    requires Compare(a, b) < 0 && Compare(b, c) < 0
    ensures Compare(a, c) < 0
  {
    hide Compare;
    CompareChains(a, b, c);
    CompareFlips(b, c);
    if Compare(a, c) == 0 {
      CompareSame(a, c);
    }
    CompareFlips(a, b);
  }

  function SidesOf(t: Tree, i: nat): seq<Side>
    requires i < |t.leaves| && LeafShape(t.leaves[i])
  {
    if t.leaves[i][0] == 0 then [Side.AsIs] else [Origin, Artifact]
  }

  function DigestOf(t: Tree, i: nat, side: Side): (d: Bytes)
    requires i < |t.leaves| && LeafShape(t.leaves[i])
    ensures |d| == DIGEST
  {
    if side == Artifact then t.leaves[i][1..33] else t.leaves[i][33..65]
  }

  // --------------------------------------------------------------------- names and plaintexts

  datatype Key = Key(address: Bytes, entryId: Bytes)

  datatype Plaintext = Plaintext(proofHash: Bytes, leafIndex: nat, rootDocument: Bytes, member: Evidence,
                                 proof: Locator, salt: Option<Bytes>, name: Option<Bytes>)

  /** What an entry's name is the hash of: salted when there is a salt. */
  function NameInput(digest: Bytes, proofHash: Bytes, i: nat, salt: Option<Bytes>): Bytes {
    match salt
    case None => ENTRY_LABEL + (digest + proofHash + BeBytes(i, 4))
    case Some(s) => SALTED_ENTRY_LABEL + (digest + proofHash + BeBytes(i, 4)) + s
  }

  function Address(env: Env, digest: Bytes): Bytes {
    env.hash(LOOKUP_LABEL + digest)
  }

  function EntryId(env: Env, digest: Bytes, proofHash: Bytes, i: nat, salt: Option<Bytes>): Bytes {
    env.hash(NameInput(digest, proofHash, i, salt))
  }

  function EntryIdOf(env: Env, digest: Bytes, p: Plaintext): Bytes {
    EntryId(env, digest, p.proofHash, p.leafIndex, p.salt)
  }

  /** The strict reader of a plaintext: everything that needs nothing but the plaintext. */
  predicate PlaintextReads(env: Env, p: Plaintext) {
    && |p.proofHash| == DIGEST && LocatorReads(p.proof) && p.proof.digest == env.hash(p.rootDocument)
    && ParseRootDoc(p.rootDocument).Some? && LeafShape(p.member.leaf)
    && p.member.index == p.leafIndex && p.member.count == ParseRootDoc(p.rootDocument).value.count
    && RootOf(env, p.member) == Some(ParseRootDoc(p.rootDocument).value.root)
    && (p.salt.Some? ==> |p.salt.value| == SALT_BYTES)
    && (p.name.Some? ==> 1 <= |p.name.value| <= MAX_NAME_BYTES)
  }

  /** The same member of the same recording: every field but the advisory name and the salt. */
  predicate SameMember(a: Plaintext, b: Plaintext) {
    && a.proofHash == b.proofHash && a.leafIndex == b.leafIndex && a.rootDocument == b.rootDocument
    && a.member == b.member && a.proof == b.proof
  }

  /** Nothing but the advisory name and the salt may differ. */
  lemma SameMemberIs(a: Plaintext, b: Plaintext)
    ensures SameMember(a, b) <==> a.(name := b.name, salt := b.salt) == b
  {
  }

  function PlaintextFor(env: Env, t: Tree, i: nat, name: Option<Bytes>, salt: Option<Bytes>): Plaintext
    requires i < |t.leaves| && |t.leaves| >= 1
  {
    Plaintext(t.proofHash, i, t.rootDocument,
      Evidence(t.leaves[i], i, |t.leaves|, R.AuditPath(Node(env), LeafHashes(env, t.leaves), i)),
              t.locator, salt, name)
  }

  /** What is sealed is read: an honest member's plaintext passes the strict reader. */
  lemma PlaintextForReads(env: Env, t: Tree, i: nat, name: Option<Bytes>, salt: Option<Bytes>)
    requires TreeReads(env, t) && i < |t.leaves|
    requires (salt.Some? ==> |salt.value| == SALT_BYTES) && (name.Some? ==> 1 <= |name.value| <= MAX_NAME_BYTES)
    ensures PlaintextReads(env, PlaintextFor(env, t, i, name, salt))
  {
    hide R.Mth, R.AuditPath, R.Climb, ParseRootDoc, LeafShape, Compare, LeafHash;
    R.PathReachesRoot(Node(env), LeafHashes(env, t.leaves), i);
  }

  // ----------------------------------------------------------------------------- envelopes

  /**
   * Sealed under a digest's key at an object key, over a plaintext or over bytes that are none; or not a version 1
   * envelope.
   */
  datatype Envelope = Sealed(digest: Bytes, objectKey: Key, content: Option<Plaintext>) | Foreign

  function Open(digest: Bytes, key: Key, e: Envelope): Option<Plaintext> {
    if e.Sealed? && e.digest == digest && e.objectKey == key then e.content else None
  }

  datatype Recovered = Recovered(key: Key, plaintext: Plaintext, matched: Side)

  /** What a reader takes from one listed item, whose key is under the digest's address. */
  function OpenListed(env: Env, digest: Bytes, key: Key, e: Envelope): Option<Recovered> {
    match Open(digest, key, e)
    case None => None
    case Some(p) =>
      if !PlaintextReads(env, p) || EntryIdOf(env, digest, p) != key.entryId then None
      else if p.member.leaf[1..33] != digest && p.member.leaf[33..65] != digest then None
      else
        var leaf := p.member.leaf;
        Some(Recovered(key, p, if leaf[0] == 0 then Side.AsIs else if leaf[33..65] == digest then Origin else Artifact))
  }

  // -------------------------------------------------------------------- what a listed entry means

  /** Everything hashed for a tree and for an entry that claims a leaf of it. */
  ghost function ListedInputs(env: Env, t: Tree, p: Plaintext): set<Bytes> {
    {t.rootDocument, p.rootDocument, [0] + p.member.leaf}
    + (set i | 0 <= i < |t.leaves| :: [0] + t.leaves[i])
    + if 0 <= p.member.index < |t.leaves| then PathInputs(env, LeafHashes(env, t.leaves), p.member) else {}
  }

  lemma ListedHashed(env: Env, t: Tree, p: Plaintext)
    ensures var all := ListedInputs(env, t, p);
      && t.rootDocument in all && p.rootDocument in all && [0] + p.member.leaf in all
      && (forall i :: 0 <= i < |t.leaves| ==> [0] + t.leaves[i] in all)
      && (0 <= p.member.index < |t.leaves| ==> PathInputs(env, LeafHashes(env, t.leaves), p.member) <= all)
  {
    hide PathInputs, LeafHashes;
  }

  /**
   * Whoever wrote an entry: when it is listed for a digest and its locator names a tree's document, it holds a leaf
   * of that tree at its own index, one that has that digest on the side it was matched by.
   */
  lemma ListedMeans(env: Env, t: Tree, digest: Bytes, key: Key, e: Envelope)
    requires TreeReads(env, t) && FullWidth(env) && OpenListed(env, digest, key, e).Some?
    requires OpenListed(env, digest, key, e).value.plaintext.proof.digest == t.locator.digest
    requires CollisionFreeOn(env.hash, ListedInputs(env, t, OpenListed(env, digest, key, e).value.plaintext))
    ensures var r := OpenListed(env, digest, key, e).value; var p := r.plaintext;
      && p.rootDocument == t.rootDocument && p.leafIndex == p.member.index < |t.leaves|
      && p.member.leaf == t.leaves[p.leafIndex] && LeafShape(t.leaves[p.leafIndex])
      && r.matched in SidesOf(t, p.leafIndex) && DigestOf(t, p.leafIndex, r.matched) == digest
      && key.entryId == EntryId(env, digest, p.proofHash, p.leafIndex, p.salt)
  {
    hide R.Mth, R.Climb, ParseRootDoc, PathInputs, ListedInputs, CollisionFreeOn, FullWidth, LeavesRise;
    var p := OpenListed(env, digest, key, e).value.plaintext;
    var all, hs := ListedInputs(env, t, p), LeafHashes(env, t.leaves);
    ListedHashed(env, t, p);
    OneInput(env.hash, all, p.rootDocument, t.rootDocument);
    forall i | 0 <= i < |hs| ensures |hs[i]| == DIGEST {
      LeafHashFull(env, t.leaves[i]);
    }
    PathTellsLeaf(env, hs, t.leaves[p.leafIndex], p.member, all);
    assert LeafShape(p.member.leaf);
  }

  /** The writer's test of what is stored at a key it asked for. */
  predicate HoldsMember(env: Env, digest: Bytes, key: Key, e: Envelope, expected: Plaintext) {
    match Open(digest, key, e)
    case None => false
    case Some(p) => PlaintextReads(env, p) && SameMember(p, expected) && EntryIdOf(env, digest, p) == key.entryId
  }

  /** The writer counts an entry as this member's exactly when a reader of its digest lists it as this member. */
  lemma HeldIsListed(env: Env, digest: Bytes, key: Key, e: Envelope, expected: Plaintext)
    requires LeafShape(expected.member.leaf)
    requires expected.member.leaf[1..33] == digest || expected.member.leaf[33..65] == digest
    ensures HoldsMember(env, digest, key, e, expected) <==>
            OpenListed(env, digest, key, e).Some? &&
              SameMember(OpenListed(env, digest, key, e).value.plaintext, expected)
  {
    hide PlaintextReads, EntryIdOf, LeafShape;
    if Open(digest, key, e).Some? {
      ReadsShape(env, Open(digest, key, e).value);
    }
  }

  lemma ReadsShape(env: Env, p: Plaintext)
    ensures PlaintextReads(env, p) ==> LeafShape(p.member.leaf)
  {
    hide LeafShape;
  }

  // --------------------------------------------------------------------------- names differ

  predicate SaltFits(salt: Option<Bytes>) {
    salt.Some? ==> |salt.value| == SALT_BYTES
  }

  lemma Pow4Large()
    ensures Pow256(4) == 4294967296
  {
  }

  /** A name tells its digest and its leaf. */
  lemma NameTells(d: Bytes, p: Bytes, i: nat, s: Option<Bytes>, d': Bytes, q: Bytes, j: nat, t: Option<Bytes>)
    requires |d| == |d'| == |p| == |q| == DIGEST && SaltFits(s) && SaltFits(t) && i < 4294967296 && j < 4294967296
    requires NameInput(d, p, i, s) == NameInput(d', q, j, t)
    ensures d == d' && p == q && i == j && s == t
  {
    hide BeBytes, BeNat, Pow256;
    Pow4Large();
    var a, b := NameInput(d, p, i, s), NameInput(d', q, j, t);
    assert |a| == (if s.None? then 89 else 128) && |b| == (if t.None? then 89 else 128);
    NameParts(d, p, i, s);
    NameParts(d', q, j, t);
    BeNatOfBeBytes(i, 4);
    BeNatOfBeBytes(j, 4);
  }

  /** What is hashed for a name, apart from the digest it is listed under. */
  function NamedBy(digest: Bytes, p: Plaintext): Bytes {
    NameInput(digest, p.proofHash, p.leafIndex, p.salt)
  }

  /**
   * A key names one member: two envelopes that are listed under it, for whatever digests, are of the same digest,
   * proof, leaf and salt.
   */
  lemma KeyTells(env: Env, d: Bytes, d': Bytes, key: Key, e: Envelope, e': Envelope)
    requires |d| == |d'| == DIGEST
    requires OpenListed(env, d, key, e).Some? && OpenListed(env, d', key, e').Some?
    requires CollisionFreeOn(env.hash, {NamedBy(d, OpenListed(env, d, key, e).value.plaintext),
      NamedBy(d', OpenListed(env, d', key, e').value.plaintext)})
    ensures var p, q := OpenListed(env, d, key, e).value.plaintext, OpenListed(env, d', key, e').value.plaintext;
      d == d' && p.proofHash == q.proofHash && p.leafIndex == q.leafIndex && p.salt == q.salt
  {
    hide NameInput, R.Climb, ParseRootDoc, RootOf;
    var p, q := OpenListed(env, d, key, e).value.plaintext, OpenListed(env, d', key, e').value.plaintext;
    OneInput(env.hash, {NamedBy(d, p), NamedBy(d', q)}, NamedBy(d, p), NamedBy(d', q));
    IndexSmall(env, p);
    IndexSmall(env, q);
    NameTells(d, p.proofHash, p.leafIndex, p.salt, d', q.proofHash, q.leafIndex, q.salt);
  }

  lemma IndexSmall(env: Env, p: Plaintext)
    requires PlaintextReads(env, p)
    ensures p.leafIndex < MAX_MEMBERS && |p.proofHash| == DIGEST && SaltFits(p.salt)
  {
    hide R.Climb, LeafShape;
  }

  lemma NameParts(d: Bytes, p: Bytes, i: nat, s: Option<Bytes>)
    requires |d| == |p| == DIGEST && SaltFits(s)
    ensures var a, skip := NameInput(d, p, i, s), if s.None? then 21 else 28;
      && |a| == (if s.None? then 89 else 128) && a[skip..skip + 32] == d && a[skip + 32..skip + 64] == p
      && a[skip + 64..skip + 68] == BeBytes(i, 4)
      && (s.Some? ==> a[96..] == s.value)
  {
    hide BeBytes;
    var a, body := NameInput(d, p, i, s), d + p + BeBytes(i, 4);
    assert body[..32] == d && body[32..64] == p && body[64..68] == BeBytes(i, 4);
    if s.None? {
      assert a == ENTRY_LABEL + body;
      assert a[21..89] == body;
      SliceOfSlice(a, 21, 89, 0, 32);
      SliceOfSlice(a, 21, 89, 32, 64);
      SliceOfSlice(a, 21, 89, 64, 68);
    } else {
      assert a == SALTED_ENTRY_LABEL + body + s.value;
      assert a[28..96] == body;
      SliceOfSlice(a, 28, 96, 0, 32);
      SliceOfSlice(a, 28, 96, 32, 64);
      SliceOfSlice(a, 28, 96, 64, 68);
    }
  }

  // ------------------------------------------------------------------------------- listings

  datatype Item = Item(key: Key, envelope: Envelope)

  /** One read of a listing: failed, or a page and the cursor of the next. */
  datatype PageReply = ReadFailed | Page(items: seq<Item>, next: Option<Bytes>)

  /** The entries of one page that open for the digest; Err for an item that is not under its address. */
  function Opened(env: Env, digest: Bytes, items: seq<Item>): Result<seq<Recovered>> {
    if items == [] then Ok([]) else
      match Opened(env, digest, Init(items))
      case Err => Err
      case Ok(found) =>
        if Last(items).key.address != Address(env, digest) then Err else
          match OpenListed(env, digest, Last(items).key, Last(items).envelope)
          case None => Ok(found)
          case Some(r) => Ok(found + [r])
  }

  predicate Listed(found: seq<Recovered>, p: Plaintext) {
    exists i :: 0 <= i < |found| && SameMember(found[i].plaintext, p)
  }

  /** One listing per member: the first. */
  function Deduped(entries: seq<Recovered>): seq<Recovered> {
    if entries == [] then [] else
      var rest := Deduped(Init(entries));
      if Listed(rest, Last(entries).plaintext) then rest else rest + [Last(entries)]
  }

  predicate Advances(after: Option<Bytes>, next: Bytes) {
    |next| == DIGEST && (after.Some? ==> Compare(next, after.value) > 0)
  }

  /** A listing read to its end, or none: `left` pages may still be asked for. */
  function Collected(env: Env, digest: Bytes, pages: seq<PageReply>, after: Option<Bytes>,
      left: nat): Result<seq<Recovered>> {
    if left == 0 || pages == [] || pages[0].ReadFailed? then Err else
      match Opened(env, digest, pages[0].items)
      case Err => Err
      case Ok(found) =>
        match pages[0].next
        case None => Ok(found)
        case Some(next) =>
          if !Advances(after, next) then Err
          else FollowedBy(found, Collected(env, digest, pages[1..], Some(next), left - 1))
  }

  /**
   * The first `n` pages are a listing: pages of the address alone, each cursor but the last page's a 32-byte one beyond
   * the one before it, the last page without one.
   */
  ghost predicate LeadsToEnd(env: Env, digest: Bytes, pages: seq<PageReply>, after: Option<Bytes>, n: nat) {
    && 1 <= n <= |pages|
    && (forall k :: 0 <= k < n ==> pages[k].Page? && OfAddress(env, digest, pages[k].items))
    && (forall k :: 0 <= k < n ==> (pages[k].next.None? <==> k == n - 1))
    && (forall k :: 0 <= k < n - 1 ==> |pages[k].next.value| == DIGEST)
    && (n > 1 && after.Some? ==> Compare(after.value, pages[0].next.value) < 0)
    && (forall k :: 0 < k < n - 1 ==> Compare(pages[k - 1].next.value, pages[k].next.value) < 0)
  }

  ghost predicate OfAddress(env: Env, digest: Bytes, items: seq<Item>) {
    forall item :: item in items ==> item.key.address == Address(env, digest)
  }

  function ItemsThrough(pages: seq<PageReply>, n: nat): seq<Item>
    requires n <= |pages| && forall k :: 0 <= k < n ==> pages[k].Page?
  {
    if n == 0 then [] else pages[0].items + ItemsThrough(pages[1..], n - 1)
  }

  lemma {:induction false} OpenedWhen(env: Env, digest: Bytes, items: seq<Item>)
    ensures Opened(env, digest, items).Ok? <==> OfAddress(env, digest, items)
  {
    hide OpenListed, Address;
    if items != [] {
      assert items == Init(items) + [Last(items)];
      assert forall item :: item in Init(items) ==> item in items;
      OpenedWhen(env, digest, Init(items));
    }
  }

  lemma {:induction false} OpenedJoin(env: Env, digest: Bytes, a: seq<Item>, b: seq<Item>)
    requires Opened(env, digest, a).Ok?
    ensures Opened(env, digest, a + b) == FollowedBy(Opened(env, digest, a).value, Opened(env, digest, b))
    decreases |b|
  {
    hide OpenListed, Address;
    if b == [] {
      assert a + b == a;
      assert Opened(env, digest, a).value + [] == Opened(env, digest, a).value;
    } else {
      assert Init(a + b) == a + Init(b) && Last(a + b) == Last(b);
      OpenedJoin(env, digest, a, Init(b));
      var first, before := Opened(env, digest, a).value, Opened(env, digest, Init(b));
      if before.Ok? {
        var found := OpenListed(env, digest, Last(b).key, Last(b).envelope);
        var more := if found.Some? then [found.value] else [];
        assert (first + before.value) + more == first + (before.value + more);
      }
    }
  }

  /** A listing is collected exactly when some number of pages, at most so many, is one; then all that opens in it. */
  lemma {:induction false} CollectedWhen(env: Env, digest: Bytes, pages: seq<PageReply>, after: Option<Bytes>,
      left: nat)
    ensures Collected(env, digest, pages, after, left).Ok? <==>
      exists n: nat :: n <= left && LeadsToEnd(env, digest, pages, after, n)
    ensures forall n: nat :: n <= left && LeadsToEnd(env, digest, pages, after, n) ==>
      Collected(env, digest, pages, after, left) == Opened(env, digest, ItemsThrough(pages, n))
    decreases left
  {
    hide Collected, Opened, OfAddress, Compare;
    CollectedNext(env, digest, pages, after, left);
    if left > 0 && pages != [] && pages[0].Page? {
      OpenedWhen(env, digest, pages[0].items);
      if pages[0].next.Some? {
        var next := pages[0].next.value;
        CollectedWhen(env, digest, pages[1..], Some(next), left - 1);
        CompareFlips(next, if after.Some? then after.value else next);
        forall n | 1 <= n <= left
          ensures LeadsToEnd(env, digest, pages, after, n) <==>
            && OfAddress(env, digest, pages[0].items) && Advances(after, next)
            && LeadsToEnd(env, digest, pages[1..], Some(next), n - 1)
        {
          LeadsOn(env, digest, pages, after, n);
        }
        forall n: nat | n <= left && LeadsToEnd(env, digest, pages, after, n)
          ensures Collected(env, digest, pages, after, left) == Opened(env, digest, ItemsThrough(pages, n))
        {
          OpenedJoin(env, digest, pages[0].items, ItemsThrough(pages[1..], n - 1));
        }
        if n: nat :| n <= left - 1 && LeadsToEnd(env, digest, pages[1..], Some(next), n) {
          assert LeadsToEnd(env, digest, pages, after, n + 1) <==>
            OfAddress(env, digest, pages[0].items) && Advances(after, next);
        }
      } else {
        assert LeadsToEnd(env, digest, pages, after, 1) <==> OfAddress(env, digest, pages[0].items);
        assert pages[0].items + [] == pages[0].items && ItemsThrough(pages[1..], 0) == [];
      }
    }
  }

  lemma CollectedNext(env: Env, digest: Bytes, pages: seq<PageReply>, after: Option<Bytes>, left: nat)
    ensures Collected(env, digest, pages, after, left) ==
      if left == 0 || pages == [] || pages[0].ReadFailed? || Opened(env, digest, pages[0].items).Err? then Err
      else if pages[0].next.None? then Opened(env, digest, pages[0].items)
      else if !Advances(after, pages[0].next.value) then Err
      else FollowedBy(Opened(env, digest, pages[0].items).value,
        Collected(env, digest, pages[1..], pages[0].next, left - 1))
  {
    hide Opened;
  }

  lemma LeadsOn(env: Env, digest: Bytes, pages: seq<PageReply>, after: Option<Bytes>, n: nat)
    requires n >= 1 && pages != [] && pages[0].Page? && pages[0].next.Some?
    ensures LeadsToEnd(env, digest, pages, after, n) <==>
      && OfAddress(env, digest, pages[0].items) && Advances(after, pages[0].next.value)
      && LeadsToEnd(env, digest, pages[1..], pages[0].next, n - 1)
  {
    hide OfAddress, Compare;
    var rest, next := pages[1..], pages[0].next.value;
    CompareFlips(next, if after.Some? then after.value else next);
    if n > 1 && |pages| >= n {
      assert forall k :: 0 <= k < n - 1 ==> rest[k] == pages[k + 1];
      if LeadsToEnd(env, digest, rest, Some(next), n - 1) {
        forall k | 0 <= k < n
          ensures pages[k].Page? && (k > 0 ==> OfAddress(env, digest, pages[k].items))
          ensures (pages[k].next.None? <==> k == n - 1)
        {
          if k > 0 {
            assert pages[k] == rest[k - 1];
          }
        }
        forall k | 0 < k < n - 1
          ensures |pages[k].next.value| == DIGEST && Compare(pages[k - 1].next.value, pages[k].next.value) < 0
        {
          assert pages[k] == rest[k - 1];
          if k > 1 {
            assert pages[k - 1] == rest[k - 2];
          }
        }
      }
    }
  }

  method OpenPage(env: Env, digest: Bytes, items: seq<Item>) returns (r: Result<seq<Recovered>>)
    ensures r == Opened(env, digest, items)
  {
    hide OpenListed;
    var out: seq<Recovered> := [];
    assert items[..0] == [];
    for k := 0 to |items|
      invariant Opened(env, digest, items[..k]) == Ok(out)
    {
      assert items[..k + 1] == items[..k] + [items[k]];
      Snoc(items[..k], items[k]);
      if items[k].key.address != Address(env, digest) {
        OpenedFails(env, digest, items, k + 1);
        return Err;
      }
      var found := OpenListed(env, digest, items[k].key, items[k].envelope);
      if found.Some? {
        out := out + [found.value];
      }
    }
    assert items[..|items|] == items;
    r := Ok(out);
  }

  lemma {:induction false} OpenedFails(env: Env, digest: Bytes, items: seq<Item>, k: nat)
    requires k <= |items| && Opened(env, digest, items[..k]).Err?
    ensures Opened(env, digest, items).Err?
    decreases |items| - k
  {
    hide OpenListed;
    if k == |items| {
      assert items[..k] == items;
    } else {
      assert items[..k + 1] == items[..k] + [items[k]];
      Snoc(items[..k], items[k]);
      OpenedFails(env, digest, items, k + 1);
    }
  }

  method Dedupe(entries: seq<Recovered>) returns (out: seq<Recovered>)
    ensures out == Deduped(entries)
  {
    hide SameMember;
    out := [];
    assert entries[..0] == [];
    for k := 0 to |entries|
      invariant out == Deduped(entries[..k])
    {
      assert entries[..k + 1] == entries[..k] + [entries[k]];
      Snoc(entries[..k], entries[k]);
      if !Listed(out, entries[k].plaintext) {
        out := out + [entries[k]];
      }
    }
    assert entries[..|entries|] == entries;
  }

  method CollectPages(env: Env, digest: Bytes, pages: seq<PageReply>, maxPages: nat) returns (r: Result<seq<Recovered>>)
    ensures var all := Collected(env, digest, pages, None, maxPages);
      r == if all.Err? then Err else Ok(Deduped(all.value))
  {
    hide Opened, Deduped, Advances;
    var out: seq<Recovered> := [];
    var after: Option<Bytes> := None;
    var n := 0;
    FollowsNothing(Collected(env, digest, pages, None, maxPages));
    assert pages[0..] == pages;
    while true
      invariant 0 <= n <= maxPages && n <= |pages|
      invariant Collected(env, digest, pages, None, maxPages) ==
        FollowedBy(out, Collected(env, digest, pages[n..], after, maxPages - n))
      decreases maxPages - n
    {
      if n >= maxPages || n >= |pages| || pages[n].ReadFailed? {
        return Err;
      }
      var found := OpenPage(env, digest, pages[n].items);
      if found.Err? {
        return Err;
      }
      var next := pages[n].next;
      if next.None? {
        r := DedupeOk(out + found.value);
        return;
      }
      if !Advances(after, next.value) {
        return Err;
      }
      assert pages[n..][1..] == pages[n + 1..];
      FollowsTwice(out, found.value, Collected(env, digest, pages[n + 1..], next, maxPages - (n + 1)));
      out := out + found.value;
      after := next;
      n := n + 1;
    }
  }

  method DedupeOk(entries: seq<Recovered>) returns (r: Result<seq<Recovered>>)
    ensures r == Ok(Deduped(entries))
  {
    var out := Dedupe(entries);
    r := Ok(out);
  }

  lemma SameAsItself(p: Plaintext)
    ensures SameMember(p, p)
  {
  }

  lemma {:induction false} DedupedWere(entries: seq<Recovered>)
    ensures forall r :: r in Deduped(entries) ==> r in entries
  {
    hide SameMember, Listed;
    if entries != [] {
      DedupedWere(Init(entries));
      assert entries == Init(entries) + [Last(entries)];
    }
  }

  lemma {:induction false} DedupedCovers(entries: seq<Recovered>, k: nat)
    requires k < |entries|
    ensures Listed(Deduped(entries), entries[k].plaintext)
  {
    hide SameMember;
    var rest, d, p := Deduped(Init(entries)), Deduped(entries), entries[k].plaintext;
    if k == |entries| - 1 {
      if !Listed(rest, p) {
        SameAsItself(p);
        assert d[|rest|].plaintext == p;
      }
    } else {
      DedupedCovers(Init(entries), k);
      var i :| 0 <= i < |rest| && SameMember(rest[i].plaintext, p);
      assert d[i] == rest[i];
    }
  }

  lemma {:induction false} DedupedOnce(entries: seq<Recovered>, i: nat, j: nat)
    requires i < j < |Deduped(entries)|
    ensures !SameMember(Deduped(entries)[i].plaintext, Deduped(entries)[j].plaintext)
  {
    hide SameMember;
    var rest, d := Deduped(Init(entries)), Deduped(entries);
    if j < |rest| {
      DedupedOnce(Init(entries), i, j);
    }
  }

  lemma SameThrough(a: Plaintext, b: Plaintext, c: Plaintext)
    requires SameMember(a, b) && SameMember(b, c)
    ensures SameMember(a, c)
  {
  }

  /** The entry that stands for a member is the first of it. */
  lemma {:induction false} DedupedFirst(entries: seq<Recovered>, r: Recovered) returns (k: nat)
    requires r in Deduped(entries)
    ensures k < |entries| && entries[k] == r
    ensures forall i :: 0 <= i < k ==> !SameMember(entries[i].plaintext, r.plaintext)
  {
    hide SameMember;
    var rest := Deduped(Init(entries));
    if r in rest {
      k := DedupedFirst(Init(entries), r);
      forall i | 0 <= i < k ensures !SameMember(entries[i].plaintext, r.plaintext) {
        assert Init(entries)[i] == entries[i];
      }
    } else {
      k := |entries| - 1;
      forall i | 0 <= i < k ensures !SameMember(entries[i].plaintext, r.plaintext) {
        DedupedCovers(Init(entries), i);
        var j :| 0 <= j < |rest| && SameMember(rest[j].plaintext, Init(entries)[i].plaintext);
        if SameMember(entries[i].plaintext, r.plaintext) {
          SameThrough(rest[j].plaintext, entries[i].plaintext, r.plaintext);
        }
      }
    }
  }

  /** Every member listed is listed once, by an entry that was there. */
  lemma DedupedIs(entries: seq<Recovered>)
    ensures forall r :: r in Deduped(entries) ==> r in entries
    ensures forall r :: r in entries ==> Listed(Deduped(entries), r.plaintext)
    ensures var d := Deduped(entries); forall i, j :: 0 <= i < j < |d| ==> !SameMember(d[i].plaintext, d[j].plaintext)
  {
    hide SameMember, Listed, Deduped;
    DedupedWere(entries);
    forall r | r in entries ensures Listed(Deduped(entries), r.plaintext) {
      var k :| 0 <= k < |entries| && entries[k] == r;
      DedupedCovers(entries, k);
    }
    forall i, j | 0 <= i < j < |Deduped(entries)|
      ensures !SameMember(Deduped(entries)[i].plaintext, Deduped(entries)[j].plaintext)
    {
      DedupedOnce(entries, i, j);
    }
  }

  /** The items of the pages that a whole reading takes in. */
  ghost predicate InPages(pages: seq<PageReply>, item: Item) {
    exists k :: 0 <= k < |pages| && pages[k].Page? && item in pages[k].items
  }

  lemma {:induction false} OpenedIs(env: Env, digest: Bytes, items: seq<Item>)
    requires Opened(env, digest, items).Ok?
    ensures forall r :: r in Opened(env, digest, items).value ==>
      exists item :: item in items && item.key.address == Address(env, digest) &&
        OpenListed(env, digest, item.key, item.envelope) == Some(r)
    ensures forall item :: item in items ==>
      OpenListed(env, digest, item.key, item.envelope).None? ||
        OpenListed(env, digest, item.key, item.envelope).value in Opened(env, digest, items).value
  {
    hide OpenListed, Address;
    if items != [] {
      OpenedIs(env, digest, Init(items));
      assert items == Init(items) + [Last(items)];
      assert forall item :: item in Init(items) ==> item in items;
    }
  }

  /** What is collected was listed, and opens as listed. */
  lemma {:induction false} CollectedIsListed(env: Env, digest: Bytes, pages: seq<PageReply>, after: Option<Bytes>,
      left: nat, r: Recovered)
    requires Collected(env, digest, pages, after, left).Ok? && r in Collected(env, digest, pages, after, left).value
    ensures exists item ::
      && InPages(pages, item) && item.key.address == Address(env, digest)
      && OpenListed(env, digest, item.key, item.envelope) == Some(r)
    decreases |pages|
  {
    hide OpenListed, Address, Opened, Advances, InPages;
    var found := Opened(env, digest, pages[0].items).value;
    if r in found {
      OpenedIs(env, digest, pages[0].items);
      var item :| item in pages[0].items && item.key.address == Address(env, digest) &&
        OpenListed(env, digest, item.key, item.envelope) == Some(r);
      FirstPage(pages, item);
    } else {
      CollectedIsListed(env, digest, pages[1..], pages[0].next, left - 1, r);
      var item :| InPages(pages[1..], item) && item.key.address == Address(env, digest) &&
        OpenListed(env, digest, item.key, item.envelope) == Some(r);
      LaterPage(pages, item);
    }
  }

  lemma FirstPage(pages: seq<PageReply>, item: Item)
    requires pages != [] && pages[0].Page? && item in pages[0].items
    ensures InPages(pages, item)
  {
  }

  lemma LaterPage(pages: seq<PageReply>, item: Item)
    requires pages != [] && InPages(pages[1..], item)
    ensures InPages(pages, item)
  {
    var k :| 0 <= k < |pages[1..]| && pages[1..][k].Page? && item in pages[1..][k].items;
    assert pages[k + 1] == pages[1..][k];
  }

  datatype Own = Own(key: Key, salt: Option<Bytes>)

  /** This member's own entry among those listed, the first there is. */
  method FindOwn(env: Env, digest: Bytes, expected: Plaintext, pages: seq<PageReply>, maxPages: nat)
    returns (r: Result<Option<Own>>)
    ensures r.Ok? <==> Collected(env, digest, pages, None, maxPages).Ok?
    ensures r.Ok? && r.value.Some? ==>
      exists item, f :: InPages(pages, item) && item.key.address == Address(env, digest) &&
        OpenListed(env, digest, item.key, item.envelope) == Some(f)
        && SameMember(f.plaintext, expected) && r.value.value == Own(f.key, f.plaintext.salt)
    ensures r.Ok? && r.value.None? ==>
      forall f :: f in Collected(env, digest, pages, None, maxPages).value ==> !SameMember(f.plaintext, expected)
  {
    hide Collected, Deduped, OpenListed, Address, InPages;
    ghost var all := Collected(env, digest, pages, None, maxPages);
    var collected := CollectPages(env, digest, pages, maxPages);
    if collected.Err? {
      return Err;
    }
    var entries := collected.value;
    DedupedIs(all.value);
    for k := 0 to |entries|
      invariant forall i :: 0 <= i < k ==> !SameMember(entries[i].plaintext, expected)
    {
      if SameMember(entries[k].plaintext, expected) {
        assert entries[k] in entries;
        CollectedIsListed(env, digest, pages, None, maxPages, entries[k]);
        ghost var item :| InPages(pages, item) && item.key.address == Address(env, digest) &&
          OpenListed(env, digest, item.key, item.envelope) == Some(entries[k]);
        return Ok(Some(Own(entries[k].key, entries[k].plaintext.salt)));
      }
    }
    forall f | f in all.value ensures !SameMember(f.plaintext, expected) {
      assert Listed(entries, f.plaintext);
    }
    r := Ok(None);
  }
}
