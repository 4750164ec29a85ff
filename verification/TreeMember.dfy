/** A member of a tree/1 record, as spec/tools/check.py checks one: root document, leaf, path, and the file in hand. */
module TreeMember {
  import opened Bytes
  import opened Numerals
  import opened TarArchive
  import opened Placement
  import opened TarScan
  import R = Rfc6962

  const DIGEST: nat := 32
  const MAX_MEMBERS: nat := 1000000
  const MAGIC: Bytes := [98, 105, 116, 103, 114, 97, 112, 104, 45, 116, 114, 101, 101, 47, 49, 0]
  const MARKERS: set<string> := {"bitgraph-fuse/2", "bitgraph-fuse/3"}

  // -------------------------------------------------------------------- root document

  datatype RootDoc = RootDoc(count: nat, root: Bytes, commitment: Bytes)

  function WriteRootDoc(d: RootDoc): Bytes {
    MAGIC + BeBytes(d.count, 4) + d.root + d.commitment
  }

  function ParseRootDoc(b: Bytes): Option<RootDoc> {
    if |b| != 84 || b[..16] != MAGIC then None else
      var count := BeNat(b[16..20]);
      if !(1 <= count <= MAX_MEMBERS) then None else Some(RootDoc(count, b[20..52], b[52..84]))
  }

  ghost predicate WellFormed(d: RootDoc) {
    1 <= d.count <= MAX_MEMBERS && |d.root| == DIGEST && |d.commitment| == DIGEST
  }

  lemma MagicSpelled()
    ensures MAGIC == Spelled("bitgraph-tree/1") + [0]
  {
  }

  /** The reader accepts exactly the documents there are, each as what it says. */
  lemma RootDocReads(b: Bytes, d: RootDoc)
    ensures ParseRootDoc(b) == Some(d) <==> WellFormed(d) && b == WriteRootDoc(d)
  {
    hide BeNat, BeBytes;
    if WellFormed(d) && b == WriteRootDoc(d) {
      Pow4();
      BeNatOfBeBytes(d.count, 4);
      DocParts(MAGIC, BeBytes(d.count, 4), d.root, d.commitment);
    }
    if ParseRootDoc(b) == Some(d) {
      BeBytesOfBeNat(b[16..20]);
      assert b == b[..16] + b[16..20] + b[20..52] + b[52..84];
    }
  }

  lemma Pow4()
    ensures Pow256(4) == 4294967296
  {
  }

  lemma DocParts(magic: Bytes, count: Bytes, root: Bytes, commitment: Bytes)
    requires |magic| == 16 && |count| == 4 && |root| == DIGEST && |commitment| == DIGEST
    ensures var b := magic + count + root + commitment;
      |b| == 84 && b[..16] == magic && b[16..20] == count && b[20..52] == root && b[52..84] == commitment
  {
  }

  // ------------------------------------------------------------------------ the check

  /** What the proof says: its attribution, the signed digest, and the commitment its slot and floor give. */
  datatype Proof = Proof(title: Option<string>, name: Option<string>, message: Option<string>, digest: Bytes,
      commitment: Bytes)

  datatype Evidence = Evidence(leaf: Bytes, index: int, count: int, path: seq<Bytes>)

  datatype Category =
    | NotTree | InvalidTreeMarker | UnknownSpec | InvalidTreeRoot | InvalidSlotCommitment | InvalidTreePath
    | AsIs | FromOrigin | ReconstructionMismatch | Direct | NoMatch
    | Raises | NoAnswer

  function LeafHash(env: Env, leaf: Bytes): Bytes {
    env.hash([0] + leaf)
  }

  function NodeInput(l: Bytes, r: Bytes): Bytes {
    [1] + l + r
  }

  function Node(env: Env): (Bytes, Bytes) -> Bytes {
    (l: Bytes, r: Bytes) => env.hash(NodeInput(l, r))
  }

  predicate Marked(p: Proof, specs: map<string, string>) {
    && p.title == Some("tree/1") && p.name.Some? && p.name.value in MARKERS
    && p.message.Some? && p.message.value in specs && specs[p.message.value] == p.name.value
  }

  /** What is refused before the document is read. */
  function MarkerVerdict(p: Proof, specs: map<string, string>): Option<Category> {
    if p.title != Some("tree/1") then Some(NotTree)
    else if p.name.None? || p.name.value !in MARKERS then Some(InvalidTreeMarker)
    else if p.message.None? || p.message.value !in specs then Some(UnknownSpec)
    else if specs[p.message.value] != p.name.value then Some(InvalidTreeMarker)
    else None
  }

  predicate LeafShape(leaf: Bytes) {
    |leaf| == 65 && leaf[0] <= 3 && (leaf[0] == 0 ==> leaf[1..33] == leaf[33..65])
  }

  /** The root a path leads to. */
  function RootOf(env: Env, ev: Evidence): Option<Bytes> {
    if 0 <= ev.index < ev.count then R.Climb(Node(env), ev.index, ev.count, LeafHash(env, ev.leaf), ev.path) else None
  }

  /** The last entry of that name. */
  function LastNamed(entries: seq<Named>, name: Bytes): Option<Bytes> {
    if entries == [] then None
    else if Last(entries).name == name then Some(Last(entries).content)
    else LastNamed(Init(entries), name)
  }

  /** What stripping a placement comes to: an original or none, an exception, or nothing ever. */
  datatype Stripping = Original(bytes: Option<Bytes>) | Throws | Forever

  /** The original inside committed bytes, as far as the placement's layout shows it. */
  function Stripped(code: byte, file: Bytes): Stripping {
    if code == 1 then Original(Some(if |file| >= 48 then file[..|file| - 48] else []))
    else
      match ScanFrom(file, 0, {})
      case Raised => Throws
      case Endless => Forever
      case Listed(entries) => Original(LastNamed(entries, ORIGINAL))
  }

  /** What the file in hand is, by a leaf that is in the tree. */
  function FileVerdict(env: Env, c: Bytes, leaf: Bytes, file: Bytes): Category
    requires LeafShape(leaf)
  {
    var code, artifact, origin, d := leaf[0], leaf[1..33], leaf[33..65], env.hash(file);
    if code == 0 && d == artifact then AsIs
    else if d == origin && code != 0 then
      if env.hash(Place(env, code, file, c).value) == artifact then FromOrigin else ReconstructionMismatch
    else if d == artifact then
      match Stripped(code, file)
      case Throws => Raises
      case Forever => NoAnswer
      case Original(None) => InvalidSlotCommitment
      case Original(Some(orig)) =>
        if Place(env, code, orig, c) == Ok(file) && env.hash(orig) == origin then Direct else InvalidSlotCommitment
    else NoMatch
  }

  function Answer(env: Env, specs: map<string, string>, p: Proof, doc: Bytes, ev: Evidence, file: Bytes): Category {
    match MarkerVerdict(p, specs)
    case Some(v) => v
    case None =>
      match ParseRootDoc(doc)
      case None => InvalidTreeRoot
      case Some(d) =>
        if env.hash(doc) != p.digest then InvalidTreeRoot
        else if d.commitment != p.commitment then InvalidSlotCommitment
        else if ev.count != d.count || !LeafShape(ev.leaf) || RootOf(env, ev) != Some(d.root) then InvalidTreePath
        else FileVerdict(env, p.commitment, ev.leaf, file)
  }

  method StripPlacement(code: byte, file: Bytes) returns (r: Stripping)
    ensures r == Stripped(code, file)
  {
    hide ScanFrom;
    if code == 1 {
      return Original(Some(if |file| >= 48 then file[..|file| - 48] else []));
    }
    var scan := TarEntries(file);
    if !scan.Listed? {
      return if scan.Raised? then Throws else Forever;
    }
    var orig: Option<Bytes> := None;
    var all := scan.entries;
    assert all[..0] == [];
    for k := 0 to |all|
      invariant orig == LastNamed(all[..k], ORIGINAL)
    {
      Snoc(all[..k], all[k]);
      assert all[..k + 1] == all[..k] + [all[k]];
      if all[k].name == ORIGINAL {
        orig := Some(all[k].content);
      }
    }
    assert all[..|all|] == all;
    r := Original(orig);
  }

  method CheckTreeMember(env: Env, specs: map<string, string>, p: Proof, doc: Bytes, ev: Evidence, file: Bytes)
    returns (r: Category)
    ensures r == Answer(env, specs, p, doc, ev, file)
  {
    hide Stripped, ParseRootDoc;
    if p.title != Some("tree/1") {
      return NotTree;
    }
    if p.name.None? || p.name.value !in MARKERS {
      return InvalidTreeMarker;
    }
    if p.message.None? || p.message.value !in specs {
      return UnknownSpec;
    }
    if specs[p.message.value] != p.name.value {
      return InvalidTreeMarker;
    }
    var d := ParseRootDoc(doc);
    if d.None? || env.hash(doc) != p.digest {
      return InvalidTreeRoot;
    }
    if d.value.commitment != p.commitment {
      return InvalidSlotCommitment;
    }
    if ev.count != d.value.count || |ev.leaf| != 65 || ev.leaf[0] > 3 ||
      (ev.leaf[0] == 0 && ev.leaf[1..33] != ev.leaf[33..65]) {
      return InvalidTreePath;
    }
    var root := R.RootFromPath(Node(env), LeafHash(env, ev.leaf), ev.index, ev.count, ev.path);
    if root != Some(d.value.root) {
      return InvalidTreePath;
    }
    r := JudgeFile(env, p.commitment, ev.leaf, file);
  }

  method JudgeFile(env: Env, c: Bytes, leaf: Bytes, file: Bytes) returns (r: Category)
    requires LeafShape(leaf)
    ensures r == FileVerdict(env, c, leaf, file)
  {
    hide Stripped;
    var code, artifact, origin, d := leaf[0], leaf[1..33], leaf[33..65], env.hash(file);
    if code == 0 && d == artifact {
      return AsIs;
    }
    if d == origin && code != 0 {
      return if env.hash(Place(env, code, file, c).value) == artifact then FromOrigin else ReconstructionMismatch;
    }
    if d != artifact {
      return NoMatch;
    }
    var orig := StripPlacement(code, file);
    if !orig.Original? {
      return if orig.Throws? then Raises else NoAnswer;
    }
    if orig.bytes.Some? && Place(env, code, orig.bytes.value, c) == Ok(file) && env.hash(orig.bytes.value) == origin {
      return Direct;
    }
    r := InvalidSlotCommitment;
  }

  // ------------------------------------------------------------ which answer, by the input

  /** The document brought is the one of `d`, and the one signed. */
  ghost predicate Documents(env: Env, p: Proof, doc: Bytes, d: RootDoc) {
    WellFormed(d) && doc == WriteRootDoc(d) && env.hash(doc) == p.digest
  }

  /** The evidence leads from a leaf of that placement and those two digests to the document's root. */
  ghost predicate Shows(env: Env, d: RootDoc, ev: Evidence, code: byte, artifact: Bytes, origin: Bytes) {
    && ev.leaf == [code] + artifact + origin && |artifact| == |origin| == DIGEST
    && code <= 3 && (code == 0 ==> artifact == origin)
    && 0 <= ev.index < ev.count == d.count
    && R.Climb(Node(env), ev.index, ev.count, LeafHash(env, ev.leaf), ev.path) == Some(d.root)
  }

  /** Everything but the file is in order. */
  ghost predicate Passes(env: Env, specs: map<string, string>, p: Proof, doc: Bytes, d: RootDoc, ev: Evidence,
      code: byte, artifact: Bytes, origin: Bytes) {
    Marked(p, specs) && Documents(env, p, doc, d) && d.commitment == p.commitment &&
      Shows(env, d, ev, code, artifact, origin)
  }

  /** The three answers about the mark are for proofs that have none, each for its own. */
  lemma MarkRefused(env: Env, specs: map<string, string>, p: Proof, doc: Bytes, ev: Evidence, file: Bytes)
    ensures var a := Answer(env, specs, p, doc, ev, file);
      && (a !in {NotTree, InvalidTreeMarker, UnknownSpec} <==> Marked(p, specs))
      && (a == NotTree <==> p.title != Some("tree/1"))
      && (a == UnknownSpec <==>
           && p.title == Some("tree/1") && p.name in {Some("bitgraph-fuse/2"), Some("bitgraph-fuse/3")}
           && (p.message == None || p.message.value !in specs))
      && (a == InvalidTreeMarker <==>
           && p.title == Some("tree/1")
           && (p.name !in {Some("bitgraph-fuse/2"), Some("bitgraph-fuse/3")} ||
               (p.message.Some? && p.message.value in specs && Some(specs[p.message.value]) != p.name)))
  {
    hide ParseRootDoc, FileVerdict, R.Climb;
    if LeafShape(ev.leaf) {
      OfTheFile(env, p.commitment, ev.leaf, file);
    }
  }

  lemma OfTheFile(env: Env, c: Bytes, leaf: Bytes, file: Bytes)
    requires LeafShape(leaf)
    ensures FileVerdict(env, c, leaf, file) in
      {AsIs, FromOrigin, Direct, ReconstructionMismatch, NoMatch, Raises, NoAnswer, InvalidSlotCommitment}
  {
    hide Stripped, Place;
  }

  /** A marked proof is refused over its document or the evidence exactly for want of them. */
  lemma TreeRefused(env: Env, specs: map<string, string>, p: Proof, doc: Bytes, ev: Evidence, file: Bytes)
    requires Marked(p, specs)
    ensures var a := Answer(env, specs, p, doc, ev, file);
      && (a == InvalidTreeRoot <==> forall d :: !Documents(env, p, doc, d))
      && (a == InvalidTreePath <==>
           exists d :: Documents(env, p, doc, d) && d.commitment == p.commitment &&
             forall code, artifact, origin :: !Shows(env, d, ev, code, artifact, origin))
      && forall d :: Documents(env, p, doc, d) && d.commitment != p.commitment ==> a == InvalidSlotCommitment
  {
    hide ParseRootDoc, WriteRootDoc, FileVerdict, R.Climb, Node, LeafHash;
    forall d ensures Documents(env, p, doc, d) <==> ParseRootDoc(doc) == Some(d) && env.hash(doc) == p.digest {
      RootDocReads(doc, d);
    }
    if ParseRootDoc(doc).Some? {
      LeafShows(env, ParseRootDoc(doc).value, ev);
    }
    if LeafShape(ev.leaf) {
      OfTheFile(env, p.commitment, ev.leaf, file);
    }
  }

  lemma LeafShows(env: Env, d: RootDoc, ev: Evidence)
    ensures ev.count == d.count && LeafShape(ev.leaf) && RootOf(env, ev) == Some(d.root) ==>
      Shows(env, d, ev, ev.leaf[0], ev.leaf[1..33], ev.leaf[33..65])
    ensures forall code, artifact, origin :: Shows(env, d, ev, code, artifact, origin) ==>
      && ev.count == d.count && LeafShape(ev.leaf) && RootOf(env, ev) == Some(d.root)
      && ev.leaf[0] == code && ev.leaf[1..33] == artifact && ev.leaf[33..65] == origin
  {
    hide R.Climb, Node, LeafHash;
    if LeafShape(ev.leaf) {
      assert ev.leaf == [ev.leaf[0]] + ev.leaf[1..33] + ev.leaf[33..65];
    }
  }

  /** Any other answer, and a positive one above all, is given only when everything but the file is in order. */
  lemma JudgedPasses(env: Env, specs: map<string, string>, p: Proof, doc: Bytes, ev: Evidence, file: Bytes)
    requires Answer(env, specs, p, doc, ev, file) in
      {AsIs, FromOrigin, Direct, ReconstructionMismatch, NoMatch, Raises, NoAnswer}
    ensures ParseRootDoc(doc).Some? && LeafShape(ev.leaf)
    ensures Passes(env, specs, p, doc, ParseRootDoc(doc).value, ev, ev.leaf[0], ev.leaf[1..33], ev.leaf[33..65])
  {
    hide FileVerdict, ParseRootDoc, R.Climb, WriteRootDoc;
    RootDocReads(doc, ParseRootDoc(doc).value);
    LeafShows(env, ParseRootDoc(doc).value, ev);
  }

  /** A file that was put somewhere by that placement, from bytes of that digest. */
  ghost predicate PlacedFrom(env: Env, code: byte, c: Bytes, origin: Bytes, file: Bytes, original: Bytes) {
    Place(env, code, original, c) == Ok(file) && env.hash(original) == origin
  }

  /** With everything else in order, what the file is told for. */
  lemma FileJudged(env: Env, specs: map<string, string>, p: Proof, doc: Bytes, d: RootDoc, ev: Evidence, file: Bytes,
      code: byte, artifact: Bytes, origin: Bytes)
    requires Passes(env, specs, p, doc, d, ev, code, artifact, origin)
    ensures var a, h := Answer(env, specs, p, doc, ev, file), env.hash(file);
      && (a == AsIs <==> code == 0 && h == artifact)
      && (a == NoMatch <==> h != artifact && h != origin)
      && (a == FromOrigin <==>
           code != 0 && h == origin && env.hash(Place(env, code, file, p.commitment).value) == artifact)
      && (a == ReconstructionMismatch <==>
           code != 0 && h == origin && env.hash(Place(env, code, file, p.commitment).value) != artifact)
      && (a in {Direct, Raises, NoAnswer, InvalidSlotCommitment} <==> code != 0 && h == artifact != origin)
      && (a == Raises ==> ScanFrom(file, 0, {}) == Raised) && (a == NoAnswer ==> ScanFrom(file, 0, {}) == Endless)
      && (a == Direct ==> exists original :: PlacedFrom(env, code, p.commitment, origin, file, original))
  {
    hide Stripped, ParseRootDoc, WriteRootDoc, R.Climb, Place, ScanFrom;
    RootDocReads(doc, d);
    LeafShows(env, d, ev);
    StrippedBy(code, file);
    if Stripped(code, file).Original? && Stripped(code, file).bytes.Some? {
      var original := Stripped(code, file).bytes.value;
      assert Place(env, code, original, p.commitment) == Ok(file) && env.hash(original) == origin ==>
        PlacedFrom(env, code, p.commitment, origin, file, original);
    }
  }

  lemma StrippedBy(code: byte, file: Bytes)
    ensures Stripped(code, file) == Throws ==> code != 1 && ScanFrom(file, 0, {}) == Raised
    ensures Stripped(code, file) == Forever ==> code != 1 && ScanFrom(file, 0, {}) == Endless
  {
    hide ScanFrom;
  }

  /**
   * A file of the committed digest is direct exactly when it is some original placed: always for a trailer, and for
   * a tar file of less than 8^11 bytes. What is then left is a commitment that is not the one signed.
   */
  lemma DirectWhen(env: Env, specs: map<string, string>, p: Proof, doc: Bytes, d: RootDoc, ev: Evidence, file: Bytes,
      code: byte, artifact: Bytes, origin: Bytes)
    requires Passes(env, specs, p, doc, d, ev, code, artifact, origin)
    requires code != 0 && env.hash(file) == artifact != origin && (code == 1 || |file| < Pow(8, 11))
    ensures Answer(env, specs, p, doc, ev, file) == Direct <==>
      exists original :: PlacedFrom(env, code, p.commitment, origin, file, original)
  {
    hide Stripped, ParseRootDoc, WriteRootDoc, R.Climb, Place, ScanFrom, Pow;
    FileJudged(env, specs, p, doc, d, ev, file, code, artifact, origin);
    if original :| PlacedFrom(env, code, p.commitment, origin, file, original) {
      RootDocReads(doc, d);
      LeafShows(env, d, ev);
      PlacedFits(env, p.commitment, Member(original, code), file);
      StripsBack(env, p.commitment, Member(original, code));
    }
  }

  lemma PlacedFits(env: Env, c: Bytes, m: Member, file: Bytes)
    requires m.code <= 3 && Place(env, m.code, m.original, c) == Ok(file) && (m.code == 1 || |file| < Pow(8, 11))
    ensures Fits(env, c, m) && Committed(env, c, m) == file
  {
    hide Pow, Tar2;
    var manifest := env.payload(c, env.hash(m.original));
    if m.code == 2 {
      Tar2Longer(MANIFEST, manifest, ORIGINAL, m.original);
    } else if m.code == 3 {
      Tar2Longer(ORIGINAL, m.original, MANIFEST, manifest);
    }
  }

  // ------------------------------------------------------------------ an honest record

  datatype Member = Member(original: Bytes, code: byte)

  ghost predicate Valid(ms: seq<Member>) {
    1 <= |ms| <= MAX_MEMBERS && forall i :: 0 <= i < |ms| ==> ms[i].code <= 3
  }

  function Committed(env: Env, c: Bytes, m: Member): Bytes
    requires m.code <= 3
  {
    Place(env, m.code, m.original, c).value
  }

  function LeafOf(env: Env, c: Bytes, m: Member): Bytes
    requires m.code <= 3
  {
    [m.code] + env.hash(Committed(env, c, m)) + env.hash(m.original)
  }

  function Hashes(env: Env, c: Bytes, ms: seq<Member>): (hs: seq<Bytes>)
    requires Valid(ms)
    ensures |hs| == |ms| && forall i :: 0 <= i < |ms| ==> hs[i] == LeafHash(env, LeafOf(env, c, ms[i]))
  {
    seq(|ms|, i requires 0 <= i < |ms| => LeafHash(env, LeafOf(env, c, ms[i])))
  }

  function Doc(env: Env, c: Bytes, ms: seq<Member>): Bytes
    requires Valid(ms)
  {
    WriteRootDoc(RootDoc(|ms|, R.Mth(Node(env), Hashes(env, c, ms)), c))
  }

  /** The proof signs the document of these members and this commitment. */
  ghost predicate Signs(env: Env, specs: map<string, string>, p: Proof, ms: seq<Member>)
    requires Valid(ms)
  {
    Marked(p, specs) && |p.commitment| == DIGEST && p.digest == env.hash(Doc(env, p.commitment, ms))
  }

  ghost predicate FullWidth(env: Env) {
    forall x :: |env.hash(x)| == DIGEST
  }

  function EvidenceFor(env: Env, c: Bytes, ms: seq<Member>, i: nat): Evidence
    requires Valid(ms) && i < |ms|
  {
    Evidence(LeafOf(env, c, ms[i]), i, |ms|, R.AuditPath(Node(env), Hashes(env, c, ms), i))
  }

  lemma NodeFull(env: Env)
    requires FullWidth(env)
    ensures forall l, r :: |Node(env)(l, r)| == DIGEST
  {
    forall l, r ensures |Node(env)(l, r)| == DIGEST {
      assert |env.hash(NodeInput(l, r))| == DIGEST;
    }
  }

  lemma {:induction false} MthFull(env: Env, hs: seq<Bytes>)
    requires FullWidth(env) && |hs| >= 1 && forall i :: 0 <= i < |hs| ==> |hs[i]| == DIGEST
    ensures |R.Mth(Node(env), hs)| == DIGEST
  {
    NodeFull(env);
    if |hs| == 1 {
      R.MthOfOne(Node(env), hs);
    } else {
      R.MthSplits(Node(env), hs);
    }
  }

  lemma LeafParts(env: Env, c: Bytes, m: Member)
    requires FullWidth(env) && m.code <= 3
    ensures var leaf := LeafOf(env, c, m);
      LeafShape(leaf) && leaf[0] == m.code && leaf[1..33] == env.hash(Committed(env, c, m)) &&
        leaf[33..65] == env.hash(m.original)
  {
    hide Tar2;
    var a, o := env.hash(Committed(env, c, m)), env.hash(m.original);
    assert |a| == DIGEST && |o| == DIGEST;
    var leaf := [m.code] + a + o;
    assert leaf[1..33] == a && leaf[33..65] == o;
  }

  /** Honest evidence brings the check to the file itself. */
  lemma HonestEvidence(env: Env, specs: map<string, string>, p: Proof, ms: seq<Member>, i: nat, file: Bytes)
    requires Valid(ms) && Signs(env, specs, p, ms) && FullWidth(env) && i < |ms|
    ensures LeafShape(LeafOf(env, p.commitment, ms[i]))
    ensures Answer(env, specs, p, Doc(env, p.commitment, ms), EvidenceFor(env, p.commitment, ms, i), file) ==
            FileVerdict(env, p.commitment, LeafOf(env, p.commitment, ms[i]), file)
  {
    hide R.Mth, R.AuditPath, R.Climb, ParseRootDoc, WriteRootDoc, LeafOf, FileVerdict, Place;
    var c := p.commitment;
    var hs := Hashes(env, c, ms);
    MthFull(env, hs);
    RootDocReads(Doc(env, c, ms), RootDoc(|ms|, R.Mth(Node(env), hs), c));
    R.PathReachesRoot(Node(env), hs, i);
    LeafParts(env, c, ms[i]);
  }

  /** Sizes that a placement's tar headers can hold. */
  ghost predicate Fits(env: Env, c: Bytes, m: Member) {
    m.code >= 2 ==> |m.original| < Pow(8, 11) && |env.payload(c, env.hash(m.original))| < Pow(8, 11)
  }

  lemma NamesApart()
    ensures MANIFEST != ORIGINAL && 0 !in MANIFEST && 0 !in ORIGINAL && |MANIFEST| == 27 && |ORIGINAL| == 22
  {
    assert MANIFEST[14] != ORIGINAL[14];
  }

  lemma LastOfTwo(a: Named, b: Named)
    ensures b.name == ORIGINAL ==> LastNamed([a, b], ORIGINAL) == Some(b.content)
    ensures b.name != ORIGINAL && a.name == ORIGINAL ==> LastNamed([a, b], ORIGINAL) == Some(a.content)
  {
    assert Init([a, b]) == [a];
  }

  /** Stripping undoes placing. */
  lemma StripsBack(env: Env, c: Bytes, m: Member)
    requires 1 <= m.code <= 3 && |c| == DIGEST && Fits(env, c, m)
    ensures Stripped(m.code, Committed(env, c, m)) == Original(Some(m.original))
    ensures |Committed(env, c, m)| > |m.original|
  {
    hide ScanFrom, Pow, LastNamed, UstarOf;
    var file := Committed(env, c, m);
    if m.code == 1 {
      assert file[..|file| - 48] == m.original;
    } else {
      var manifest := env.payload(c, env.hash(m.original));
      NamesApart();
      if m.code == 2 {
        Tar2Reads(MANIFEST, manifest, ORIGINAL, m.original);
        LastOfTwo(Named(MANIFEST, manifest), Named(ORIGINAL, m.original));
        Tar2Longer(MANIFEST, manifest, ORIGINAL, m.original);
      } else {
        Tar2Reads(ORIGINAL, m.original, MANIFEST, manifest);
        LastOfTwo(Named(ORIGINAL, m.original), Named(MANIFEST, manifest));
        Tar2Longer(ORIGINAL, m.original, MANIFEST, manifest);
      }
    }
  }

  /** A tar placement holds two entries: the manifest first under code 2, the original first under code 3. */
  lemma PlacedEntries(env: Env, c: Bytes, original: Bytes)
    requires |original| < Pow(8, 11) && |env.payload(c, env.hash(original))| < Pow(8, 11)
    ensures var manifest, whole := Named(Spelled("bitgraph-fuse/manifest.json"), env.payload(c, env.hash(original))),
      Named(Spelled("bitgraph-fuse/original"), original);
      && ScanFrom(Place(env, 2, original, c).value, 0, {}) == Listed([manifest, whole])
      && ScanFrom(Place(env, 3, original, c).value, 0, {}) == Listed([whole, manifest])
  {
    hide ScanFrom, Pow, UstarOf, Spelled, Tar2;
    NamesSpelled();
    NamesApart();
    var manifest := env.payload(c, env.hash(original));
    Tar2Reads(MANIFEST, manifest, ORIGINAL, original);
    Tar2Reads(ORIGINAL, original, MANIFEST, manifest);
  }

  lemma Tar2Longer(name: Bytes, a: Bytes, name': Bytes, b: Bytes)
    ensures |Tar2(name, a, name', b)| > |a| && |Tar2(name, a, name', b)| > |b|
  {
    hide PadOf, UstarOf;
  }

  /**
   * Every original and every committed file of an honest record is told for what it is, if the two do not share a hash.
   */
  lemma HonestAnswers(env: Env, specs: map<string, string>, p: Proof, ms: seq<Member>, i: nat)
    requires Valid(ms) && Signs(env, specs, p, ms) && FullWidth(env) && i < |ms| && Fits(env, p.commitment, ms[i])
    requires CollisionFreeOn(env.hash, {ms[i].original, Committed(env, p.commitment, ms[i])})
    ensures var doc, ev := Doc(env, p.commitment, ms), EvidenceFor(env, p.commitment, ms, i);
      && Answer(env, specs, p, doc, ev, ms[i].original) == (if ms[i].code == 0 then AsIs else FromOrigin)
      && Answer(env, specs, p, doc, ev, Committed(env, p.commitment, ms[i])) ==
           (if ms[i].code == 0 then AsIs else Direct)
  {
    hide Answer, LeafOf, Doc, EvidenceFor, Stripped;
    var c, m := p.commitment, ms[i];
    HonestEvidence(env, specs, p, ms, i, m.original);
    HonestEvidence(env, specs, p, ms, i, Committed(env, c, m));
    LeafParts(env, c, m);
    if m.code != 0 {
      StripsBack(env, c, m);
    }
  }

  // --------------------------------------------------------------------- what an answer means

  /**
   * Everything whose hash an answer rests on: the two documents, the leaves, the nodes of tree and path, and the files.
   */
  ghost function Inputs(env: Env, c: Bytes, ms: seq<Member>, doc: Bytes, ev: Evidence, file: Bytes): set<Bytes>
    requires Valid(ms)
  {
    {doc, Doc(env, c, ms), [0] + ev.leaf, file}
    + (set i | 0 <= i < |ms| :: [0] + LeafOf(env, c, ms[i]))
    + (set i | 0 <= i < |ms| :: ms[i].original)
    + (set i | 0 <= i < |ms| :: Committed(env, c, ms[i]))
    + if 0 <= ev.index < |ms| then PathInputs(env, Hashes(env, c, ms), ev) else {}
  }

  lemma InputsHold(env: Env, c: Bytes, ms: seq<Member>, doc: Bytes, ev: Evidence, file: Bytes)
    requires Valid(ms)
    ensures var all := Inputs(env, c, ms, doc, ev, file);
      && doc in all && Doc(env, c, ms) in all && [0] + ev.leaf in all && file in all
      && (forall i :: 0 <= i < |ms| ==>
           [0] + LeafOf(env, c, ms[i]) in all && ms[i].original in all && Committed(env, c, ms[i]) in all)
      && (0 <= ev.index < |ms| ==> PathInputs(env, Hashes(env, c, ms), ev) <= all)
  {
    hide PathInputs, Hashes, LeafOf, Doc, Committed;
  }

  lemma InNodeInputs(pairs: set<(Bytes, Bytes)>, a: (Bytes, Bytes))
    requires a in pairs
    ensures NodeInput(a.0, a.1) in NodeInputs(pairs)
  {
    hide NodeInput;
  }

  ghost function NodeInputs(pairs: set<(Bytes, Bytes)>): set<Bytes> {
    set a | a in pairs :: NodeInput(a.0, a.1)
  }

  lemma {:induction false} TreePairs(env: Env, hs: seq<Bytes>)
    requires FullWidth(env) && |hs| >= 1 && forall i :: 0 <= i < |hs| ==> |hs[i]| == DIGEST
    ensures forall a :: a in R.TreeInputs(Node(env), hs) ==> |a.0| == DIGEST && |a.1| == DIGEST
    decreases |hs|
  {
    hide R.Mth, R.Split, FullWidth;
    if |hs| >= 2 {
      var k := R.Split(|hs|);
      TreePairs(env, hs[..k]);
      TreePairs(env, hs[k..]);
      MthFull(env, hs[..k]);
      MthFull(env, hs[k..]);
    }
  }

  /** Along a path, one side of each node is a hash already. */
  lemma {:induction false} ClimbPairs(env: Env, i: nat, n: nat, h: Bytes, path: seq<Bytes>)
    requires FullWidth(env) && i < n && |h| == DIGEST
    ensures forall a :: a in R.ClimbInputs(Node(env), i, n, h, path) ==> |a.0| == DIGEST || |a.1| == DIGEST
    ensures R.Climb(Node(env), i, n, h, path).Some? ==> |R.Climb(Node(env), i, n, h, path).value| == DIGEST
    decreases n
  {
    hide R.Split, Node;
    NodeFull(env);
    if n > 1 && path != [] {
      var k := R.Split(n);
      if i < k {
        ClimbPairs(env, i, k, h, Init(path));
      } else {
        ClimbPairs(env, i - k, n - k, h, Init(path));
      }
    }
  }

  lemma NodeTells(l: Bytes, r: Bytes, x: Bytes, y: Bytes)
    requires |l| == |r| == DIGEST && (|x| == DIGEST || |y| == DIGEST) && NodeInput(l, r) == NodeInput(x, y)
    ensures l == x && r == y
  {
    var a, b := NodeInput(l, r), NodeInput(x, y);
    assert |a| == 65 && |b| == 1 + |x| + |y|;
    assert l == a[1..33] && r == a[33..] && x == b[1..33] && y == b[33..];
  }

  lemma LeafHashFull(env: Env, leaf: Bytes)
    requires FullWidth(env)
    ensures |LeafHash(env, leaf)| == DIGEST
  {
  }

  lemma HashesFull(env: Env, c: Bytes, ms: seq<Member>)
    requires FullWidth(env) && Valid(ms)
    ensures forall i :: 0 <= i < |ms| ==> |Hashes(env, c, ms)[i]| == DIGEST
  {
    hide LeafOf, FullWidth;
    forall i | 0 <= i < |ms| ensures |Hashes(env, c, ms)[i]| == DIGEST {
      LeafHashFull(env, LeafOf(env, c, ms[i]));
    }
  }

  /** Everything hashed along a tree and along a path. */
  ghost function PathInputs(env: Env, hs: seq<Bytes>, ev: Evidence): set<Bytes>
    requires 0 <= ev.index < |hs|
  {
    NodeInputs(R.TreeInputs(Node(env), hs)) +
      NodeInputs(R.ClimbInputs(Node(env), ev.index, |hs|, LeafHash(env, ev.leaf), ev.path))
  }

  lemma PathsDoNotClash(env: Env, hs: seq<Bytes>, ev: Evidence, all: set<Bytes>)
    requires FullWidth(env) && 0 <= ev.index < |hs| && forall i :: 0 <= i < |hs| ==> |hs[i]| == DIGEST
    requires CollisionFreeOn(env.hash, all) && PathInputs(env, hs, ev) <= all
    ensures R.NoClash(Node(env), R.TreeInputs(Node(env), hs),
      R.ClimbInputs(Node(env), ev.index, |hs|, LeafHash(env, ev.leaf), ev.path))
  {
    hide R.TreeInputs, R.ClimbInputs, NodeInput, NodeInputs, CollisionFreeOn, FullWidth;
    LeafHashFull(env, ev.leaf);
    var tree, climb := R.TreeInputs(Node(env), hs),
      R.ClimbInputs(Node(env), ev.index, |hs|, LeafHash(env, ev.leaf), ev.path);
    TreePairs(env, hs);
    ClimbPairs(env, ev.index, |hs|, LeafHash(env, ev.leaf), ev.path);
    forall a, b | a in tree && b in climb && Node(env)(a.0, a.1) == Node(env)(b.0, b.1) ensures a == b {
      InNodeInputs(tree, a);
      InNodeInputs(climb, b);
      OneInput(env.hash, all, NodeInput(a.0, a.1), NodeInput(b.0, b.1));
      NodeTells(a.0, a.1, b.0, b.1);
    }
  }

  /** A path that leads to the tree's root starts from the leaf at its index. */
  lemma PathTellsLeaf(env: Env, hs: seq<Bytes>, leaf: Bytes, ev: Evidence, all: set<Bytes>)
    requires FullWidth(env) && 0 <= ev.index < |hs| && forall i :: 0 <= i < |hs| ==> |hs[i]| == DIGEST
    requires CollisionFreeOn(env.hash, all) && PathInputs(env, hs, ev) <= all
    requires [0] + ev.leaf in all && [0] + leaf in all && hs[ev.index] == LeafHash(env, leaf)
    requires R.Climb(Node(env), ev.index, |hs|, LeafHash(env, ev.leaf), ev.path) == Some(R.Mth(Node(env), hs))
    ensures ev.leaf == leaf
  {
    hide R.TreeInputs, R.ClimbInputs, NodeInputs, R.Mth, R.Climb, CollisionFreeOn, PathInputs, FullWidth;
    PathsDoNotClash(env, hs, ev, all);
    R.PathBindsLeaf(Node(env), hs, ev.index, LeafHash(env, ev.leaf), ev.path);
    OneInput(env.hash, all, [0] + ev.leaf, [0] + leaf);
    assert ev.leaf == ([0] + ev.leaf)[1..] == ([0] + leaf)[1..] == leaf;
  }

  /** Evidence that passes is evidence for the leaf at its index. */
  lemma EvidenceBinds(env: Env, specs: map<string, string>, p: Proof, ms: seq<Member>, doc: Bytes, ev: Evidence,
      file: Bytes)
    requires Valid(ms) && Signs(env, specs, p, ms) && FullWidth(env)
    requires CollisionFreeOn(env.hash, Inputs(env, p.commitment, ms, doc, ev, file))
    requires Answer(env, specs, p, doc, ev, file) in {AsIs, FromOrigin, Direct}
    ensures 0 <= ev.index < |ms| && ev.leaf == LeafOf(env, p.commitment, ms[ev.index]) && LeafShape(ev.leaf)
    ensures Answer(env, specs, p, doc, ev, file) == FileVerdict(env, p.commitment, ev.leaf, file)
  {
    hide R.Mth, R.Climb, R.TreeInputs, R.ClimbInputs, ParseRootDoc, WriteRootDoc, LeafOf, FileVerdict, Inputs;
    hide CollisionFreeOn;
    var c := p.commitment;
    var hs, inputs := Hashes(env, c, ms), Inputs(env, c, ms, doc, ev, file);
    InputsHold(env, c, ms, doc, ev, file);
    OneInput(env.hash, inputs, doc, Doc(env, c, ms));
    MthFull(env, hs);
    RootDocReads(doc, RootDoc(|ms|, R.Mth(Node(env), hs), c));
    HashesFull(env, c, ms);
    PathTellsLeaf(env, hs, LeafOf(env, c, ms[ev.index]), ev, inputs);
  }

  /**
   * A positive answer names the very file, whatever document and evidence were brought: taken as is or from its
   * origin it is the original of the member at that index, and a direct member is that original's placement.
   */
  lemma AnswerMeans(env: Env, specs: map<string, string>, p: Proof, ms: seq<Member>, doc: Bytes, ev: Evidence,
      file: Bytes)
    requires Valid(ms) && Signs(env, specs, p, ms) && FullWidth(env)
    requires CollisionFreeOn(env.hash, Inputs(env, p.commitment, ms, doc, ev, file))
    requires Answer(env, specs, p, doc, ev, file) in {AsIs, FromOrigin, Direct}
    ensures 0 <= ev.index < |ms|
    ensures var m, a := ms[ev.index], Answer(env, specs, p, doc, ev, file);
      && (a == AsIs <==> m.code == 0)
      && (a == AsIs || a == FromOrigin ==> file == m.original)
      && (a == Direct ==> Place(env, m.code, m.original, p.commitment) == Ok(file))
  {
    hide Answer, LeafOf, Doc, R.TreeInputs, R.ClimbInputs, Hashes, Stripped, Place, Inputs, CollisionFreeOn;
    InputsHold(env, p.commitment, ms, doc, ev, file);
    EvidenceBinds(env, specs, p, ms, doc, ev, file);
    var c, m := p.commitment, ms[ev.index];
    LeafParts(env, c, m);
    var inputs := Inputs(env, c, ms, doc, ev, file);
    if env.hash(file) == env.hash(m.original) {
      OneInput(env.hash, inputs, file, m.original);
    }
    if env.hash(file) == env.hash(Committed(env, c, m)) {
      OneInput(env.hash, inputs, file, Committed(env, c, m));
    }
    PlacesItself(env, c, m);
  }

  lemma PlacesItself(env: Env, c: Bytes, m: Member)
    requires m.code <= 3
    ensures Place(env, m.code, m.original, c) == Ok(Committed(env, c, m))
    ensures m.code == 0 ==> Committed(env, c, m) == m.original
  {
  }
}
