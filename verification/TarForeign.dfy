/**
 * Archives of other writers, as the reader of packages/audit/src/tar.ts takes them: GNU long names, PAX records for one
 * entry or for all, sizes of either form, and what is refused.
 */
module TarForeign {
  import opened Bytes
  import opened Numerals
  import opened TarNumbers
  import opened TarHeader
  import opened TarPax
  import opened TarArchive

  /** The field says `n`: in octal digits with any blanks around them that fit, or in base 256. */
  ghost predicate Says(field: Bytes, n: nat) {
    && |field| == 12 && n <= MAX_SAFE
    && ((exists a: nat, b: nat, nuls: nat, c: nat, d: Bytes :: OctalSays(field, n, a, d, b, nuls, c)) ||
        (n < 128 * Pow256(11) && field == BinaryField(n)))
  }

  ghost predicate OctalSays(field: Bytes, n: nat, a: nat, d: Bytes, b: nat, nuls: nat, c: nat) {
    && (forall i :: 0 <= i < |d| ==> 48 <= d[i] < 56) && DigitsValue(d, 8) == n
    && field == Spaces(a) + ((d + Spaces(b) + Zeros(nuls)) + Spaces(c))
  }

  lemma SaidIsRead(field: Bytes, n: nat)
    requires Says(field, n)
    ensures ParseNumeric(field) == Ok(n)
  {
    hide ParseNumeric, DigitsValue, Pow256;
    if a: nat, b: nat, nuls: nat, c: nat, d: Bytes :| OctalSays(field, n, a, d, b, nuls, c) {
      PaddedReads(a, d, b, nuls, c);
    } else {
      BinaryReads(n);
    }
  }

  /** What this writer puts there is one such field. */
  lemma OwnSays(n: nat)
    requires n < Pow(8, 11)
    ensures Says(OctalField(n, 12), n)
  {
    hide Digits, DigitsValue, Pow, Pow256;
    Octal11();
    PaddedDigits(n, 11);
    var t := PadLeft(Digits(n, 8), 11);
    assert t[..11] == t;
    assert OctalField(n, 12) == Spaces(0) + ((t + Spaces(0) + Zeros(1)) + Spaces(0));
    assert OctalSays(OctalField(n, 12), n, 0, t, 0, 1, 0);
  }

  // ------------------------------------------------------------------ metadata and files

  /** A header and the content it announces. */
  datatype Part = Part(head: Head, data: Bytes)

  ghost predicate Sound(p: Part) {
    Shaped(p.head) && Says(p.head.size, |p.data|)
  }

  function PartBlocks(p: Part): Bytes
    requires Shaped(p.head)
  {
    HeadBlock(p.head) + PadBlock(p.data)
  }

  lemma LooksAt(p: Head, n: nat, st: State, lim: Limits, tail: Bytes)
    requires Shaped(p) && Says(p.size, n)
    ensures var rest := HeadBlock(p) + tail;
      && |rest| >= BLOCK && rest[..BLOCK] == HeadBlock(p)
      && LookAt(rest[..BLOCK], st, lim) ==
         if !Within(st.count + 1, lim.maxEntries) then Refuse
         else if IsMeta(p.typeflag) then
           if p.typeflag != LONG_LINK && !Within(n, lim.maxMeta) then Refuse else Meta(p.typeflag, n)
         else
           match SizeOf(RawHeader(NameIn(p), n, p.typeflag), st)
           case None => Refuse
           case Some(size) => File(PathOf(RawHeader(NameIn(p), n, p.typeflag), st), size, p.typeflag)
  {
    hide ParseHeader, HeadBlock, IsZeroBlock, PathOf, SizeOf, NameIn, Says, IsMeta;
    var h := HeadBlock(p);
    HeadReads(p);
    SaidIsRead(p.size, n);
    HeadIsNotZero(p);
    assert (h + tail)[..BLOCK] == h;
  }

  lemma HeadIsNotZero(p: Head)
    requires Shaped(p)
    ensures !IsZeroBlock(HeadBlock(p))
  {
    hide Sealed, Front, Back, IsZeroBlock;
    SealedIsNotZero(Front(p.name, p.size), Back(p.magic, p.prefix, p.typeflag));
  }

  /** A metadata entry within its caps: the reader goes on behind it with what it learned. */
  lemma ReadsMeta(p: Part, st: State, st': State, lim: Limits, tail: Bytes)
    requires Sound(p) && IsMeta(p.head.typeflag) && Within(st.count + 1, lim.maxEntries)
    requires p.head.typeflag == LONG_LINK || Within(|p.data|, lim.maxMeta)
    requires Learn(p.head.typeflag, p.data, st) == Ok(st')
    ensures Read(PartBlocks(p) + tail, st, lim) == Read(tail, st', lim)
  {
    hide HeadBlock, LookAt, Read, PadBlock, Span, Learn, Says, IsMeta;
    var h, body := HeadBlock(p.head), PadBlock(p.data);
    LooksAt(p.head, |p.data|, st, lim, body + tail);
    Blocked(h, p.data, tail);
    assert PartBlocks(p) + tail == h + (body + tail);
    ReadMeta(h + (body + tail), st, lim);
  }

  /** A file's header and content: one entry, of the path and size that count, and the reader goes on behind it. */
  lemma ReadsEntry(p: Head, n: nat, content: Bytes, st: State, lim: Limits, tail: Bytes)
    requires Shaped(p) && Says(p.size, n) && !IsMeta(p.typeflag) && Within(st.count + 1, lim.maxEntries)
    requires SizeOf(RawHeader(NameIn(p), n, p.typeflag), st) == Some(|content|)
    ensures Read(PartBlocks(Part(p, content)) + tail, st, lim) ==
      First(Entry(PathOf(RawHeader(NameIn(p), n, p.typeflag), st), |content|, p.typeflag, content),
        Read(tail, Passed(st), lim))
  {
    hide HeadBlock, LookAt, Read, PadBlock, Span, Says, IsMeta, PathOf, SizeOf, NameIn;
    var h, body := HeadBlock(p), PadBlock(content);
    LooksAt(p, n, st, lim, body + tail);
    Blocked(h, content, tail);
    assert PartBlocks(Part(p, content)) + tail == h + (body + tail);
    ReadStep(h + (body + tail), st, lim);
  }

  // ------------------------------------------------------------- what stands before a file

  /**
   * A metadata entry: records for the next file or for all that follow, a long name with NULs behind it, or a long
   * link name, which is passed over.
   */
  datatype Note =
    | Records(head: Head, kvs: seq<KeyValue>)
    | Globals(head: Head, kvs: seq<KeyValue>)
    | LongName(head: Head, name: Bytes, nuls: nat)
    | LongLink(head: Head, data: Bytes)

  function NoteData(n: Note): Bytes {
    match n
    case Records(_, kvs) => RecordsOf(kvs)
    case Globals(_, kvs) => RecordsOf(kvs)
    case LongName(_, name, nuls) => name + Zeros(nuls)
    case LongLink(_, data) => data
  }

  function NoteKind(n: Note): byte {
    match n case Records(_, _) => PAX case Globals(_, _) => GLOBAL case LongName(_, _, _) => LONG_NAME
      case LongLink(_, _) => LONG_LINK
  }

  function PartOf(n: Note): Part {
    Part(n.head, NoteData(n))
  }

  ghost predicate NoteSound(n: Note, lim: Limits) {
    && Sound(PartOf(n)) && n.head.typeflag == NoteKind(n)
    && (n.Records? || n.Globals? ==> forall kv :: kv in n.kvs ==> PlainKey(kv.key))
    && (n.LongName? && n.name != [] ==> Last(n.name) != 0)
    && (!n.LongLink? ==> Within(|NoteData(n)|, lim.maxMeta))
  }

  ghost predicate NotesSound(notes: seq<Note>, lim: Limits) {
    forall n :: n in notes ==> NoteSound(n, lim)
  }

  ghost function NotesBlocks(notes: seq<Note>, lim: Limits): Bytes
    requires NotesSound(notes, lim)
  {
    if notes == [] then []
    else
      assert NoteSound(notes[0], lim);
      PartBlocks(PartOf(notes[0])) + NotesBlocks(notes[1..], lim)
  }

  /** The last records for the next file; no earlier ones count beside them. */
  function OwnRecords(notes: seq<Note>): Option<seq<KeyValue>> {
    if notes == [] then None
    else if OwnRecords(notes[1..]).Some? then OwnRecords(notes[1..])
    else if notes[0].Records? then Some(notes[0].kvs)
    else None
  }

  /** The last long name. */
  function OwnName(notes: seq<Note>): Option<Bytes> {
    if notes == [] then None
    else if OwnName(notes[1..]).Some? then OwnName(notes[1..])
    else if notes[0].LongName? then Some(Decode(notes[0].name))
    else None
  }

  /** All the records for whatever follows, in order. */
  function GlobalsIn(notes: seq<Note>): seq<KeyValue> {
    if notes == [] then []
    else (if notes[0].Globals? then notes[0].kvs else []) + GlobalsIn(notes[1..])
  }

  /** The reader's state behind some notes. */
  function Behind(notes: seq<Note>, st: State): State {
    State(
      if OwnRecords(notes).Some? then Told(OwnRecords(notes).value) else st.pax,
      st.global + Told(GlobalsIn(notes)),
      if OwnName(notes).Some? then OwnName(notes) else st.longName,
      st.count + |notes|)
  }

  lemma {:induction false} ToldJoin(a: seq<KeyValue>, b: seq<KeyValue>)
    ensures Told(a + b) == Told(a) + Told(b)
    decreases |b|
  {
    if b == [] {
      assert a + b == a;
    } else {
      assert Init(a + b) == a + Init(b) && Last(a + b) == Last(b);
      ToldJoin(a, Init(b));
    }
  }

  lemma LearnsNote(n: Note, st: State, lim: Limits)
    requires NoteSound(n, lim)
    ensures Learn(NoteKind(n), NoteData(n), st) == Ok(Behind([n], st)) && IsMeta(NoteKind(n))
  {
    hide ParsePax, RecordsOf, Says, Decode, PlainKey, Zeros, StripNuls;
    OneNote(n);
    var none: map<Bytes, Bytes> := map[];
    assert st.global + none == st.global && Told([]) == none;
    match n
    case Records(_, kvs) =>
      RecordsRead(kvs);
    case Globals(_, kvs) =>
      RecordsRead(kvs);
    case LongName(_, name, nuls) =>
      StripsZeros(name, nuls);
    case LongLink(_, _) =>
  }

  lemma OneNote(n: Note)
    ensures OwnRecords([n]) == if n.Records? then Some(n.kvs) else None
    ensures OwnName([n]) == if n.LongName? then Some(Decode(n.name)) else None
    ensures GlobalsIn([n]) == if n.Globals? then n.kvs else []
  {
    hide Decode;
    assert [n][1..] == [] && OwnRecords([]) == None && OwnName([]) == None && GlobalsIn([]) == [];
    assert n.Globals? ==> n.kvs + [] == n.kvs;
  }

  lemma NotesSplit(notes: seq<Note>)
    requires notes != []
    ensures var n, rest := notes[0], notes[1..];
      && OwnRecords(notes) == (if OwnRecords(rest).Some? then OwnRecords(rest) else OwnRecords([n]))
      && OwnName(notes) == (if OwnName(rest).Some? then OwnName(rest) else OwnName([n]))
      && GlobalsIn(notes) == GlobalsIn([n]) + GlobalsIn(rest)
  {
    OneNote(notes[0]);
  }

  lemma BehindMore(notes: seq<Note>, st: State)
    requires notes != []
    ensures Behind(notes, st) == Behind(notes[1..], Behind([notes[0]], st))
  {
    hide Told, OwnRecords, OwnName, GlobalsIn;
    NotesSplit(notes);
    ToldJoin(GlobalsIn([notes[0]]), GlobalsIn(notes[1..]));
  }

  /** The reader comes out behind any notes, in any order, with what the last of each kind says. */
  lemma {:induction false} NotesRead(notes: seq<Note>, st: State, lim: Limits, tail: Bytes)
    requires NotesSound(notes, lim) && Within(st.count + |notes|, lim.maxEntries)
    ensures Read(NotesBlocks(notes, lim) + tail, st, lim) == Read(tail, Behind(notes, st), lim)
    decreases |notes|
  {
    hide Read, PartBlocks, NoteSound, Behind, Learn, IsMeta;
    if notes == [] {
      assert [] + tail == tail && Behind([], st) == st by { BehindNone(st); }
    } else {
      var n, rest := notes[0], NotesBlocks(notes[1..], lim) + tail;
      NoteFits(n, lim);
      LearnsNote(n, st, lim);
      CountBehind(n, st);
      ReadsMeta(PartOf(n), st, Behind([n], st), lim, rest);
      assert NotesBlocks(notes, lim) + tail == PartBlocks(PartOf(n)) + rest;
      NotesRead(notes[1..], Behind([n], st), lim, tail);
      BehindMore(notes, st);
    }
  }

  lemma NoteFits(n: Note, lim: Limits)
    requires NoteSound(n, lim)
    ensures Sound(PartOf(n)) && n.head.typeflag == NoteKind(n)
    ensures NoteKind(n) == LONG_LINK || Within(|NoteData(n)|, lim.maxMeta)
  {
    hide Says;
  }

  lemma CountBehind(n: Note, st: State)
    ensures Behind([n], st).count == st.count + 1
  {
  }

  lemma BehindNone(st: State)
    ensures Behind([], st) == st
  {
  }

  // ------------------------------------------------------------------- whole archives

  /** A file with what stands before it. */
  datatype Filed = Filed(notes: seq<Note>, head: Head, content: Bytes)

  /** The size that counts is the content's: its own record's, else the global one, else the header's. */
  ghost predicate SizeSays(f: Filed, globals: seq<KeyValue>) {
    var own := if OwnRecords(f.notes).Some? then Told(OwnRecords(f.notes).value) else map[];
    if SIZE_KEY in own then own[SIZE_KEY] == Numeral(|f.content|) && |f.content| <= MAX_SAFE
    else if SIZE_KEY in Told(globals) then Told(globals)[SIZE_KEY] == Numeral(|f.content|) && |f.content| <= MAX_SAFE
    else Says(f.head.size, |f.content|)
  }

  /** The path that counts: its own record's, else its long name, else the global one, else the header's. */
  function PathSaid(f: Filed, globals: seq<KeyValue>): Bytes {
    var own := if OwnRecords(f.notes).Some? then Told(OwnRecords(f.notes).value) else map[];
    if PATH_KEY in own then own[PATH_KEY]
    else if OwnName(f.notes).Some? then OwnName(f.notes).value
    else if PATH_KEY in Told(globals) then Told(globals)[PATH_KEY]
    else NameIn(f.head)
  }

  /** With the global records of all that stands before it, and its own. */
  ghost predicate FiledSound(f: Filed, globals: seq<KeyValue>, lim: Limits) {
    && NotesSound(f.notes, lim) && Shaped(f.head) && !IsMeta(f.head.typeflag)
    && (exists n :: Says(f.head.size, n)) && SizeSays(f, globals)
  }

  ghost predicate AllSound(fs: seq<Filed>, globals: seq<KeyValue>, lim: Limits) {
    fs == [] || (var here := globals + GlobalsIn(fs[0].notes);
                 FiledSound(fs[0], here, lim) && AllSound(fs[1..], here, lim))
  }

  ghost function FiledBlocks(fs: seq<Filed>, globals: seq<KeyValue>, lim: Limits): Bytes
    requires AllSound(fs, globals, lim)
  {
    if fs == [] then []
    else
      NotesBlocks(fs[0].notes, lim) + (PartBlocks(Part(fs[0].head, fs[0].content)) +
        FiledBlocks(fs[1..], globals + GlobalsIn(fs[0].notes), lim))
  }

  /** Each file under the path that counts for it, with its content. */
  function EntriesOf(fs: seq<Filed>, globals: seq<KeyValue>): seq<Entry> {
    if fs == [] then []
    else
      var here := globals + GlobalsIn(fs[0].notes);
      [Entry(PathSaid(fs[0], here), |fs[0].content|, fs[0].head.typeflag, fs[0].content)] + EntriesOf(fs[1..], here)
  }

  function HeadersIn(fs: seq<Filed>): nat {
    if fs == [] then 0 else |fs[0].notes| + 1 + HeadersIn(fs[1..])
  }

  function GlobalsThrough(fs: seq<Filed>, globals: seq<KeyValue>): seq<KeyValue> {
    if fs == [] then globals else GlobalsThrough(fs[1..], globals + GlobalsIn(fs[0].notes))
  }

  /** Entries, and then what the rest gives. */
  function Then(es: seq<Entry>, rest: Outcome): Outcome {
    Outcome(es + rest.entries, rest.ending)
  }

  function Between(globals: seq<KeyValue>, count: nat): State {
    State(map[], Told(globals), None, count)
  }

  lemma SizeRead(f: Filed, globals: seq<KeyValue>, n: nat, st: State)
    requires SizeSays(f, globals) && Says(f.head.size, n)
    requires st.pax == (if OwnRecords(f.notes).Some? then Told(OwnRecords(f.notes).value) else map[])
    requires st.global == Told(globals)
    ensures SizeOf(RawHeader(NameIn(f.head), n, f.head.typeflag), st) == Some(|f.content|)
  {
    hide Says, Told, NameIn, Numeral, ParseCount;
    NumeralReads(|f.content|);
    if SIZE_KEY !in st.pax && SIZE_KEY !in st.global {
      SaidIsRead(f.head.size, n);
      SaidIsRead(f.head.size, |f.content|);
    }
  }

  /** One file with its notes: its entry, and nothing of its own carried on. */
  lemma FiledReads(f: Filed, globals: seq<KeyValue>, count: nat, lim: Limits, tail: Bytes)
    requires FiledSound(f, globals + GlobalsIn(f.notes), lim) && Within(count + |f.notes| + 1, lim.maxEntries)
    ensures var here := globals + GlobalsIn(f.notes);
      Read(NotesBlocks(f.notes, lim) + (PartBlocks(Part(f.head, f.content)) + tail), Between(globals, count), lim) ==
      First(Entry(PathSaid(f, here), |f.content|, f.head.typeflag, f.content),
        Read(tail, Between(here, count + |f.notes| + 1), lim))
  {
    hide Read, NotesBlocks, PartBlocks, NotesSound, Says, Told, NameIn, IsMeta, SizeSays, SizeOf;
    var here, st := globals + GlobalsIn(f.notes), Between(globals, count);
    var file := PartBlocks(Part(f.head, f.content)) + tail;
    NotesRead(f.notes, st, lim, file);
    ToldJoin(globals, GlobalsIn(f.notes));
    var n :| Says(f.head.size, n);
    SizeRead(f, here, n, Behind(f.notes, st));
    ReadsEntry(f.head, n, f.content, Behind(f.notes, st), lim, tail);
  }

  /**
   * An archive of any writer: its files in order, each under the path that counts for it and with the content of the
   * size that counts; a file's own records and long name end with it, global ones go on.
   */
  lemma {:induction false} ForeignReads(fs: seq<Filed>, globals: seq<KeyValue>, count: nat, lim: Limits, tail: Bytes)
    requires AllSound(fs, globals, lim) && Within(count + HeadersIn(fs), lim.maxEntries)
    ensures Read(FiledBlocks(fs, globals, lim) + tail, Between(globals, count), lim) ==
      Then(EntriesOf(fs, globals), Read(tail, Between(GlobalsThrough(fs, globals), count + HeadersIn(fs)), lim))
    decreases |fs|
  {
    hide Read, FiledSound, PathSaid, Between, NotesBlocks, PartBlocks;
    if fs == [] {
      assert [] + tail == tail;
    } else {
      var f, here := fs[0], globals + GlobalsIn(fs[0].notes);
      var rest := FiledBlocks(fs[1..], here, lim) + tail;
      assert NotesSound(f.notes, lim) && Shaped(f.head) by { SoundParts(f, here, lim); }
      assert FiledBlocks(fs, globals, lim) + tail ==
        NotesBlocks(f.notes, lim) + (PartBlocks(Part(f.head, f.content)) + rest);
      FiledReads(f, globals, count, lim, rest);
      ForeignReads(fs[1..], here, count + |f.notes| + 1, lim, tail);
    }
  }

  lemma SoundParts(f: Filed, globals: seq<KeyValue>, lim: Limits)
    requires FiledSound(f, globals, lim)
    ensures NotesSound(f.notes, lim) && Shaped(f.head)
  {
  }

  /** From the start to a zero block, whatever follows it, or to the stream's end. */
  lemma ForeignArchive(fs: seq<Filed>, lim: Limits, junk: Bytes)
    requires AllSound(fs, [], lim) && Within(HeadersIn(fs), lim.maxEntries)
    ensures Read(FiledBlocks(fs, [], lim) + (Zeros(BLOCK) + junk), START, lim) == Outcome(EntriesOf(fs, []), Marker)
    ensures Read(FiledBlocks(fs, [], lim), START, lim) == Outcome(EntriesOf(fs, []), StreamEnd)
  {
    hide FiledBlocks, EntriesOf, Zeros, AllSound, Read, GlobalsThrough, HeadersIn;
    assert Between([], 0) == START;
    var end := Between(GlobalsThrough(fs, []), HeadersIn(fs));
    ForeignReads(fs, [], 0, lim, Zeros(BLOCK) + junk);
    ForeignReads(fs, [], 0, lim, []);
    ZeroEnds(junk, end, lim);
    ThenEnds(EntriesOf(fs, []), Marker);
    ThenEnds(EntriesOf(fs, []), StreamEnd);
    assert FiledBlocks(fs, [], lim) + [] == FiledBlocks(fs, [], lim);
  }

  lemma ThenEnds(es: seq<Entry>, ending: Ending)
    ensures Then(es, Outcome([], ending)) == Outcome(es, ending)
  {
  }

  lemma ZeroEnds(junk: Bytes, st: State, lim: Limits)
    ensures Read(Zeros(BLOCK) + junk, st, lim) == Outcome([], Marker) && Read([], st, lim) == Outcome([], StreamEnd)
  {
    var rest := Zeros(BLOCK) + junk;
    assert rest[..BLOCK] == Zeros(BLOCK);
    assert IsZeroBlock(rest[..BLOCK]);
  }

  // ------------------------------------------------------------------------ what is refused

  /** A header past the cap on headers, whatever it says. */
  lemma FloodRefused(rest: Bytes, st: State, lim: Limits)
    requires |rest| >= BLOCK && !IsZeroBlock(rest[..BLOCK]) && !Within(st.count + 1, lim.maxEntries)
    ensures Read(rest, st, lim) == Outcome([], Thrown)
  {
    hide IsZeroBlock;
  }

  /** A metadata entry over its cap, but for a long link name, which is never held. */
  lemma MetaRefused(p: Head, n: nat, st: State, lim: Limits, tail: Bytes)
    requires Shaped(p) && Says(p.size, n) && p.typeflag in {PAX, GLOBAL, LONG_NAME} && !Within(n, lim.maxMeta)
    ensures Read(HeadBlock(p) + tail, st, lim) == Outcome([], Thrown)
  {
    hide Says, HeadBlock, LookAt;
    LooksAt(p, n, st, lim, tail);
  }

  /** A header with any one byte changed outside its checksum. */
  lemma DamageRefused(p: Head, i: nat, v: byte, st: State, lim: Limits, tail: Bytes)
    requires Shaped(p) && i < BLOCK && !(148 <= i < 156) && v != HeadBlock(p)[i]
    ensures Read(HeadBlock(p)[i := v] + tail, st, lim) == Outcome([], Thrown)
  {
    hide Sealed, Front, Back, ParseHeader, IsZeroBlock;
    OneByteOff(Front(p.name, p.size), Back(p.magic, p.prefix, p.typeflag), i, v);
    assert (HeadBlock(p)[i := v] + tail)[..BLOCK] == HeadBlock(p)[i := v];
  }

  /** A size in base 256 that is more than a safe integer. */
  lemma HugeRefused(p: Head, n: nat, st: State, lim: Limits, tail: Bytes)
    requires MAX_SAFE < n < 128 * Pow256(11) && p.size == BinaryField(n) && Shaped(p)
    ensures Read(HeadBlock(p) + tail, st, lim) == Outcome([], Thrown)
  {
    hide HeadBlock, ParseHeader, IsZeroBlock, ParseNumeric, Pow256, BinaryField;
    HeadReads(p);
    BinaryReads(n);
    HeadIsNotZero(p);
    assert (HeadBlock(p) + tail)[..BLOCK] == HeadBlock(p);
  }
}
