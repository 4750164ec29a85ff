/**
 * Whole archives: what packages/audit/src/tar.ts writes for a list of files, what its reader makes of a
 * flat byte stream, and that the second undoes the first.
 */
module TarArchive {
  import opened Bytes
  import opened Numerals
  import opened TarNumbers
  import opened TarHeader
  import opened TarPax

  const GLOBAL: byte := 103
  const LONG_NAME: byte := 76
  const LONG_LINK: byte := 75
  const PAX_NAME: Bytes := [80, 97, 120, 72, 101, 97, 100, 101, 114, 115, 46, 48, 47]

  function PadOf(size: nat): (p: nat)
    ensures p < BLOCK && (size + p) % BLOCK == 0
  {
    (BLOCK - size % BLOCK) % BLOCK
  }

  // ------------------------------------------------------------------------- written

  datatype TarFile = TarFile(path: Bytes, content: Bytes)

  function PadBlock(content: Bytes): Bytes {
    content + Zeros(PadOf(|content|))
  }

  /** The header blocks that name a file: one, or a PAX record and one. */
  function NameBlocks(path: Bytes, size: nat): Bytes {
    if |path| <= 100 then Header(path, [], size, FILE) else
      match Split(path)
      case Some(i) => Header(path[i + 1..], path[..i], size, FILE)
      case None =>
        var record := PaxRecord(path);
        Header(Truncated(PAX_NAME + path, 100), [], |record|, PAX) + PadBlock(record)
        + Header(Truncated(path, 100), [], size, FILE)
  }

  function FileBlocks(f: TarFile): Bytes {
    NameBlocks(f.path, |f.content|) + PadBlock(f.content)
  }

  function Archive(files: seq<TarFile>): Bytes {
    if files == [] then Zeros(BLOCK) + Zeros(BLOCK) else FileBlocks(files[0]) + Archive(files[1..])
  }

  /** The blocks of the files alone, in the order the writer pushes them. */
  function Blocks(files: seq<TarFile>): Bytes {
    if files == [] then [] else Blocks(Init(files)) + FileBlocks(Last(files))
  }

  lemma {:induction false} BlocksThen(files: seq<TarFile>, f: TarFile, tail: Bytes)
    ensures Blocks(files + [f]) + tail == Blocks(files) + (FileBlocks(f) + tail)
  {
    Snoc(files, f);
    assert (Blocks(files) + FileBlocks(f)) + tail == Blocks(files) + (FileBlocks(f) + tail);
  }

  lemma {:induction false} ArchiveIsBlocks(done: seq<TarFile>, files: seq<TarFile>)
    ensures Blocks(done + files) + (Zeros(BLOCK) + Zeros(BLOCK)) == Blocks(done) + Archive(files)
    decreases |files|
  {
    hide FileBlocks, Zeros;
    if files == [] {
      assert done + files == done;
    } else {
      assert done + files == (done + [files[0]]) + files[1..];
      ArchiveIsBlocks(done + [files[0]], files[1..]);
      BlocksThen(done, files[0], Archive(files[1..]));
    }
  }

  method WriteNames(path: Bytes, size: nat) returns (names: Bytes)
    ensures names == NameBlocks(path, size)
  {
    hide Header, PaxRecord, Truncated, PadBlock, Zeros;
    if |path| <= 100 {
      names := WriteHeader(path, [], size, FILE);
    } else {
      var split := SplitUstarPath(path);
      if split.Some? {
        names := WriteHeader(path[split.value + 1..], path[..split.value], size, FILE);
      } else {
        var record := PaxPathRecord(path);
        var paxName := TruncateBytes(PAX_NAME + path, 100);
        var paxHeader := WriteHeader(paxName, [], |record|, PAX);
        var name := TruncateBytes(path, 100);
        var header := WriteHeader(name, [], size, FILE);
        names := paxHeader + PadBlock(record) + header;
      }
    }
  }

  method WriteTarArchive(files: seq<TarFile>) returns (out: Bytes)
    ensures out == Archive(files)
  {
    hide NameBlocks, PadBlock, Zeros, Archive;
    out := [];
    for k := 0 to |files|
      invariant out == Blocks(files[..k])
    {
      var f := files[k];
      var names := WriteNames(f.path, |f.content|);
      out := out + (names + PadBlock(f.content));
      Snoc(files[..k], f);
      assert files[..k + 1] == files[..k] + [f];
    }
    assert files[..|files|] == files;
    ArchiveIsBlocks([], files);
    assert [] + files == files;
    assert [] + Archive(files) == Archive(files);
    out := out + (Zeros(BLOCK) + Zeros(BLOCK));
  }

  // ---------------------------------------------------------------------------- read

  /** The reader's caps; None where the caller gave none. */
  datatype Limits = Limits(maxTotal: Option<nat>, maxEntries: Option<nat>, maxMeta: Option<nat>)

  predicate Within(n: nat, cap: Option<nat>) {
    cap.Some? ==> n <= cap.value
  }

  /** What the reader carries from one header to the next. */
  datatype State = State(pax: Records, global: Records, longName: Option<Bytes>, count: nat)

  const START := State(map[], map[], None, 0)

  /** An entry as the consumer gets it; `body` is what the stream still holds of its content. */
  datatype Entry = Entry(path: Bytes, size: nat, typeflag: byte, body: Bytes)

  /** How reading ends: at the end marker, at the stream's own end, or by throwing. */
  datatype Ending = Marker | StreamEnd | Thrown

  /** The entries handed out, and how reading then ended. */
  datatype Outcome = Outcome(entries: seq<Entry>, ending: Ending)

  function First(e: Entry, rest: Outcome): Outcome {
    Outcome([e] + rest.entries, rest.ending)
  }

  /**
   * Number(text) as the size record needs it: nothing is zero; numerals other than decimal are not part of this model.
   */
  function ParseSize(text: Bytes): Option<nat> {
    if text == [] then Some(0) else
      match ParseCount(text)
      case None => None
      case Some(n) => if n <= MAX_SAFE then Some(n) else None
  }

  function PathOf(h: RawHeader, st: State): Bytes {
    if PATH_KEY in st.pax then st.pax[PATH_KEY]
    else if st.longName.Some? then st.longName.value
    else if PATH_KEY in st.global then st.global[PATH_KEY]
    else h.name
  }

  function SizeOf(h: RawHeader, st: State): Option<nat> {
    if SIZE_KEY in st.pax then ParseSize(st.pax[SIZE_KEY])
    else if SIZE_KEY in st.global then ParseSize(st.global[SIZE_KEY])
    else Some(h.size)
  }

  predicate IsMeta(typeflag: byte) {
    typeflag == PAX || typeflag == GLOBAL || typeflag == LONG_NAME || typeflag == LONG_LINK
  }

  /** What one header block asks for. */
  datatype Look = End | Refuse | Meta(kind: byte, size: nat) | File(path: Bytes, size: nat, typeflag: byte)

  function LookAt(block: Bytes, st: State, lim: Limits): Look
    requires |block| == BLOCK
  {
    if IsZeroBlock(block) then End
    else if !Within(st.count + 1, lim.maxEntries) then Refuse
    else
      match ParseHeader(block)
      case Err => Refuse
      case Ok(h) =>
        if IsMeta(h.typeflag) then
          if h.typeflag != LONG_LINK && !Within(h.size, lim.maxMeta) then Refuse else Meta(h.typeflag, h.size)
        else
          match SizeOf(h, st)
          case None => Refuse
          case Some(size) => File(PathOf(h, st), size, h.typeflag)
  }

  /** The state after a metadata entry holding `data`. */
  function Learn(kind: byte, data: Bytes, st: State): Result<State> {
    var st' := st.(count := st.count + 1);
    if kind == PAX then
      match ParsePax(data)
      case Err => Err
      case Ok(records) => Ok(st'.(pax := records))
    else if kind == GLOBAL then
      match ParsePax(data)
      case Err => Err
      case Ok(records) => Ok(st'.(global := st.global + records))
    else if kind == LONG_NAME then Ok(st'.(longName := Some(Decode(StripNuls(data)))))
    else Ok(st')
  }

  /** The state after an entry has been handed out. */
  function Passed(st: State): State {
    st.(pax := map[], longName := None, count := st.count + 1)
  }

  function Span(size: nat): (n: nat)
    ensures n >= BLOCK
  {
    BLOCK + size + PadOf(size)
  }

  /** What is left of `body` in a stream that may end inside it. */
  function BodyOf(rest: Bytes, size: nat): (b: Bytes)
    requires |rest| >= BLOCK
    ensures |b| <= size
  {
    if |rest| >= BLOCK + size then rest[BLOCK..BLOCK + size] else rest[BLOCK..]
  }

  /** The reader over a flat stream. */
  function Read(rest: Bytes, st: State, lim: Limits): Outcome
    decreases |rest|
  {
    if rest == [] then Outcome([], StreamEnd)
    else if |rest| < BLOCK then Outcome([], Thrown)
    else
      match LookAt(rest[..BLOCK], st, lim)
      case End => Outcome([], Marker)
      case Refuse => Outcome([], Thrown)
      case Meta(kind, size) =>
        if |rest| < Span(size) then Outcome([], Thrown) else
          (match Learn(kind, rest[BLOCK..BLOCK + size], st)
           case Err => Outcome([], Thrown)
           case Ok(st') => Read(rest[Span(size)..], st', lim))
      case File(path, size, typeflag) =>
        var e := Entry(path, size, typeflag, BodyOf(rest, size));
        if |rest| < Span(size) then Outcome([e], Thrown) else First(e, Read(rest[Span(size)..], Passed(st), lim))
  }

  // ---------------------------------------------------------------------- round trip

  /** The path the reader gives for a written one. */
  function SeenPath(path: Bytes): Bytes {
    if |path| <= 100 then Decode(UpToNul(path)) else
      match Split(path)
      case Some(i) => FullName(Decode(UpToNul(path[..i])), Decode(UpToNul(path[i + 1..])))
      case None => path
  }

  function SeenEntry(f: TarFile): Entry {
    Entry(SeenPath(f.path), |f.content|, FILE, f.content)
  }

  function SeenEntries(files: seq<TarFile>): (es: seq<Entry>)
    ensures |es| == |files|
  {
    if files == [] then [] else [SeenEntry(files[0])] + SeenEntries(files[1..])
  }

  predicate NeedsPax(path: Bytes) {
    |path| > 100 && Split(path).None?
  }

  function HeaderCount(files: seq<TarFile>): nat {
    if files == [] then 0 else (if NeedsPax(files[0].path) then 2 else 1) + HeaderCount(files[1..])
  }

  /** Sizes their eleven octal digits can hold, and caps that let the archive through. */
  ghost predicate Fits(f: TarFile, lim: Limits) {
    && |f.content| < Pow(8, 11)
    && (NeedsPax(f.path) ==> |PaxRecord(f.path)| < Pow(8, 11) && Within(|PaxRecord(f.path)|, lim.maxMeta))
  }

  /** A written header, in front of anything, is read as it was meant. */
  lemma LooksAtHeader(name: Bytes, prefix: Bytes, size: nat, typeflag: byte, st: State, lim: Limits, tail: Bytes)
    requires |name| <= 100 && |prefix| <= 155 && size < Pow(8, 11) && (typeflag == FILE || typeflag == PAX)
    requires Within(st.count + 1, lim.maxEntries) && (typeflag == PAX ==> Within(size, lim.maxMeta))
    requires st.global == map[] && SIZE_KEY !in st.pax
    ensures var rest := Header(name, prefix, size, typeflag) + tail;
            && |rest| >= BLOCK
            && LookAt(rest[..BLOCK], st, lim) ==
               if typeflag == PAX then Meta(PAX, size)
               else
                 var h := RawHeader(FullName(Decode(UpToNul(prefix)), Decode(UpToNul(name))), size, typeflag);
                 File(PathOf(h, st), size, typeflag)
  {
    hide Header, ParseHeader, Pow, Decode, UpToNul, IsZeroBlock, PathOf;
    var h := Header(name, prefix, size, typeflag);
    HeaderReads(name, prefix, size, typeflag);
    HeaderFields(name, prefix, size, typeflag);
    assert (h + tail)[..BLOCK] == h;
  }

  /** A header and its padded content are one entry, and the reader goes on behind them. */
  lemma ReadsFile(name: Bytes, prefix: Bytes, content: Bytes, st: State, lim: Limits, tail: Bytes)
    requires |name| <= 100 && |prefix| <= 155 && |content| < Pow(8, 11)
    requires Within(st.count + 1, lim.maxEntries) && st.global == map[] && SIZE_KEY !in st.pax
    ensures var h := RawHeader(FullName(Decode(UpToNul(prefix)), Decode(UpToNul(name))), |content|, FILE);
            var path := PathOf(h, st);
            Read(Header(name, prefix, |content|, FILE) + (PadBlock(content) + tail), st, lim) ==
            First(Entry(path, |content|, FILE, content), Read(tail, Passed(st), lim))
  {
    hide Header, LookAt, Pow, Decode, UpToNul, PathOf, PadOf, Read, FullName, PadBlock, Span;
    var h, body := Header(name, prefix, |content|, FILE), PadBlock(content);
    var rest := h + (body + tail);
    LooksAtHeader(name, prefix, |content|, FILE, st, lim, body + tail);
    var path := PathOf(RawHeader(FullName(Decode(UpToNul(prefix)), Decode(UpToNul(name))), |content|, FILE), st);
    assert LookAt(rest[..BLOCK], st, lim) == File(path, |content|, FILE);
    Blocked(h, content, tail);
    ReadStep(rest, st, lim);
  }

  /** Where a block, a padded content and what follows them stand. */
  lemma Blocked(h: Bytes, content: Bytes, tail: Bytes)
    requires |h| == BLOCK
    ensures var rest := h + (PadBlock(content) + tail);
            && |rest| >= Span(|content|) >= BLOCK + |content| && rest[BLOCK..BLOCK + |content|] == content
            && BodyOf(rest, |content|) == content && rest[Span(|content|)..] == tail
  {
    hide PadOf;
  }

  lemma ReadStep(rest: Bytes, st: State, lim: Limits)
    requires |rest| >= BLOCK && LookAt(rest[..BLOCK], st, lim).File?
    requires |rest| >= Span(LookAt(rest[..BLOCK], st, lim).size)
    ensures var l := LookAt(rest[..BLOCK], st, lim);
            Read(rest, st, lim) == First(Entry(l.path, l.size, l.typeflag, BodyOf(rest, l.size)),
              Read(rest[Span(l.size)..], Passed(st), lim))
  {
    hide LookAt, PadOf;
  }

  /** A PAX header and its record set the path of what comes next. */
  lemma ReadsPax(name: Bytes, path: Bytes, st: State, lim: Limits, tail: Bytes)
    requires |name| <= 100 && |PaxRecord(path)| < Pow(8, 11) && Within(|PaxRecord(path)|, lim.maxMeta)
    requires Within(st.count + 1, lim.maxEntries) && st.global == map[] && st.pax == map[]
    ensures Read(Header(name, [], |PaxRecord(path)|, PAX) + (PadBlock(PaxRecord(path)) + tail), st, lim) ==
            Read(tail, st.(pax := map[PATH_KEY := path], count := st.count + 1), lim)
  {
    hide Header, LookAt, Pow, Decode, UpToNul, PathOf, PadOf, Read, PaxRecord, ParsePax, PadBlock, Span, Learn;
    var record := PaxRecord(path);
    var h, body := Header(name, [], |record|, PAX), PadBlock(record);
    var rest := h + (body + tail);
    LooksAtHeader(name, [], |record|, PAX, st, lim, body + tail);
    LearnsPath(path, st);
    Blocked(h, record, tail);
    ReadMeta(rest, st, lim);
  }

  lemma LearnsPath(path: Bytes, st: State)
    ensures Learn(PAX, PaxRecord(path), st) == Ok(st.(pax := map[PATH_KEY := path], count := st.count + 1))
  {
    hide PaxRecord, ParsePax;
    PaxRecordReads(path);
  }

  lemma ReadMeta(rest: Bytes, st: State, lim: Limits)
    requires |rest| >= BLOCK && LookAt(rest[..BLOCK], st, lim).Meta?
    requires var l := LookAt(rest[..BLOCK], st, lim);
      |rest| >= Span(l.size) && Learn(l.kind, rest[BLOCK..BLOCK + l.size], st).Ok?
    ensures var l := LookAt(rest[..BLOCK], st, lim);
            Read(rest, st, lim) == Read(rest[Span(l.size)..], Learn(l.kind, rest[BLOCK..BLOCK + l.size], st).value, lim)
  {
    hide LookAt, PadOf, Learn;
  }

  /** Between files nothing is carried over. */
  predicate Clean(st: State) {
    st.pax == map[] && st.global == map[] && st.longName == None
  }

  lemma ReadsOneFile(f: TarFile, st: State, lim: Limits, tail: Bytes)
    requires Clean(st) && Fits(f, lim) && Within(st.count + HeaderCount([f]), lim.maxEntries)
    ensures Read(FileBlocks(f) + tail, st, lim) ==
            First(SeenEntry(f), Read(tail, st.(count := st.count + HeaderCount([f])), lim))
  {
    hide Header, PaxRecord, Pow, Decode, UpToNul, PadBlock, Read, Truncated, Split, FullName;
    OneHeaderCount(f);
    var p, body := f.path, PadBlock(f.content);
    if |p| <= 100 {
      assert FileBlocks(f) + tail == Header(p, [], |f.content|, FILE) + (body + tail);
      ReadsFile(p, [], f.content, st, lim, tail);
      NoPrefix(Decode(UpToNul(p)));
    } else if Split(p).Some? {
      var i := Split(p).value;
      assert FileBlocks(f) + tail == Header(p[i + 1..], p[..i], |f.content|, FILE) + (body + tail);
      ReadsFile(p[i + 1..], p[..i], f.content, st, lim, tail);
    } else {
      var record := PaxRecord(p);
      var st' := st.(pax := map[PATH_KEY := p], count := st.count + 1);
      var file := Header(Truncated(p, 100), [], |f.content|, FILE) + (body + tail);
      PaxBlocks(f, tail);
      ReadsPax(Truncated(PAX_NAME + p, 100), p, st, lim, file);
      ReadsFile(Truncated(p, 100), [], f.content, st', lim, tail);
    }
  }

  lemma PaxBlocks(f: TarFile, tail: Bytes)
    requires NeedsPax(f.path)
    ensures var record := PaxRecord(f.path);
            FileBlocks(f) + tail == Header(Truncated(PAX_NAME + f.path, 100), [], |record|, PAX)
              + (PadBlock(record) +
                (Header(Truncated(f.path, 100), [], |f.content|, FILE) + (PadBlock(f.content) + tail)))
  {
    hide Header, PaxRecord, PadBlock, Truncated, Split;
  }

  lemma OneHeaderCount(f: TarFile)
    ensures HeaderCount([f]) == if NeedsPax(f.path) then 2 else 1
  {
    hide NeedsPax;
    assert HeaderCount([f][1..]) == 0;
  }

  lemma NoPrefix(name: Bytes)
    ensures FullName(Decode(UpToNul([])), name) == name
  {
  }

  /**
   * What is written is read: the same files, in order, with their contents, in an archive of any length,
   * each under `SeenPath` of its path.
   */
  lemma {:induction false} ReadsArchive(files: seq<TarFile>, st: State, lim: Limits)
    requires Clean(st) && (forall f :: f in files ==> Fits(f, lim))
    requires Within(st.count + HeaderCount(files), lim.maxEntries)
    ensures Read(Archive(files), st, lim) == Outcome(SeenEntries(files), Marker)
    decreases |files|
  {
    hide FileBlocks, Read, SeenEntry, Fits, NeedsPax;
    if files == [] {
      ReadsEnd(st, lim);
    } else {
      OneHeaderCount(files[0]);
      ReadsOneFile(files[0], st, lim, Archive(files[1..]));
      ReadsArchive(files[1..], st.(count := st.count + HeaderCount([files[0]])), lim);
    }
  }

  lemma ReadsEnd(st: State, lim: Limits)
    ensures Read(Zeros(BLOCK) + Zeros(BLOCK), st, lim) == Outcome([], Marker)
  {
    var rest := Zeros(BLOCK) + Zeros(BLOCK);
    assert rest[..BLOCK] == Zeros(BLOCK);
    assert IsZeroBlock(rest[..BLOCK]);
  }

  // -------------------------------------------------------- which paths come back whole

  /** No NUL, and no byte-order mark in front. */
  predicate Plain(s: Bytes) {
    0 !in s && !(|s| >= 3 && s[..3] == [0xef, 0xbb, 0xbf])
  }

  predicate PlainPath(path: Bytes) {
    if |path| <= 100 then Plain(path) else
      match Split(path)
      case Some(i) => Plain(path[..i]) && Plain(path[i + 1..])
      case None => true
  }

  lemma PlainIsWhole(s: Bytes)
    ensures |Decode(UpToNul(s))| <= |s|
    ensures Decode(UpToNul(s)) == s <==> Plain(s)
    ensures |Decode(UpToNul(s))| == |s| ==> Decode(UpToNul(s)) == s
  {
    hide UpToNul;
    var t := UpToNul(s);
    if |t| == |s| {
      assert t == s;
    } else {
      assert s[|t|] == 0;
    }
  }

  /** A path comes back as it went in exactly when its header fields hold plain text; a PAX path always does. */
  lemma PathComesBack(path: Bytes)
    ensures SeenPath(path) == path <==> PlainPath(path)
  {
    hide UpToNul, Decode, Plain;
    if |path| <= 100 {
      PlainIsWhole(path);
    } else if Split(path).Some? {
      var i := Split(path).value;
      var a, b := path[..i], path[i + 1..];
      PlainIsWhole(a);
      PlainIsWhole(b);
      assert path == a + [SLASH] + b;
      SplitJoins(a, b, Decode(UpToNul(a)), Decode(UpToNul(b)));
    }
  }

  lemma SplitJoins(a: Bytes, b: Bytes, a': Bytes, b': Bytes)
    requires |a'| <= |a| && |b'| <= |b| && a != []
    ensures FullName(a', b') == a + [SLASH] + b <==> a' == a && b' == b
  {
    var whole, seen := a + [SLASH] + b, FullName(a', b');
    if seen == whole {
      assert |seen| == |whole|;
      assert a' != [] && |a'| == |a| && |b'| == |b|;
      assert a == whole[..|a|] == seen[..|a|] == a';
      assert b == whole[|a| + 1..] == seen[|a| + 1..] == b';
    }
  }

  /** A NUL-free path that does not come back: a file name that starts with a byte-order mark. */
  lemma MarkIsLost()
    ensures var path: Bytes := [0xef, 0xbb, 0xbf, 97]; 0 !in path && SeenPath(path) == [97]
  {
    var path: Bytes := [0xef, 0xbb, 0xbf, 97];
    NulEnds(path);
    FieldUpToNul(path, 5);
    assert Field(path, 5) == path + [0];
    assert path[..3] == [0xef, 0xbb, 0xbf];
  }

  /** The entries that are the files themselves. */
  function AsWritten(files: seq<TarFile>): (es: seq<Entry>)
    ensures |es| == |files|
  {
    seq(|files|, k requires 0 <= k < |files| => Entry(files[k].path, |files[k].content|, FILE, files[k].content))
  }

  /** The round trip: an archive of files whose paths are plain is read as exactly those files. */
  lemma ArchiveRoundTrip(files: seq<TarFile>, lim: Limits)
    requires (forall f :: f in files ==> Fits(f, lim)) && Within(HeaderCount(files), lim.maxEntries)
    ensures Read(Archive(files), START, lim) == Outcome(AsWritten(files), Marker)
            <==> forall f :: f in files ==> PlainPath(f.path)
  {
    hide Read, Archive, Fits, SeenPath, PlainPath;
    ReadsArchive(files, START, lim);
    var whole := AsWritten(files);
    forall k | 0 <= k < |files| ensures SeenEntries(files)[k] == whole[k] <==> PlainPath(files[k].path) {
      SeenAt(files, k);
      PathComesBack(files[k].path);
    }
    if SeenEntries(files) == whole {
      forall f | f in files ensures PlainPath(f.path) {
        var k :| 0 <= k < |files| && files[k] == f;
        assert SeenEntries(files)[k] == whole[k];
      }
    }
  }

  lemma {:induction false} SeenAt(files: seq<TarFile>, k: nat)
    requires k < |files|
    ensures SeenEntries(files)[k] == SeenEntry(files[k])
  {
    hide SeenEntry;
    if k > 0 {
      SeenAt(files[1..], k - 1);
    }
  }
}
