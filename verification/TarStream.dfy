/** The tar reader of packages/audit/src/tar.ts over a stream that comes in chunks. */
module TarStream {
  import opened Bytes
  import opened TarNumbers
  import opened TarHeader
  import opened TarPax
  import opened TarArchive

  /** A queue of chunks pulled from `source`, the chunks the stream has still to give, that reads as one flat stream. */
  class ChunkReader {
    var source: seq<Bytes>
    var chunks: seq<Bytes>
    var head: nat
    var available: nat
    var ended: bool
    var totalPulled: nat
    const maxTotal: Option<nat>

    ghost predicate Valid()
      reads this
    {
      && (forall c :: c in chunks ==> c != [])
      && (if chunks == [] then head == 0 else head < |chunks[0]|)
      && head <= |Flat(chunks)| && available == |Flat(chunks)| - head
      && (ended ==> source == []) && Within(totalPulled, maxTotal)
    }

    /** What the reader has still to give, whatever chunks it comes in. */
    ghost function Reach(): Bytes
      requires Valid()
      reads this
    {
      Flat(chunks)[head..] + Fitting(source, totalPulled, maxTotal)
    }

    /** The whole stream is within the cap. */
    ghost predicate Fits()
      reads this
    {
      Within(totalPulled + |Flat(source)|, maxTotal)
    }

    constructor (source: seq<Bytes>, maxTotal: Option<nat>)
      ensures Valid() && Reach() == Fitting(source, 0, maxTotal) && (Fits() <==> Within(|Flat(source)|, maxTotal))
    {
      this.source, this.chunks, this.head, this.available := source, [], 0, 0;
      this.ended, this.totalPulled, this.maxTotal := false, 0, maxTotal;
    }

    /** One more chunk. What it throws at is the cap, and then everything that fits has been pulled. */
    method Fill() returns (more: Result<bool>)
      requires Valid()
      modifies this
      ensures more.Ok? ==>
        Valid() && Reach() == old(Reach()) && (Fits() <==> old(Fits())) && available >= old(available)
      ensures more == Ok(true) ==> |source| < |old(source)|
      ensures more == Ok(false) ==> |Reach()| == available == old(available) && Fits()
      ensures more.Err? ==> |old(Reach())| == old(available) && !old(Fits())
    {
      if ended {
        return Ok(false);
      }
      if source == [] {
        ended := true;
        return Ok(false);
      }
      var chunk := source[0];
      FlatHead(source);
      FittingHead(source, totalPulled, maxTotal);
      source := source[1..];
      if |chunk| > 0 {
        totalPulled := totalPulled + |chunk|;
        if !Within(totalPulled, maxTotal) {
          return Err;
        }
        FlatSnoc(chunks, chunk);
        ghost var whole := Flat(chunks);
        if chunks == [] {
          assert whole == [];
        } else {
          assert (chunks + [chunk])[0] == chunks[0];
        }
        chunks := chunks + [chunk];
        available := available + |chunk|;
        Requeue(whole, chunk, Fitting(source, totalPulled, maxTotal), head);
      }
      more := Ok(true);
    }

    method Advance(consumed: nat)
      requires Valid() && chunks != [] && head + consumed <= |chunks[0]|
      modifies this`head, this`available, this`chunks
      ensures Valid() && available == old(available) - consumed
      ensures Reach() == old(Reach())[consumed..]
    {
      FlatHead(chunks);
      ghost var rest := Reach();
      ghost var first, later, more := chunks[0], Flat(chunks[1..]), Fitting(source, totalPulled, maxTotal);
      Behind(first, later, more, head, consumed);
      head := head + consumed;
      available := available - consumed;
      if head == |chunks[0]| {
        assert |chunks| > 1 ==> chunks[1] in chunks;
        assert forall c :: c in chunks[1..] ==> c in chunks;
        chunks := chunks[1..];
        head := 0;
      }
    }

    /** The front of the first chunk, at most `max` bytes of it, passed over. */
    method TakeFront(max: nat) returns (piece: Bytes)
      requires Valid() && available > 0 && max > 0
      modifies this`head, this`available, this`chunks
      ensures Valid() && 0 < |piece| <= max && available == old(available) - |piece|
      ensures piece <= old(Reach()) && Reach() == old(Reach())[|piece|..]
    {
      FlatHead(chunks);
      var first := chunks[0];
      var take := if max < |first| - head then max else |first| - head;
      FrontOf(first, Flat(chunks[1..]), Fitting(source, totalPulled, maxTotal), head, take);
      piece := first[head..head + take];
      Advance(take);
    }

    method Take(n: nat) returns (out: Bytes)
      requires Valid() && n <= available
      modifies this`head, this`available, this`chunks
      ensures Valid() && n <= |old(Reach())| && out == old(Reach())[..n] && Reach() == old(Reach())[n..]
    {
      ghost var rest := Reach();
      var buffer := new byte[n](_ => 0);
      var copied := 0;
      while copied < n
        invariant 0 <= copied <= n <= |rest| && Valid() && n - copied <= available
        invariant Reach() == rest[copied..] && buffer[..copied] == rest[..copied]
      {
        var piece := TakeFront(n - copied);
        Copied(rest, copied, piece);
        CopyInto(buffer, copied, piece);
        copied := copied + |piece|;
      }
      out := buffer[..];
    }

    static method CopyInto(buffer: array<byte>, at: nat, piece: Bytes)
      requires at + |piece| <= buffer.Length
      modifies buffer
      ensures buffer[..at + |piece|] == old(buffer[..at]) + piece
    {
      forall k | 0 <= k < |piece| {
        buffer[at + k] := piece[k];
      }
    }

    /** Exactly `n` bytes; none when the stream has ended with nothing left over. */
    method ReadExact(n: nat) returns (r: Result<Option<Bytes>>)
      requires Valid()
      modifies this
      ensures r.Ok? ==> Valid() && (Fits() <==> old(Fits()))
      ensures r.Ok? && r.value.Some? ==>
        |old(Reach())| >= n && r.value.value == old(Reach())[..n] && Reach() == old(Reach())[n..]
      ensures r.Ok? && r.value.None? ==> old(Reach()) == [] && n > 0 && old(Fits())
      ensures r.Err? ==> |old(Reach())| < n && (old(Reach()) != [] || !old(Fits()))
    {
      ghost var reach, fits := Reach(), Fits();
      while available < n
        invariant Valid() && Reach() == reach && (Fits() <==> fits)
        decreases |source|
      {
        var more := Fill();
        if more.Err? {
          return Err;
        }
        if !more.value {
          return if available == 0 then Ok(None) else Err;
        }
      }
      var out := Take(n);
      r := Ok(Some(out));
    }

    /** Some bytes, at most `max`; none at the end. */
    method ReadSome(max: nat) returns (r: Result<Option<Bytes>>)
      requires Valid() && max > 0
      modifies this
      ensures r.Ok? ==> Valid() && (Fits() <==> old(Fits()))
      ensures r.Ok? && r.value.Some? ==>
        && 0 < |r.value.value| <= max && r.value.value <= old(Reach())
        && Reach() == old(Reach())[|r.value.value|..]
      ensures r.Ok? && r.value.None? ==> old(Reach()) == [] && old(Fits())
      ensures r.Err? ==> old(Reach()) == [] && !old(Fits())
    {
      ghost var reach, fits := Reach(), Fits();
      while available == 0
        invariant Valid() && Reach() == reach && (Fits() <==> fits)
        decreases |source|
      {
        var more := Fill();
        if more.Err? {
          return Err;
        }
        if !more.value {
          return Ok(None);
        }
      }
      var out := TakeFront(max);
      r := Ok(Some(out));
    }

    method Skip(n: nat) returns (ok: bool)
      requires Valid()
      modifies this
      ensures ok ==>
        Valid() && |old(Reach())| >= n && Reach() == old(Reach())[n..] && (Fits() <==> old(Fits()))
      ensures !ok ==> |old(Reach())| < n
    {
      hide Flat, Fitting, Within;
      ghost var reach, fits := Reach(), Fits();
      var remaining := n;
      while remaining > 0
        invariant 0 <= remaining <= n && Valid() && (Fits() <==> fits)
        invariant n - remaining <= |reach| && Reach() == reach[n - remaining..]
      {
        var chunk := ReadSome(remaining);
        if chunk.Err? || chunk.value.None? {
          return false;
        }
        assert reach[n - remaining..][|chunk.value.value|..] == reach[n - remaining + |chunk.value.value|..];
        remaining := remaining - |chunk.value.value|;
      }
      ok := true;
    }
  }

  /** The chunks in front of the first that would take the stream over the cap. */
  function Fitting(source: seq<Bytes>, pulled: nat, cap: Option<nat>): Bytes {
    if source == [] then []
    else if source[0] != [] && !Within(pulled + |source[0]|, cap) then []
    else source[0] + Fitting(source[1..], pulled + |source[0]|, cap)
  }

  lemma FittingHead(source: seq<Bytes>, pulled: nat, cap: Option<nat>)
    requires source != []
    ensures Fitting(source, pulled, cap) ==
      if source[0] != [] && !Within(pulled + |source[0]|, cap) then []
      else source[0] + Fitting(source[1..], pulled + |source[0]|, cap)
  {
  }

  /** What fits is a front of the stream, and all of it exactly when the stream is within the cap. */
  lemma {:induction false} FittingIsFront(source: seq<Bytes>, pulled: nat, cap: Option<nat>)
    requires Within(pulled, cap)
    ensures Fitting(source, pulled, cap) <= Flat(source)
    ensures Fitting(source, pulled, cap) == Flat(source) <==> Within(pulled + |Flat(source)|, cap)
  {
    if source != [] && (source[0] == [] || Within(pulled + |source[0]|, cap)) {
      FittingIsFront(source[1..], pulled + |source[0]|, cap);
    }
  }

  lemma Requeue(whole: Bytes, chunk: Bytes, more: Bytes, head: nat)
    requires head <= |whole|
    ensures (whole + chunk)[head..] + more == whole[head..] + (chunk + more)
  {
  }

  lemma Behind(first: Bytes, later: Bytes, more: Bytes, head: nat, consumed: nat)
    requires head + consumed <= |first|
    ensures ((first + later)[head..] + more)[consumed..] == (first + later)[head + consumed..] + more
    ensures (first + later)[|first|..] == later[0..]
  {
  }

  lemma FrontOf(first: Bytes, later: Bytes, more: Bytes, head: nat, take: nat)
    requires head + take <= |first|
    ensures take <= |(first + later)[head..] + more|
    ensures ((first + later)[head..] + more)[..take] == first[head..head + take]
  {
  }

  lemma Copied(rest: Bytes, copied: nat, piece: Bytes)
    requires copied <= |rest| && piece <= rest[copied..]
    ensures rest[..copied] + piece == rest[..copied + |piece|] && rest[copied..][|piece|..] == rest[copied + |piece|..]
  {
  }

  // ---------------------------------------------------------------- reading an archive

  /** An entry as the consumer saw it, with the part of its body it asked for. */
  datatype Seen = Seen(path: Bytes, size: nat, typeflag: byte, taken: Bytes)

  ghost predicate Sees(s: Seen, e: Entry) {
    s.path == e.path && s.size == e.size && s.typeflag == e.typeflag && s.taken <= e.body
  }

  ghost predicate SeesAll(seen: seq<Seen>, entries: seq<Entry>) {
    |seen| <= |entries| && forall k :: 0 <= k < |seen| ==> Sees(seen[k], entries[k])
  }

  /** A consumer that asks often enough gets the whole body: each answer is at least a byte. */
  ghost predicate Enough(seen: seq<Seen>, entries: seq<Entry>, pulls: nat -> nat) {
    |seen| <= |entries| && forall k :: 0 <= k < |seen| && pulls(k) >= seen[k].size ==> seen[k].taken == entries[k].body
  }

  /** The consumer's `pulls` requests to one body. */
  method TakeBody(reader: ChunkReader, size: nat, pulls: nat) returns (taken: Bytes, ok: bool)
    requires reader.Valid()
    modifies reader
    ensures |taken| <= size && taken <= old(reader.Reach())
    ensures ok ==> reader.Valid() && (reader.Fits() <==> old(reader.Fits()))
    ensures ok ==> reader.Reach() == old(reader.Reach())[|taken|..]
    ensures ok && pulls >= size ==> |taken| == size
    ensures !ok ==> taken == old(reader.Reach()) && |taken| < size
  {
    hide Flat, Fitting;
    ghost var reach, fits := reader.Reach(), reader.Fits();
    taken := [];
    var pulled := 0;
    while |taken| < size && pulled < pulls
      invariant reader.Valid() && |taken| <= size && (reader.Fits() <==> fits)
      invariant |taken| <= |reach| && taken == reach[..|taken|] && reader.Reach() == reach[|taken|..]
      invariant pulled <= |taken|
      decreases size - |taken|
    {
      var chunk := reader.ReadSome(size - |taken|);
      if chunk.Err? || chunk.value.None? {
        assert reach[|taken|..] == [];
        return taken, false;
      }
      var piece := chunk.value.value;
      Copied(reach, |taken|, piece);
      taken := taken + piece;
      pulled := pulled + 1;
    }
    ok := true;
  }

  function Before(done: seq<Entry>, out: Outcome): Outcome {
    Outcome(done + out.entries, out.ending)
  }

  lemma BeforeFirst(done: seq<Entry>, e: Entry, out: Outcome)
    ensures Before(done, First(e, out)) == Before(done + [e], out)
    ensures Before([], out) == out
  {
    assert done + ([e] + out.entries) == (done + [e]) + out.entries;
    assert [] + out.entries == out.entries;
  }

  method Examine(block: Bytes, st: State, lim: Limits) returns (l: Look)
    requires |block| == BLOCK
    ensures l == LookAt(block, st, lim)
  {
    hide ParseHeader, IsZeroBlock, PathOf, SizeOf;
    if IsZeroBlock(block) {
      return End;
    }
    if !Within(st.count + 1, lim.maxEntries) {
      return Refuse;
    }
    var header := ReadHeader(block);
    if header.Err? {
      return Refuse;
    }
    var h := header.value;
    if h.typeflag == PAX || h.typeflag == GLOBAL || h.typeflag == LONG_NAME {
      return if Within(h.size, lim.maxMeta) then Meta(h.typeflag, h.size) else Refuse;
    }
    if h.typeflag == LONG_LINK {
      return Meta(LONG_LINK, h.size);
    }
    var size := SizeOf(h, st);
    l := if size.None? then Refuse else File(PathOf(h, st), size.value, h.typeflag);
  }

  /** A metadata entry's data, its padding passed over. */
  method ReadData(reader: ChunkReader, size: nat) returns (data: Result<Bytes>)
    requires reader.Valid()
    modifies reader
    ensures data.Ok? ==>
      && reader.Valid() && (reader.Fits() <==> old(reader.Fits()))
      && |old(reader.Reach())| >= size + PadOf(size) && data.value == old(reader.Reach())[..size]
      && reader.Reach() == old(reader.Reach())[size + PadOf(size)..]
    ensures data.Err? ==> |old(reader.Reach())| < size + PadOf(size)
  {
    hide PadOf;
    ghost var reach := reader.Reach();
    data := Ok([]);
    if size > 0 {
      var got := reader.ReadExact(size);
      if got.Err? || got.value.None? {
        return Err;
      }
      data := Ok(got.value.value);
    }
    assert data.value == reach[..size] && reader.Reach() == reach[size..];
    var ok := reader.Skip(PadOf(size));
    if !ok {
      return Err;
    }
    assert reach[size..][PadOf(size)..] == reach[size + PadOf(size)..];
  }

  method Apply(kind: byte, data: Bytes, st: State) returns (r: Result<State>)
    requires IsMeta(kind)
    ensures r == Learn(kind, data, st)
  {
    hide ParsePax, Decode, StripNuls;
    var st' := st.(count := st.count + 1);
    if kind == LONG_LINK {
      return Ok(st');
    }
    if kind == LONG_NAME {
      return Ok(st'.(longName := Some(Decode(StripNuls(data)))));
    }
    var records := ParsePaxRecords(data);
    if records.Err? {
      return Err;
    }
    r := Ok(if kind == PAX then st'.(pax := records.value) else st'.(global := st.global + records.value));
  }

  method ReadMetadata(reader: ChunkReader, kind: byte, size: nat, st: State) returns (r: Result<State>)
    requires reader.Valid() && IsMeta(kind)
    modifies reader
    ensures r.Ok? ==>
      && reader.Valid() && (reader.Fits() <==> old(reader.Fits()))
      && |old(reader.Reach())| >= size + PadOf(size) && r == Learn(kind, old(reader.Reach())[..size], st)
      && reader.Reach() == old(reader.Reach())[size + PadOf(size)..]
    ensures r.Err? ==>
      |old(reader.Reach())| < size + PadOf(size) || Learn(kind, old(reader.Reach())[..size], st).Err?
  {
    hide PadOf, ParsePax, Flat;
    if kind == LONG_LINK {
      var ok := reader.Skip(size + PadOf(size));
      return if ok then Ok(st.(count := st.count + 1)) else Err;
    }
    var data := ReadData(reader, size);
    if data.Err? {
      return Err;
    }
    r := Apply(kind, data.value, st);
  }

  /** An entry's body, as far as the consumer wants it, then the rest of it and its padding. */
  method PassEntry(reader: ChunkReader, size: nat, pulls: nat) returns (taken: Bytes, ok: bool)
    requires reader.Valid()
    modifies reader
    ensures |taken| <= size && taken <= old(reader.Reach())
    ensures pulls >= size ==> |taken| == size || taken == old(reader.Reach())
    ensures ok ==>
      && reader.Valid() && (reader.Fits() <==> old(reader.Fits())) && |old(reader.Reach())| >= size + PadOf(size)
      && reader.Reach() == old(reader.Reach())[size + PadOf(size)..]
    ensures !ok ==> |old(reader.Reach())| < size + PadOf(size)
  {
    hide PadOf;
    ghost var reach := reader.Reach();
    taken, ok := TakeBody(reader, size, pulls);
    if !ok {
      return;
    }
    if size - |taken| > 0 {
      ok := reader.Skip(size - |taken|);
      if !ok {
        return;
      }
      assert reach[|taken|..][size - |taken|..] == reach[size..];
    }
    assert reader.Reach() == reach[size..];
    ok := reader.Skip(PadOf(size));
    if ok {
      assert reach[size..][PadOf(size)..] == reach[size + PadOf(size)..];
    }
  }

  // One turn of the flat reader, case by case.

  lemma ReadEnds(rest: Bytes, st: State, lim: Limits)
    ensures rest == [] ==> Read(rest, st, lim) == Outcome([], StreamEnd)
    ensures 0 < |rest| < BLOCK ==> Read(rest, st, lim) == Outcome([], Thrown)
    ensures |rest| >= BLOCK && LookAt(rest[..BLOCK], st, lim).End? ==> Read(rest, st, lim) == Outcome([], Marker)
    ensures |rest| >= BLOCK && LookAt(rest[..BLOCK], st, lim).Refuse? ==> Read(rest, st, lim) == Outcome([], Thrown)
  {
    hide LookAt, Learn, PadOf, Span, BodyOf;
  }

  lemma ReadsMetadata(rest: Bytes, st: State, lim: Limits, kind: byte, size: nat)
    requires |rest| >= BLOCK && LookAt(rest[..BLOCK], st, lim) == Meta(kind, size)
    ensures var body := rest[BLOCK..];
      if |body| < size + PadOf(size) || Learn(kind, body[..size], st).Err? then
        Read(rest, st, lim) == Outcome([], Thrown)
      else
        Read(rest, st, lim) == Read(body[size + PadOf(size)..], Learn(kind, body[..size], st).value, lim)
  {
    hide LookAt, Learn, PadOf;
    if |rest| >= Span(size) {
      AfterBlock(rest, size);
    }
  }

  lemma ReadsEntry(rest: Bytes, st: State, lim: Limits, path: Bytes, size: nat, typeflag: byte)
    requires |rest| >= BLOCK && LookAt(rest[..BLOCK], st, lim) == File(path, size, typeflag)
    ensures var body, e := rest[BLOCK..], Entry(path, size, typeflag, BodyOf(rest, size));
      if |body| < size + PadOf(size) then Read(rest, st, lim) == Outcome([e], Thrown)
      else Read(rest, st, lim) == First(e, Read(body[size + PadOf(size)..], Passed(st), lim))
  {
    hide LookAt, Learn, PadOf, BodyOf;
    if |rest| >= Span(size) {
      AfterBlock(rest, size);
    }
  }

  lemma AfterBlock(rest: Bytes, size: nat)
    requires |rest| >= Span(size)
    ensures rest[BLOCK..][..size] == rest[BLOCK..BLOCK + size]
    ensures rest[BLOCK..][size + PadOf(size)..] == rest[Span(size)..]
  {
    hide PadOf;
  }

  lemma LookIsMeta(block: Bytes, st: State, lim: Limits)
    requires |block| == BLOCK && LookAt(block, st, lim).Meta?
    ensures IsMeta(LookAt(block, st, lim).kind)
  {
    hide ParseHeader, IsZeroBlock, PathOf, SizeOf, IsMeta;
  }

  lemma BodyIs(rest: Bytes, size: nat)
    requires |rest| >= BLOCK
    ensures forall t: Bytes :: |t| <= size && t <= rest[BLOCK..] ==> t <= BodyOf(rest, size)
    ensures |BodyOf(rest, size)| <= size && (|BodyOf(rest, size)| < size ==> BodyOf(rest, size) == rest[BLOCK..])
  {
    var body := BodyOf(rest, size);
    assert body == rest[BLOCK..][..|body|];
    forall t: Bytes | |t| <= size && t <= rest[BLOCK..] ensures t <= body {
      assert |t| <= |body|;
      assert t == rest[BLOCK..][..|t|] == body[..|t|];
    }
  }

  lemma SeesStill(seen: seq<Seen>, done: seq<Entry>, more: seq<Entry>, pulls: nat -> nat)
    requires SeesAll(seen, done) && Enough(seen, done, pulls)
    ensures SeesAll(seen, done + more) && Enough(seen, done + more, pulls)
  {
  }

  lemma SeesMore(seen: seq<Seen>, done: seq<Entry>, s: Seen, e: Entry, pulls: nat -> nat)
    requires |seen| == |done| && SeesAll(seen, done) && Enough(seen, done, pulls) && Sees(s, e)
    ensures SeesAll(seen + [s], done + [e])
    ensures (pulls(|seen|) >= s.size ==> s.taken == e.body) ==> Enough(seen + [s], done + [e], pulls)
  {
  }

  lemma SeesLast(seen: seq<Seen>, done: seq<Entry>, e: Entry, out: Outcome, pulls: nat -> nat)
    requires |seen| == |done| + 1 && SeesAll(seen, done + [e]) && out.entries != [] && out.entries[0] == e
    ensures SeesAll(seen, Before(done, out).entries)
    ensures Enough(seen, done + [e], pulls) ==> Enough(seen, Before(done, out).entries, pulls)
  {
    var all := done + out.entries;
    assert all[..|seen|] == done + [e];
    forall k | 0 <= k < |seen| ensures all[k] == (done + [e])[k] {
      assert all[..|seen|][k] == all[k];
    }
  }

  /** What one turn of the reader's loop comes to. */
  datatype Turn = Ended(ok: bool) | Learned(st: State) | Handed(seen: Seen, ok: bool)

  /** One header block and what belongs to it, as the flat reader takes it; `e` is the entry it hands out. */
  method TakeTurn(reader: ChunkReader, st: State, lim: Limits, pulls: nat) returns (t: Turn, ghost e: Entry)
    requires reader.Valid()
    modifies reader
    ensures var flat := Read(old(reader.Reach()), st, lim);
      match t
      case Ended(ok) =>
        flat.entries == [] && (ok <==> flat.ending.Marker? || (flat.ending.StreamEnd? && old(reader.Fits())))
      case Learned(st') => reader.Valid() && flat == Read(reader.Reach(), st', lim)
      case Handed(s, ok) =>
        && flat.entries != [] && flat.entries[0] == e && Sees(s, e) && (pulls >= s.size ==> s.taken == e.body)
        && (if ok then reader.Valid() && flat == First(e, Read(reader.Reach(), Passed(st), lim))
            else flat == Outcome([e], Thrown))
    ensures t.Learned? || (t.Handed? && t.ok) ==>
      |reader.Reach()| < |old(reader.Reach())| && (reader.Fits() <==> old(reader.Fits()))
  {
    hide Read, LookAt, Learn, PadOf, Span, IsMeta, Flat, Passed;
    ghost var reach := reader.Reach();
    e := Entry([], 0, 0, []);
    ReadEnds(reach, st, lim);
    var block := reader.ReadExact(BLOCK);
    if block.Err? || block.value.None? {
      return Ended(block.Ok?), e;
    }
    var look := Examine(block.value.value, st, lim);
    match look {
      case End =>
        t := Ended(true);
      case Refuse =>
        t := Ended(false);
      case Meta(kind, size) =>
        LookIsMeta(block.value.value, st, lim);
        ReadsMetadata(reach, st, lim, kind, size);
        var learned := ReadMetadata(reader, kind, size, st);
        t := if learned.Err? then Ended(false) else Learned(learned.value);
      case File(path, size, typeflag) =>
        ReadsEntry(reach, st, lim, path, size, typeflag);
        BodyIs(reach, size);
        e := Entry(path, size, typeflag, BodyOf(reach, size));
        var taken, passed := PassEntry(reader, size, pulls);
        t := Handed(Seen(path, size, typeflag, taken), passed);
    }
  }

  /** The flat reader over what fits under the cap; at a stream's own end past the cap it throws. */
  function Streamed(source: seq<Bytes>, lim: Limits): Outcome {
    var flat := Read(Fitting(source, 0, lim.maxTotal), START, lim);
    if flat.ending.StreamEnd? && !Within(|Flat(source)|, lim.maxTotal) then Outcome(flat.entries, Thrown) else flat
  }

  /**
   * The streaming reader is the flat one over the chunks that fit under the cap on the whole stream, whatever chunks
   * the stream comes in and however much of each body the consumer asks for.
   */
  method ReadTarEntries(source: seq<Bytes>, lim: Limits, pulls: nat -> nat) returns (seen: seq<Seen>, ok: bool)
    ensures var out := Streamed(source, lim);
      && |seen| == |out.entries| && SeesAll(seen, out.entries) && Enough(seen, out.entries, pulls)
      && ok == !out.ending.Thrown?
  {
    hide Read, Flat, Fitting, Passed, Sees;
    ghost var flat := Read(Fitting(source, 0, lim.maxTotal), START, lim);
    var reader := new ChunkReader(source, lim.maxTotal);
    var st := START;
    seen := [];
    ghost var done: seq<Entry> := [];
    BeforeFirst([], Entry([], 0, 0, []), flat);
    while true
      invariant reader.Valid() && fresh(reader) && (reader.Fits() <==> Within(|Flat(source)|, lim.maxTotal))
      invariant flat == Before(done, Read(reader.Reach(), st, lim))
      invariant |seen| == |done| && SeesAll(seen, done) && Enough(seen, done, pulls)
      decreases |reader.Reach()|
    {
      ghost var here := Read(reader.Reach(), st, lim);
      SeesStill(seen, done, here.entries, pulls);
      var turn, e := TakeTurn(reader, st, lim, pulls(|seen|));
      match turn {
        case Ended(peace) =>
          return seen, peace;
        case Learned(st') =>
          st := st';
        case Handed(s, passed) =>
          SeesMore(seen, done, s, e, pulls);
          seen := seen + [s];
          if !passed {
            SeesLast(seen, done, e, here, pulls);
            return seen, false;
          }
          BeforeFirst(done, e, Read(reader.Reach(), Passed(st), lim));
          done := done + [e];
          st := Passed(st);
      }
    }
  }

  // --------------------------------------------------------------- the cap and the chunks

  /** Entries of a shorter stream beside those of the whole: the first of them, the last one's body perhaps cut. */
  ghost predicate FrontOfEntries(less: seq<Entry>, whole: seq<Entry>) {
    && |less| <= |whole|
    && forall k :: 0 <= k < |less| ==> less[k].(body := whole[k].body) == whole[k] && less[k].body <= whole[k].body
  }

  /** How much of a stream the reader goes through until it has read the end marker. */
  function MarkerEnd(rest: Bytes, st: State, lim: Limits): (n: nat)
    decreases |rest|
  {
    if |rest| < BLOCK then 0
    else
      match LookAt(rest[..BLOCK], st, lim)
      case End => BLOCK
      case Refuse => 0
      case Meta(kind, size) =>
        if |rest| < Span(size) || Learn(kind, rest[BLOCK..BLOCK + size], st).Err? then 0
        else Span(size) + MarkerEnd(rest[Span(size)..], Learn(kind, rest[BLOCK..BLOCK + size], st).value, lim)
      case File(_, size, _) =>
        if |rest| < Span(size) then 0 else Span(size) + MarkerEnd(rest[Span(size)..], Passed(st), lim)
  }

  lemma MarkerHere(rest: Bytes, st: State, lim: Limits)
    ensures |rest| >= BLOCK && LookAt(rest[..BLOCK], st, lim).End? ==> MarkerEnd(rest, st, lim) == BLOCK
  {
  }

  lemma MarkerPastMetadata(rest: Bytes, st: State, lim: Limits, kind: byte, size: nat)
    requires |rest| >= BLOCK && LookAt(rest[..BLOCK], st, lim) == Meta(kind, size)
    ensures var body := rest[BLOCK..];
      |body| >= size + PadOf(size) && Learn(kind, body[..size], st).Ok? ==>
        MarkerEnd(rest, st, lim) ==
        Span(size) + MarkerEnd(body[size + PadOf(size)..], Learn(kind, body[..size], st).value, lim)
  {
    hide LookAt, Learn, PadOf;
    if |rest| >= Span(size) {
      AfterBlock(rest, size);
    }
  }

  lemma MarkerPastEntry(rest: Bytes, st: State, lim: Limits, path: Bytes, size: nat, typeflag: byte)
    requires |rest| >= BLOCK && LookAt(rest[..BLOCK], st, lim) == File(path, size, typeflag)
    ensures var body := rest[BLOCK..];
      |body| >= size + PadOf(size) ==>
        MarkerEnd(rest, st, lim) == Span(size) + MarkerEnd(body[size + PadOf(size)..], Passed(st), lim)
  {
    hide LookAt, Learn, PadOf;
    if |rest| >= Span(size) {
      AfterBlock(rest, size);
    }
  }

  /** A stream with an end marker is gone through at least to the end of that block, and no further than its end. */
  lemma {:induction false} MarkerInside(rest: Bytes, st: State, lim: Limits)
    requires Read(rest, st, lim).ending.Marker?
    ensures BLOCK <= MarkerEnd(rest, st, lim) <= |rest|
    decreases |rest|
  {
    hide Read, MarkerEnd, LookAt, Learn, PadOf, Passed, BodyOf;
    ReadEnds(rest, st, lim);
    MarkerHere(rest, st, lim);
    var body := rest[BLOCK..];
    match LookAt(rest[..BLOCK], st, lim) {
      case End =>
      case Meta(kind, size) =>
        ReadsMetadata(rest, st, lim, kind, size);
        MarkerPastMetadata(rest, st, lim, kind, size);
        MarkerInside(body[size + PadOf(size)..], Learn(kind, body[..size], st).value, lim);
      case File(path, size, typeflag) =>
        ReadsEntry(rest, st, lim, path, size, typeflag);
        MarkerPastEntry(rest, st, lim, path, size, typeflag);
        MarkerInside(body[size + PadOf(size)..], Passed(st), lim);
    }
  }

  /** What reading a front of a stream gives, beside reading the whole: `less` of `n` bytes, `whole` with its marker. */
  ghost predicate ReadsAsFront(less: Outcome, whole: Outcome, n: nat, markerEnd: nat) {
    && FrontOfEntries(less.entries, whole.entries)
    && (less.ending.Marker? <==> whole.ending.Marker? && markerEnd <= n)
    && (less.ending.Marker? ==> less == whole)
  }

  /**
   * Reading a front of a stream gives a front of its entries, and comes to the end marker, with all of them, exactly
   * when that is inside the front.
   */
  lemma {:induction false} FrontReads(rest: Bytes, more: Bytes, st: State, lim: Limits)
    ensures ReadsAsFront(Read(rest, st, lim), Read(rest + more, st, lim), |rest|, MarkerEnd(rest + more, st, lim))
    decreases |rest|
  {
    hide Read, MarkerEnd, LookAt, Learn, PadOf, Span, Passed, BodyOf;
    var whole := rest + more;
    ReadEnds(rest, st, lim);
    if |rest| >= BLOCK {
      assert whole[..BLOCK] == rest[..BLOCK];
      ReadEnds(whole, st, lim);
      MarkerHere(whole, st, lim);
      match LookAt(rest[..BLOCK], st, lim) {
        case End =>
        case Refuse =>
        case Meta(kind, size) =>
          FrontPastMetadata(rest, more, st, lim, kind, size);
        case File(path, size, typeflag) =>
          FrontPastEntry(rest, more, st, lim, path, size, typeflag);
      }
    } else if Read(whole, st, lim).ending.Marker? {
      MarkerInside(whole, st, lim);
    }
  }

  lemma {:induction false} FrontPastMetadata(rest: Bytes, more: Bytes, st: State, lim: Limits, kind: byte, size: nat)
    requires |rest| >= BLOCK && LookAt(rest[..BLOCK], st, lim) == Meta(kind, size)
    ensures ReadsAsFront(Read(rest, st, lim), Read(rest + more, st, lim), |rest|, MarkerEnd(rest + more, st, lim))
    decreases |rest|, 0
  {
    hide Read, MarkerEnd, LookAt, Learn, PadOf;
    var whole, body := rest + more, rest[BLOCK..];
    assert whole[..BLOCK] == rest[..BLOCK] && whole[BLOCK..] == body + more;
    ReadsMetadata(rest, st, lim, kind, size);
    ReadsMetadata(whole, st, lim, kind, size);
    MarkerPastMetadata(whole, st, lim, kind, size);
    if |body| >= size + PadOf(size) {
      assert (body + more)[..size] == body[..size];
      if Learn(kind, body[..size], st).Ok? {
        assert (body + more)[size + PadOf(size)..] == body[size + PadOf(size)..] + more;
        FrontReads(body[size + PadOf(size)..], more, Learn(kind, body[..size], st).value, lim);
      }
    } else if Read(whole, st, lim).ending.Marker? {
      MarkerInside((body + more)[size + PadOf(size)..], Learn(kind, (body + more)[..size], st).value, lim);
    }
  }

  lemma {:induction false} FrontPastEntry(
    rest: Bytes, more: Bytes, st: State, lim: Limits, path: Bytes, size: nat, typeflag: byte)
    requires |rest| >= BLOCK && LookAt(rest[..BLOCK], st, lim) == File(path, size, typeflag)
    ensures ReadsAsFront(Read(rest, st, lim), Read(rest + more, st, lim), |rest|, MarkerEnd(rest + more, st, lim))
    decreases |rest|, 0
  {
    hide Read, MarkerEnd, LookAt, PadOf, Passed;
    var whole, body := rest + more, rest[BLOCK..];
    assert whole[..BLOCK] == rest[..BLOCK] && whole[BLOCK..] == body + more;
    ReadsEntry(rest, st, lim, path, size, typeflag);
    ReadsEntry(whole, st, lim, path, size, typeflag);
    MarkerPastEntry(whole, st, lim, path, size, typeflag);
    assert BodyOf(rest, size) <= BodyOf(whole, size);
    if |body| >= size + PadOf(size) {
      assert BodyOf(rest, size) == BodyOf(whole, size);
      assert (body + more)[size + PadOf(size)..] == body[size + PadOf(size)..] + more;
      FrontReads(body[size + PadOf(size)..], more, Passed(st), lim);
    } else if Read(whole, st, lim).ending.Marker? {
      MarkerInside((body + more)[size + PadOf(size)..], Passed(st), lim);
    }
  }

  /**
   * However the stream is cut, what is seen is a front of the flat reader's entries. The reader ends in peace exactly
   * when the flat one does and either comes to an end marker inside what fits under the cap, or to the end of a stream
   * that is within the cap; and then it has seen all that the flat one sees.
   */
  lemma StreamedIsFront(source: seq<Bytes>, lim: Limits)
    ensures var out, flat := Streamed(source, lim), Read(Flat(source), START, lim);
      && FrontOfEntries(out.entries, flat.entries)
      && (!out.ending.Thrown? <==>
            || (flat.ending.Marker? && MarkerEnd(Flat(source), START, lim) <= |Fitting(source, 0, lim.maxTotal)|)
            || (flat.ending.StreamEnd? && Within(|Flat(source)|, lim.maxTotal)))
      && (!out.ending.Thrown? || Within(|Flat(source)|, lim.maxTotal) ==> out == flat)
  {
    hide Read, MarkerEnd, Flat, Fitting, FrontOfEntries;
    FittingIsFront(source, 0, lim.maxTotal);
    var fitting := Fitting(source, 0, lim.maxTotal);
    FrontReads(fitting, Flat(source)[|fitting|..], START, lim);
    assert fitting + Flat(source)[|fitting|..] == Flat(source);
  }

  /** Two ways to cut one stream that is within the cap read alike. */
  lemma CutsAgree(a: seq<Bytes>, b: seq<Bytes>, lim: Limits)
    requires Flat(a) == Flat(b) && Within(|Flat(a)|, lim.maxTotal)
    ensures Streamed(a, lim) == Streamed(b, lim)
  {
    hide Streamed;
    StreamedIsFront(a, lim);
    StreamedIsFront(b, lim);
  }

  /** A stream that comes as one chunk over the cap is refused with nothing seen. */
  lemma OneChunkOver(whole: Bytes, lim: Limits)
    requires !Within(|whole|, lim.maxTotal)
    ensures Streamed([whole], lim) == Outcome([], Thrown)
  {
    hide Read;
    FittingHead([whole], 0, lim.maxTotal);
    FlatHead([whole]);
    assert Flat([whole][1..]) == [];
    ReadEnds([], START, lim);
  }

  /** Past the cap the cut matters: one file's archive, capped at its own blocks, as one chunk and cut behind them. */
  lemma CutsDiffer(f: TarFile, lim: Limits)
    requires Fits(f, lim) && Within(HeaderCount([f]), lim.maxEntries) && lim.maxTotal == Some(|FileBlocks(f)|)
    ensures var marker := Zeros(BLOCK) + Zeros(BLOCK);
      && Flat([FileBlocks(f), marker]) == Flat([Archive([f])]) == Archive([f])
      && Streamed([Archive([f])], lim) == Outcome([], Thrown)
      && Streamed([FileBlocks(f), marker], lim) == Outcome([SeenEntry(f)], Thrown)
  {
    hide Read, FileBlocks, Fits, HeaderCount, SeenEntry, Fitting;
    var blocks, marker := FileBlocks(f), Zeros(BLOCK) + Zeros(BLOCK);
    var source, st := [blocks, marker], START.(count := START.count + HeaderCount([f]));
    assert source[1..] == [marker];
    OneArchive(f);
    FlatTwo(blocks, marker);
    OneChunkOver(Archive([f]), lim);
    FittingHead(source, 0, lim.maxTotal);
    FittingHead([marker], |blocks|, lim.maxTotal);
    ReadsOneFile(f, START, lim, []);
    ReadEnds([], st, lim);
    assert blocks + [] == blocks;
  }

  lemma OneArchive(f: TarFile)
    ensures Archive([f]) == FileBlocks(f) + (Zeros(BLOCK) + Zeros(BLOCK))
  {
    hide FileBlocks;
    var none: seq<TarFile> := [];
    assert [f][1..] == none;
  }

  lemma FlatTwo(a: Bytes, b: Bytes)
    ensures Flat([a, b]) == a + b && Flat([a + b]) == a + b
  {
    assert [a, b][1..] == [b];
    assert Flat([b]) == b + [] && Flat([a + b]) == (a + b) + [];
  }

  /** The blocks of an archive's files, in front of anything. */
  function FileParts(files: seq<TarFile>): Bytes {
    if files == [] then [] else FileBlocks(files[0]) + FileParts(files[1..])
  }

  lemma {:induction false} ArchiveParts(files: seq<TarFile>)
    ensures Archive(files) == FileParts(files) + (Zeros(BLOCK) + Zeros(BLOCK))
  {
    hide FileBlocks;
    if files != [] {
      ArchiveParts(files[1..]);
    }
  }

  /** Behind the files' blocks the reader goes on as if it had begun there. */
  lemma {:induction false} ReadsParts(files: seq<TarFile>, st: State, lim: Limits, tail: Bytes)
    requires Clean(st) && (forall f :: f in files ==> Fits(f, lim))
    requires Within(st.count + HeaderCount(files), lim.maxEntries)
    ensures Read(FileParts(files) + tail, st, lim).ending ==
      Read(tail, st.(count := st.count + HeaderCount(files)), lim).ending
    decreases |files|
  {
    hide FileBlocks, Read, SeenEntry, Fits, NeedsPax;
    if files == [] {
      assert FileParts(files) + tail == tail;
    } else {
      OneHeaderCount(files[0]);
      var rest := FileParts(files[1..]) + tail;
      assert FileParts(files) + tail == FileBlocks(files[0]) + rest;
      ReadsOneFile(files[0], st, lim, rest);
      ReadsParts(files[1..], st.(count := st.count + HeaderCount([files[0]])), lim, tail);
    }
  }

  lemma ReadsZeros(k: nat, st: State, lim: Limits)
    requires k <= BLOCK
    ensures Read(Zeros(k), st, lim).ending.Marker? <==> k == BLOCK
  {
    if k == BLOCK {
      assert Zeros(k)[..BLOCK] == Zeros(k) && IsZeroBlock(Zeros(k));
    }
  }

  lemma MarkerBehind(files: seq<TarFile>, lim: Limits, k: nat)
    requires (forall f :: f in files ==> Fits(f, lim)) && Within(HeaderCount(files), lim.maxEntries) && k <= BLOCK
    ensures Archive(files) == FileParts(files) + Zeros(2 * BLOCK)
    ensures MarkerEnd(Archive(files), START, lim) <= |FileParts(files)| + k <==> k == BLOCK
  {
    hide Read, MarkerEnd, Archive, FileParts, Fits, HeaderCount;
    var parts := FileParts(files);
    ArchiveParts(files);
    assert Zeros(BLOCK) + Zeros(BLOCK) == Zeros(k) + Zeros(2 * BLOCK - k) == Zeros(2 * BLOCK);
    assert (parts + Zeros(k)) + Zeros(2 * BLOCK - k) == Archive(files);
    ReadsArchive(files, START, lim);
    ReadsParts(files, START, lim, Zeros(k));
    ReadsZeros(k, START.(count := START.count + HeaderCount(files)), lim);
    FrontReads(parts + Zeros(k), Zeros(2 * BLOCK - k), START, lim);
  }

  /** An archive's end marker is the first of its two zero blocks. */
  lemma ArchiveMarker(files: seq<TarFile>, lim: Limits)
    requires (forall f :: f in files ==> Fits(f, lim)) && Within(HeaderCount(files), lim.maxEntries)
    ensures |Archive(files)| >= 2 * BLOCK && MarkerEnd(Archive(files), START, lim) == |Archive(files)| - BLOCK
  {
    hide Read, MarkerEnd, Archive, FileParts, Fits, HeaderCount;
    MarkerBehind(files, lim, BLOCK - 1);
    MarkerBehind(files, lim, BLOCK);
  }

  /**
   * Written, cut into any chunks and streamed back under any cap, an archive gives its first files in order, each under
   * the path the reader sees for it, with as much of its content as was asked for; and it gives all of them, and ends
   * in peace, exactly when everything up to the end of its first zero block fits under the cap.
   */
  method ReadBack(files: seq<TarFile>, chunks: seq<Bytes>, lim: Limits, pulls: nat -> nat)
    returns (seen: seq<Seen>, ok: bool)
    requires Flat(chunks) == Archive(files)
    requires (forall f :: f in files ==> Fits(f, lim)) && Within(HeaderCount(files), lim.maxEntries)
    ensures ok <==> |Archive(files)| - BLOCK <= |Fitting(chunks, 0, lim.maxTotal)|
    ensures |seen| <= |files| && (ok ==> |seen| == |files|)
    ensures forall k :: 0 <= k < |seen| ==>
      && seen[k].path == SeenPath(files[k].path) && (seen[k].path == files[k].path <==> PlainPath(files[k].path))
      && seen[k].size == |files[k].content| && seen[k].typeflag == FILE && seen[k].taken <= files[k].content
      && (ok && pulls(k) >= |files[k].content| ==> seen[k].taken == files[k].content)
  {
    hide Read, MarkerEnd, Flat, Fitting, Archive, Fits, HeaderCount, SeenPath, PlainPath, Streamed;
    seen, ok := ReadTarEntries(chunks, lim, pulls);
    StreamedIsFront(chunks, lim);
    ReadsArchive(files, START, lim);
    ArchiveMarker(files, lim);
    ghost var out := Streamed(chunks, lim);
    forall k | 0 <= k < |seen|
      ensures SeenEntries(files)[k] == SeenEntry(files[k]) && Sees(seen[k], out.entries[k])
      ensures out.entries[k].(body := files[k].content) == SeenEntry(files[k])
      ensures out.entries[k].body <= files[k].content
      ensures SeenPath(files[k].path) == files[k].path <==> PlainPath(files[k].path)
    {
      SeenAt(files, k);
      PathComesBack(files[k].path);
    }
  }
}
