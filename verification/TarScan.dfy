/** The tar scan of spec/tools/check.py, which finds the entries of a placement again; and when it ends. */
module TarScan {
  import opened Bytes
  import opened Numerals
  import opened Placement
  import opened TarArchive
  import opened TarHeader
  import opened TarNumbers

  // ---------------------------------------------------------------- the entries of a tar

  datatype Named = Named(name: Bytes, content: Bytes)

  /**
   * int(text, 8): white space, a sign, octal digits and nothing else. Of the forms the source also reads,
   * prefixes and underscores are not part of this model.
   */
  function PyOctal(text: Bytes): Option<int> {
    var t := Trim(text);
    var signed := t != [] && (t[0] == 43 || t[0] == 45);
    var d := if signed then t[1..] else t;
    if d == [] || !(forall i :: 0 <= i < |d| ==> 48 <= d[i] < 56) then None
    else Some(if signed && t[0] == 45 then -(DigitsValue(d, 8) as int) else DigitsValue(d, 8))
  }

  /** A size that a forward scan goes on with. */
  function SizeIn(h: Bytes): Option<nat>
    requires |h| == BLOCK
  {
    match PyOctal(h[124..135])
    case None => None
    case Some(n) => if n < 0 then None else Some(n)
  }

  function Clamped(rest: Bytes, from: nat, len: nat): Bytes {
    if |rest| <= from then [] else if |rest| <= from + len then rest[from..] else rest[from..from + len]
  }

  /** The entries of a tar from the start of `rest` to a zero block or the end, if no size is negative. */
  function EntriesIn(rest: Bytes): Result<seq<Named>>
    decreases |rest|
  {
    if |rest| < BLOCK || rest[..BLOCK] == Zeros(BLOCK) then Ok([])
    else
      match SizeIn(rest[..BLOCK])
      case None => Err
      case Some(size) =>
        var one := Named(UpToNul(rest[..100]), Clamped(rest, BLOCK, size));
        if |rest| <= Span(size) then Ok([one]) else FollowedBy([one], EntriesIn(rest[Span(size)..]))
  }

  function From(b: Bytes, off: nat): Bytes {
    if off <= |b| then b[off..] else []
  }

  // --------------------------------------------------------------------- the scan, as it runs

  function Index(i: int, len: nat): nat {
    if i < 0 then (if i + len < 0 then 0 else i + len) else if i < len then i else len
  }

  /** b[from:to] of Python: a negative index counts from the end, and one outside is drawn to it. */
  function Slice(b: Bytes, from: int, to: int): Bytes {
    if Index(from, |b|) <= Index(to, |b|) then b[Index(from, |b|)..Index(to, |b|)] else []
  }

  /** One turn of the scan: it ends, it raises, or it has an entry and goes on somewhere. */
  datatype Turn = Ends | Fails | Goes(one: Named, next: int)

  function TurnAt(b: Bytes, off: int): Turn {
    var h := Slice(b, off, off + BLOCK);
    if off + BLOCK > |b| || h == Zeros(BLOCK) then Ends
    else
      match PyOctal(Slice(h, 124, 135))
      case None => Fails
      case Some(size) =>
        Goes(Named(UpToNul(Slice(h, 0, 100)), Slice(b, off + BLOCK, off + BLOCK + size)),
             off + BLOCK + size + (BLOCK - size % BLOCK) % BLOCK)
  }

  /** What the scan comes to: entries, an exception, or nothing ever. */
  datatype Scan = Listed(entries: seq<Named>) | Raised | Endless

  function Before(out: seq<Named>, rest: Scan): Scan {
    if rest.Listed? then Listed(out + rest.entries) else rest
  }

  ghost function Run(from: int, n: nat): (s: set<int>)
    ensures forall i :: i in s <==> from <= i < from + n
  {
    if n == 0 then {} else Run(from, n - 1) + {from + n - 1}
  }

  /** Where a turn can go on from. */
  ghost function Live(b: Bytes): (s: set<int>)
    ensures forall i :: i in s <==> -|b| - BLOCK <= i <= |b|
  {
    Run(-|b| - BLOCK, 2 * |b| + BLOCK + 1)
  }

  lemma GoesLive(b: Bytes, off: int)
    ensures TurnAt(b, off).Goes? ==> off in Live(b)
  {
    hide UpToNul, Zeros;
    if off < -|b| - BLOCK {
      assert Slice(b, off, off + BLOCK) == [];
      assert Trim([]) == [];
    }
  }

  /** The scan from `off` on, when it has been at `seen`: once it is anywhere again it goes round for ever. */
  function ScanFrom(b: Bytes, off: int, seen: set<int>): Scan
    decreases Live(b) - seen
  {
    if off in seen then Endless
    else
      match TurnAt(b, off)
      case Ends => Listed([])
      case Fails => Raised
      case Goes(one, next) =>
        GoesLive(b, off);
        assert off in Live(b) - seen && off !in Live(b) - (seen + {off});
        Before([one], ScanFrom(b, next, seen + {off}))
  }

  /** The offset loop. Where the source's would never end it stops, at an offset it has been at. */
  method TarEntries(b: Bytes) returns (r: Scan)
    ensures r == ScanFrom(b, 0, {})
  {
    hide TurnAt, ScanFrom;
    var out: seq<Named> := [];
    var off, seen := 0, {};
    BeforeNothing(ScanFrom(b, 0, {}));
    while off !in seen
      invariant Before(out, ScanFrom(b, off, seen)) == ScanFrom(b, 0, {})
      decreases Live(b) - seen, off !in seen
    {
      ScanStep(b, off, seen);
      var turn := TurnAt(b, off);
      if turn.Ends? {
        assert out + [] == out;
        return Listed(out);
      }
      if turn.Fails? {
        return Raised;
      }
      BeforeTwice(out, turn.one, ScanFrom(b, turn.next, seen + {off}));
      GoesLive(b, off);
      assert off in Live(b) - seen && off !in Live(b) - (seen + {off});
      out := out + [turn.one];
      off, seen := turn.next, seen + {off};
    }
    ScanStep(b, off, seen);
    r := Endless;
  }

  lemma ScanStep(b: Bytes, off: int, seen: set<int>)
    ensures ScanFrom(b, off, seen) ==
      if off in seen then Endless
      else
        match TurnAt(b, off)
        case Ends => Listed([])
        case Fails => Raised
        case Goes(one, next) => Before([one], ScanFrom(b, next, seen + {off}))
  {
    hide TurnAt;
  }

  lemma BeforeNothing(rest: Scan)
    ensures Before([], rest) == rest
  {
    if rest.Listed? {
      assert [] + rest.entries == rest.entries;
    }
  }

  lemma BeforeTwice(out: seq<Named>, one: Named, rest: Scan)
    ensures Before(out, Before([one], rest)) == Before(out + [one], rest)
  {
    if rest.Listed? {
      assert out + ([one] + rest.entries) == (out + [one]) + rest.entries;
    }
  }

  // -------------------------------------------------------------------- when the loop ends

  /** Where the loop is after `n` turns, if it gets there. */
  function Visit(b: Bytes, n: nat): Option<int> {
    if n == 0 then Some(0)
    else if Visit(b, n - 1).Some? && TurnAt(b, Visit(b, n - 1).value).Goes? then
      Some(TurnAt(b, Visit(b, n - 1).value).next)
    else None
  }

  /** The loop comes to some offset twice. */
  ghost predicate Revisits(b: Bytes) {
    exists i, j :: i < j && Visit(b, i).Some? && Visit(b, i) == Visit(b, j)
  }

  ghost predicate NeverEnds(b: Bytes) {
    forall n :: Visit(b, n).Some?
  }

  /** The offsets of the first `m` turns. */
  ghost function Visited(b: Bytes, m: nat): set<int> {
    if m == 0 then {} else Visited(b, m - 1) + (if Visit(b, m - 1).Some? then {Visit(b, m - 1).value} else {})
  }

  lemma {:induction false} VisitedAt(b: Bytes, m: nat, x: int) returns (k: nat)
    requires x in Visited(b, m)
    ensures k < m && Visit(b, k) == Some(x)
  {
    hide Visit;
    if Visit(b, m - 1) == Some(x) {
      k := m - 1;
    } else {
      k := VisitedAt(b, m - 1, x);
    }
  }

  /** From the offset after `m` turns on, with those before it seen. */
  lemma {:induction false} ScanVisits(b: Bytes, m: nat)
    requires Visit(b, m).Some?
    ensures ScanFrom(b, Visit(b, m).value, Visited(b, m)) == Endless ==> Revisits(b)
    ensures ScanFrom(b, Visit(b, m).value, Visited(b, m)) != Endless ==> exists n :: Visit(b, n).None?
    decreases Live(b) - Visited(b, m)
  {
    hide TurnAt, ScanFrom, Visit;
    var off, seen := Visit(b, m).value, Visited(b, m);
    ScanStep(b, off, seen);
    VisitStep(b, m);
    if off in seen {
      var k := VisitedAt(b, m, off);
      assert Revisits(b);
    } else if TurnAt(b, off).Goes? {
      GoesLive(b, off);
      assert off in Live(b) - seen && off !in Live(b) - (seen + {off});
      assert Visited(b, m + 1) == seen + {off};
      ScanVisits(b, m + 1);
    } else {
      assert Visit(b, m + 1).None?;
    }
  }

  lemma VisitStep(b: Bytes, n: nat)
    ensures Visit(b, n + 1) ==
      if Visit(b, n).Some? && TurnAt(b, Visit(b, n).value).Goes? then Some(TurnAt(b, Visit(b, n).value).next) else None
  {
    hide TurnAt;
  }

  /** From equal offsets on the loop goes the same way. */
  lemma {:induction false} SameWay(b: Bytes, i: nat, j: nat, k: nat)
    requires Visit(b, i) == Visit(b, j)
    ensures Visit(b, i + k) == Visit(b, j + k)
  {
    hide TurnAt, Visit;
    if k > 0 {
      SameWay(b, i, j, k - 1);
      VisitStep(b, i + (k - 1));
      VisitStep(b, j + (k - 1));
    }
  }

  lemma {:induction false} VisitedBefore(b: Bytes, n: nat, k: nat)
    requires k <= n && Visit(b, n).Some?
    ensures Visit(b, k).Some?
    decreases n - k
  {
    hide TurnAt, Visit;
    if k < n {
      VisitStep(b, n - 1);
      VisitedBefore(b, n - 1, k);
    }
  }

  lemma {:induction false} GoesRound(b: Bytes, i: nat, j: nat, n: nat)
    requires i < j && Visit(b, i).Some? && Visit(b, i) == Visit(b, j)
    ensures Visit(b, n).Some?
    decreases n
  {
    hide TurnAt, Visit;
    if n <= j {
      VisitedBefore(b, j, n);
    } else {
      SameWay(b, i, j, n - j);
      GoesRound(b, i, j, i + (n - j));
    }
  }

  /** The scan never ends exactly when it comes to some offset twice, and then it is said to. */
  lemma EndlessIff(b: Bytes)
    ensures NeverEnds(b) <==> Revisits(b)
    ensures ScanFrom(b, 0, {}) == Endless <==> NeverEnds(b)
  {
    hide TurnAt, Visit, ScanFrom;
    assert Visit(b, 0) == Some(0) by { VisitZero(b); }
    assert Visited(b, 0) == {};
    ScanVisits(b, 0);
    if Revisits(b) {
      var i: nat, j: nat :| i < j && Visit(b, i).Some? && Visit(b, i) == Visit(b, j);
      forall n: nat ensures Visit(b, n).Some? {
        GoesRound(b, i, j, n);
      }
    }
  }

  lemma VisitZero(b: Bytes)
    ensures Visit(b, 0) == Some(0)
  {
  }

  /** A block with the size minus 512, in octal. */
  const MINUS_512: Bytes := [45, 48, 48, 48, 48, 48, 48, 49, 48, 48, 48]

  function LoopingBlock(): Bytes {
    Zeros(124) + MINUS_512 + Zeros(377)
  }

  lemma Minus512()
    ensures PyOctal(MINUS_512) == Some(-512)
  {
    hide DigitsValue;
    var d: Bytes := MINUS_512[1..];
    assert Trim(MINUS_512) == MINUS_512;
    assert d == seq(6, _ => 48) + [49, 48, 48, 48];
    LeadingZeros(6, [49, 48, 48, 48]);
    assert DigitsValue([49, 48, 48, 48], 8) == 512 by { Value512(); }
  }

  lemma Value512()
    ensures DigitsValue([49, 48, 48, 48], 8) == 512
  {
    var a, ab, abc: Bytes := [49], [49, 48], [49, 48, 48];
    assert Init(a) == [] && Init(ab) == a && Init(abc) == ab && Init([49, 48, 48, 48]) == abc;
    assert DigitsValue(a, 8) == 1;
    assert DigitsValue(ab, 8) == 8;
    assert DigitsValue(abc, 8) == 64;
  }

  /** One block is enough for the scan to stay where it is for ever. */
  lemma LoopsForever()
    ensures TurnAt(LoopingBlock(), 0).Goes? && TurnAt(LoopingBlock(), 0).next == 0
    ensures NeverEnds(LoopingBlock())
  {
    hide UpToNul, PyOctal, Visit;
    var b := LoopingBlock();
    Minus512();
    assert Slice(b, 0, BLOCK) == b && b[124] == 45 != Zeros(BLOCK)[124];
    assert Slice(b, 124, 135) == MINUS_512;
    VisitZero(b);
    VisitStep(b, 0);
    EndlessIff(b);
  }

  // --------------------------------------------------------------- scanning forward

  /** A tar whose sizes are numerals at or above zero is scanned forward, entry by entry. */
  lemma {:induction false} ScanForward(b: Bytes, off: nat, seen: set<int>)
    requires EntriesIn(From(b, off)).Ok? && forall x :: x in seen ==> x < off
    ensures ScanFrom(b, off, seen) == Listed(EntriesIn(From(b, off)).value)
    decreases if off < |b| then |b| - off else 0
  {
    hide ScanFrom, TurnAt, SizeIn, UpToNul, EntriesIn, Zeros, PadOf;
    ScanStep(b, off, seen);
    TurnForward(b, off);
    EntriesEnd(From(b, off));
    if off + BLOCK <= |b| && From(b, off)[..BLOCK] != Zeros(BLOCK) {
      var size := SizeIn(From(b, off)[..BLOCK]).value;
      EntriesStep(b, off);
      ScanForward(b, off + Span(size), seen + {off});
    }
  }

  lemma TurnForward(b: Bytes, off: nat)
    ensures var rest := From(b, off);
      if off + BLOCK > |b| || rest[..BLOCK] == Zeros(BLOCK) then TurnAt(b, off) == Ends
      else
        SizeIn(rest[..BLOCK]).Some? ==>
          var size := SizeIn(rest[..BLOCK]).value;
          TurnAt(b, off) == Goes(Named(UpToNul(rest[..100]), Clamped(b, off + BLOCK, size)), off + Span(size))
  {
    hide PyOctal, UpToNul, Zeros;
    if off + BLOCK <= |b| {
      Heads(b, off);
      var h := b[off..off + BLOCK];
      assert Slice(b, off, off + BLOCK) == h && Slice(h, 124, 135) == h[124..135] && Slice(h, 0, 100) == h[..100];
    }
  }

  lemma Heads(b: Bytes, off: nat)
    requires off + BLOCK <= |b|
    ensures var rest := From(b, off);
      |rest| >= BLOCK && rest[..BLOCK] == b[off..off + BLOCK] && rest[..100] == b[off..off + BLOCK][..100]
  {
  }

  lemma EntriesEnd(rest: Bytes)
    ensures |rest| < BLOCK || rest[..BLOCK] == Zeros(BLOCK) ==> EntriesIn(rest) == Ok([])
    ensures |rest| >= BLOCK && rest[..BLOCK] != Zeros(BLOCK) && SizeIn(rest[..BLOCK]).None? ==> EntriesIn(rest) == Err
  {
    hide SizeIn, UpToNul, Zeros;
  }

  lemma EntriesStep(b: Bytes, off: nat)
    requires off + BLOCK <= |b| && From(b, off)[..BLOCK] != Zeros(BLOCK) && SizeIn(From(b, off)[..BLOCK]).Some?
    ensures var rest := From(b, off);
      var size := SizeIn(rest[..BLOCK]).value;
      EntriesIn(rest) ==
        FollowedBy([Named(UpToNul(rest[..100]), Clamped(b, off + BLOCK, size))], EntriesIn(From(b, off + Span(size))))
  {
    hide SizeIn, UpToNul, Zeros, PadOf;
    var rest := From(b, off);
    var size := SizeIn(rest[..BLOCK]).value;
    assert Clamped(rest, BLOCK, size) == Clamped(b, off + BLOCK, size);
    if |rest| > Span(size) {
      assert rest[Span(size)..] == From(b, off + Span(size));
    } else {
      assert From(b, off + Span(size)) == [];
      EntriesEnd([]);
      var one := Named(UpToNul(rest[..100]), Clamped(rest, BLOCK, size));
      assert [one] + [] == [one];
    }
  }

  // -------------------------------------------------------------------- and back again

  lemma SizeReads(name: Bytes, size: nat)
    requires size < Pow(8, 11)
    ensures SizeIn(Header(name, [], size, FILE)) == Some(size)
  {
    hide Header, Pow, Digits, DigitsValue, PadLeft, Trim, OctalField;
    var h := Header(name, [], size, FILE);
    HeaderFields(name, [], size, FILE);
    var t := PadLeft(Digits(size, 8), 11);
    Octal11();
    PaddedDigits(size, 11);
    SliceOfSlice(h, 124, 136, 0, 11);
    SizeDigits(size);
    TrimOfDigits(t);
  }

  lemma SizeDigits(size: nat)
    requires |PadLeft(Digits(size, 8), 11)| == 11
    ensures OctalField(size, 12)[0..11] == PadLeft(Digits(size, 8), 11)
  {
    hide Digits, PadLeft;
  }

  lemma NameReads(name: Bytes, size: nat)
    requires |name| <= 100 && 0 !in name
    ensures UpToNul(Header(name, [], size, FILE)[..100]) == name
  {
    hide Header;
    HeaderFields(name, [], size, FILE);
    FieldUpToNul(name, 100);
    WholeName(name);
  }

  lemma {:induction false} WholeName(name: Bytes)
    requires 0 !in name
    ensures UpToNul(name) == name
  {
    if name != [] {
      assert name[0] in name;
      WholeName(name[1..]);
      assert name == [name[0]] + name[1..];
    }
  }

  lemma EntryReads(name: Bytes, content: Bytes, tail: Bytes)
    requires |name| <= 100 && 0 !in name && |content| < Pow(8, 11) && tail != []
    ensures EntriesIn(Header(name, [], |content|, FILE) + PadBlock(content) + tail) ==
      FollowedBy([Named(name, content)], EntriesIn(tail))
  {
    hide Header, SizeIn, UpToNul, EntriesIn, Pow, PadOf, Zeros, IsZeroBlock, PadBlock, Span;
    var h, body := Header(name, [], |content|, FILE), PadBlock(content);
    var rest := h + (body + tail);
    assert h + body + tail == rest;
    Blocked(h, content, tail);
    HeaderFields(name, [], |content|, FILE);
    SizeReads(name, |content|);
    NameReads(name, |content|);
    assert rest[..BLOCK] == h && rest[..100] == h[..100];
    assert IsZeroBlock(Zeros(BLOCK)) by { ZerosAreZero(); }
    assert From(rest, 0) == rest;
    EntriesStep(rest, 0);
    ClampedIs(rest, |content|);
    assert From(rest, Span(|content|)) == tail;
  }

  lemma ClampedIs(rest: Bytes, n: nat)
    requires |rest| >= BLOCK + n
    ensures Clamped(rest, BLOCK, n) == rest[BLOCK..BLOCK + n]
  {
  }

  lemma ZerosAreZero()
    ensures IsZeroBlock(Zeros(BLOCK))
  {
  }

  lemma EndReads()
    ensures EntriesIn(Zeros(1024)) == Ok([])
  {
    assert Zeros(1024)[..BLOCK] == Zeros(BLOCK);
  }

  /** The two entries of a placement are found again, in order, with their contents. */
  lemma Tar2Reads(name: Bytes, a: Bytes, name': Bytes, b: Bytes)
    requires |name| <= 100 && 0 !in name && |a| < Pow(8, 11)
    requires |name'| <= 100 && 0 !in name' && |b| < Pow(8, 11)
    ensures ScanFrom(Tar2(name, a, name', b), 0, {}) == Listed([Named(name, a), Named(name', b)])
  {
    hide Header, EntriesIn, Pow, PadBlock, Zeros, UstarOf, ScanFrom;
    EndReads();
    UstarIsHeader(name, |a|);
    UstarIsHeader(name', |b|);
    EntryReads(name', b, Zeros(1024));
    EntryReads(name, a, Header(name', [], |b|, FILE) + PadBlock(b) + Zeros(1024));
    assert [Named(name, a)] + ([Named(name', b)] + []) == [Named(name, a), Named(name', b)];
    var whole := Tar2(name, a, name', b);
    assert From(whole, 0) == whole;
    ScanForward(whole, 0, {});
  }
}
