/** PAX records and path splitting, as packages/audit/src/tar.ts writes and reads them. Paths are their UTF-8 bytes. */
module TarPax {
  import opened Bytes
  import opened Numerals
  import opened TarHeader

  const SPACE: byte := 32
  const EQUALS: byte := 61
  const NEWLINE: byte := 10
  const PATH_KEY: Bytes := [112, 97, 116, 104]
  const SIZE_KEY: Bytes := [115, 105, 122, 101]

  // ------------------------------------------------- a record that counts its own length

  function Numeral(n: nat): (d: Bytes)
    ensures d != []
  {
    Digits(n, 10)
  }

  /** What a record of `base` bytes is long with a count of `n` before it. */
  function Counting(n: nat, base: nat): nat {
    |Numeral(n)| + base
  }

  lemma {:induction false} NumeralMono(m: nat, n: nat)
    requires m <= n
    ensures |Numeral(m)| <= |Numeral(n)|
    decreases n
  {
    if m >= 10 {
      NumeralMono(m / 10, n / 10);
    }
  }

  lemma {:induction false} NumeralShort(n: nat)
    ensures |Numeral(n)| <= n / 10 + 1
  {
    if n >= 10 {
      NumeralShort(n / 10);
    }
  }

  /** Room that the count can never outgrow. */
  function Room(base: nat): nat {
    2 * base + 2
  }

  lemma CountingStays(n: nat, base: nat)
    requires n <= Room(base) && base >= 1
    ensures Counting(n, base) <= Room(base)
  {
    NumeralMono(n, Room(base));
    NumeralShort(Room(base));
  }

  /** The count the loop comes to from `n` on. */
  function CountFrom(n: nat, base: nat): (c: nat)
    requires base >= 1 && n <= Counting(n, base) && n <= Room(base)
    ensures Counting(c, base) == c && n <= c
    decreases Room(base) - n
  {
    if Counting(n, base) == n then n else
      var next := Counting(n, base);
      CountingStays(n, base);
      NumeralMono(n, next);
      CountFrom(next, base)
  }

  /** Of all the counts that are right, the loop comes to the least at or above where it starts. */
  lemma {:induction false} CountIsLeast(n: nat, base: nat, c: nat)
    requires base >= 1 && n <= Counting(n, base) && n <= Room(base)
    requires n <= c && Counting(c, base) == c
    ensures CountFrom(n, base) <= c
    decreases Room(base) - n
  {
    if Counting(n, base) != n {
      CountingStays(n, base);
      NumeralMono(n, Counting(n, base));
      NumeralMono(n, c);
      CountIsLeast(Counting(n, base), base, c);
    }
  }

  function PaxBase(key: Bytes, value: Bytes): (b: Bytes)
    ensures b != []
  {
    [SPACE] + key + [EQUALS] + value + [NEWLINE]
  }

  function PaxCount(key: Bytes, value: Bytes): (c: nat)
    ensures c == |Numeral(c)| + |PaxBase(key, value)|
  {
    var base := |PaxBase(key, value)|;
    CountStarts(base);
    CountFrom(base + 1, base)
  }

  lemma CountStarts(base: nat)
    ensures base + 1 <= Counting(base + 1, base) && (base >= 1 ==> base + 1 <= Room(base))
  {
  }

  /** "<count> <key>=<value>\\n", the count being the whole record's length. */
  function RecordOf(key: Bytes, value: Bytes): (r: Bytes)
    ensures |r| == PaxCount(key, value) && r != []
  {
    Numeral(PaxCount(key, value)) + PaxBase(key, value)
  }

  function PaxRecord(path: Bytes): Bytes {
    RecordOf(PATH_KEY, path)
  }

  method PaxPathRecord(path: Bytes) returns (r: Bytes)
    ensures r == PaxRecord(path)
  {
    hide Numeral;
    var base := PaxBase(PATH_KEY, path);
    CountStarts(|base|);
    var length := |base| + 1;
    while |Numeral(length)| + |base| != length
      invariant length <= Counting(length, |base|) && length <= Room(|base|)
      invariant CountFrom(length, |base|) == CountFrom(|base| + 1, |base|)
      decreases Room(|base|) - length
    {
      CountingStays(length, |base|);
      NumeralMono(length, Counting(length, |base|));
      length := |Numeral(length)| + |base|;
    }
    r := Numeral(length) + base;
  }

  // ------------------------------------------------------------------ records, read

  /** The first `c` at or after `i`; the length when there is none. */
  function IndexFrom(s: Bytes, c: byte, i: nat): (j: nat)
    requires i <= |s|
    ensures i <= j <= |s| && (forall k :: i <= k < j ==> s[k] != c) && (j < |s| ==> s[j] == c)
    decreases |s| - i
  {
    if i == |s| || s[i] == c then i else IndexFrom(s, c, i + 1)
  }

  datatype Record = Record(key: Bytes, value: Bytes, end: nat)

  function RecordAt(data: Bytes, offset: nat): (r: Result<Record>)
    requires offset < |data|
    ensures r.Ok? ==> offset < r.value.end <= |data|
  {
    var cursor := IndexFrom(data, SPACE, offset);
    if cursor == |data| then Err else
      match ParseCount(data[offset..cursor])
      case None => Err
      case Some(length) =>
        if length == 0 || offset + length > |data| then Err
        else if cursor + 1 >= offset + length || data[offset + length - 1] != NEWLINE then Err
        else
          var text := Decode(data[cursor + 1..offset + length - 1]);
          var eq := IndexFrom(text, EQUALS, 0);
          if eq == |text| then Err else Ok(Record(text[..eq], text[eq + 1..], offset + length))
  }

  type Records = map<Bytes, Bytes>

  function RecordsFrom(data: Bytes, offset: nat, records: Records): Result<Records>
    requires offset <= |data|
    decreases |data| - offset
  {
    if offset == |data| then Ok(records) else
      match RecordAt(data, offset)
      case Err => Err
      case Ok(r) => RecordsFrom(data, r.end, records[r.key := r.value])
  }

  function ParsePax(data: Bytes): Result<Records> {
    RecordsFrom(data, 0, map[])
  }

  method ReadRecord(data: Bytes, offset: nat) returns (r: Result<Record>)
    requires offset < |data|
    ensures r == RecordAt(data, offset)
  {
    hide DigitsValue, Decode;
    var cursor := offset;
    while cursor < |data| && data[cursor] != SPACE
      invariant offset <= cursor <= |data|
      invariant IndexFrom(data, SPACE, cursor) == IndexFrom(data, SPACE, offset)
    {
      cursor := cursor + 1;
    }
    assert cursor == IndexFrom(data, SPACE, offset);
    if cursor >= |data| {
      return Err;
    }
    var length := ParseCount(data[offset..cursor]);
    if length.None? || length.value == 0 || offset + length.value > |data| {
      return Err;
    }
    var end := offset + length.value;
    if cursor + 1 >= end || data[end - 1] != NEWLINE {
      return Err;
    }
    var text := Decode(data[cursor + 1..end - 1]);
    var eq := IndexFrom(text, EQUALS, 0);
    r := if eq == |text| then Err else Ok(Record(text[..eq], text[eq + 1..], end));
  }

  method ParsePaxRecords(data: Bytes) returns (r: Result<Records>)
    ensures r == ParsePax(data)
  {
    hide RecordAt;
    var records: Records := map[];
    var offset := 0;
    while offset < |data|
      invariant 0 <= offset <= |data|
      invariant RecordsFrom(data, offset, records) == ParsePax(data)
      decreases |data| - offset
    {
      var record := ReadRecord(data, offset);
      if record.Err? {
        return Err;
      }
      records := records[record.value.key := record.value.value];
      offset := record.value.end;
    }
    r := Ok(records);
  }

  /** A key as a record can carry it: no "=", and nothing that reads as a byte-order mark. */
  predicate PlainKey(key: Bytes) {
    EQUALS !in key && (key == [] || key[0] != 0xef)
  }

  /** A record is read where it stands as its key and value, whatever bytes the value has. */
  lemma RecordReads(data: Bytes, offset: nat, key: Bytes, value: Bytes)
    requires PlainKey(key) && At(data, offset, RecordOf(key, value))
    ensures offset + |RecordOf(key, value)| <= |data|
    ensures RecordAt(data, offset) == Ok(Record(key, value, offset + |RecordOf(key, value)|))
  {
    hide Numeral, DigitsValue, Decode, PaxCount, At, RecordAt;
    var count, text := Numeral(PaxCount(key, value)), key + [EQUALS] + value;
    NumeralReads(PaxCount(key, value));
    AtIs(data, offset, RecordOf(key, value));
    assert RecordOf(key, value) == count + [SPACE] + text + [NEWLINE];
    assert text[0] == if key == [] then EQUALS else key[0];
    NoMark(text);
    var r := Record(key, value, offset + |RecordOf(key, value)|);
    assert IsRecord(data, offset, r, count, text);
    RecordFound(data, offset, r, count, text);
  }

  /** Records one after the other, and the map they come to: the last one of a key counts. */
  datatype KeyValue = KeyValue(key: Bytes, value: Bytes)

  function RecordsOf(kvs: seq<KeyValue>): Bytes {
    if kvs == [] then [] else RecordOf(kvs[0].key, kvs[0].value) + RecordsOf(kvs[1..])
  }

  function Told(kvs: seq<KeyValue>): Records {
    if kvs == [] then map[] else Told(Init(kvs))[Last(kvs).key := Last(kvs).value]
  }

  lemma ToldMore(done: seq<KeyValue>, kv: KeyValue)
    ensures Told(done + [kv]) == Told(done)[kv.key := kv.value]
  {
    Snoc(done, kv);
  }

  lemma {:induction false} RecordsReadFrom(data: Bytes, done: seq<KeyValue>, kvs: seq<KeyValue>, offset: nat)
    requires (forall kv :: kv in kvs ==> PlainKey(kv.key)) && At(data, offset, RecordsOf(kvs))
    requires offset + |RecordsOf(kvs)| == |data|
    ensures RecordsFrom(data, offset, Told(done)) == Ok(Told(done + kvs))
    decreases |kvs|
  {
    hide RecordAt, RecordOf, At, PlainKey, Told;
    if kvs == [] {
      assert done + kvs == done;
    } else {
      var r := RecordOf(kvs[0].key, kvs[0].value);
      AtConcat(data, offset, r, RecordsOf(kvs[1..]));
      RecordReads(data, offset, kvs[0].key, kvs[0].value);
      ToldMore(done, kvs[0]);
      assert (done + [kvs[0]]) + kvs[1..] == done + kvs;
      RecordsReadFrom(data, done + [kvs[0]], kvs[1..], offset + |r|);
    }
  }

  /** Any records are read as the map they come to. */
  lemma RecordsRead(kvs: seq<KeyValue>)
    requires forall kv :: kv in kvs ==> PlainKey(kv.key)
    ensures ParsePax(RecordsOf(kvs)) == Ok(Told(kvs))
  {
    hide RecordsFrom, RecordsOf, PlainKey;
    var data := RecordsOf(kvs);
    AtSlice(data, 0, |data|);
    assert data[0..|data|] == data && [] + kvs == kvs;
    RecordsReadFrom(data, [], kvs, 0);
  }

  /** The record of a path is read as that path, whatever bytes are in it. */
  lemma PaxRecordReads(path: Bytes)
    ensures ParsePax(PaxRecord(path)) == Ok(map[PATH_KEY := path])
  {
    hide ParsePax, RecordOf;
    var kvs := [KeyValue(PATH_KEY, path)];
    assert kvs[1..] == [] && Init(kvs) == [] && RecordsOf([]) == [];
    assert RecordsOf(kvs) == PaxRecord(path);
    RecordsRead(kvs);
  }

  /**
   * A record is read exactly where there is one: a numeral that counts it, a space, text with an "=" in it, and a
   * line's end.
   */
  lemma RecordIs(data: Bytes, offset: nat, r: Record)
    requires offset < |data|
    ensures RecordAt(data, offset) == Ok(r) <==>
      exists count, text :: IsRecord(data, offset, r, count, text)
  {
    hide RecordAt, IsRecord;
    if RecordAt(data, offset) == Ok(r) {
      RecordThere(data, offset, r);
    }
    if count, text :| IsRecord(data, offset, r, count, text) {
      RecordFound(data, offset, r, count, text);
    }
  }

  lemma RecordThere(data: Bytes, offset: nat, r: Record)
    requires offset < |data| && RecordAt(data, offset) == Ok(r)
    ensures exists count, text :: IsRecord(data, offset, r, count, text)
  {
    hide Decode, IndexFrom, DigitsValue, At;
    var cursor := IndexFrom(data, SPACE, offset);
    var count, text := data[offset..cursor], data[cursor + 1..r.end - 1];
    var eq := IndexFrom(Decode(text), EQUALS, 0);
    assert Decode(text) == Decode(text)[..eq] + [EQUALS] + Decode(text)[eq + 1..];
    assert data[offset..r.end] == count + [SPACE] + text + [NEWLINE];
    AtSlice(data, offset, r.end);
    assert IsRecord(data, offset, r, count, text);
  }

  lemma RecordFound(data: Bytes, offset: nat, r: Record, count: Bytes, text: Bytes)
    requires offset < |data| && IsRecord(data, offset, r, count, text)
    ensures RecordAt(data, offset) == Ok(r)
  {
    hide Decode, IndexFrom, DigitsValue, At;
    var rest := [SPACE] + (text + [NEWLINE]);
    assert count + [SPACE] + text + [NEWLINE] == count + rest;
    AtIs(data, offset, count + rest);
    AtConcat(data, offset, count, rest);
    AtIs(data, offset, count);
    AtByte(data, offset + |count|, rest, 0);
    AtConcat(data, offset + |count|, [SPACE], text + [NEWLINE]);
    AtConcat(data, offset + |count| + 1, text, [NEWLINE]);
    AtIs(data, offset + |count| + 1, text);
    AtByte(data, r.end - 1, [NEWLINE], 0);
    forall k | offset <= k < offset + |count| ensures data[k] != SPACE {
      AtByte(data, offset, count, k - offset);
    }
    FirstIndex(data, SPACE, offset, offset + |count|);
    FirstIndex(Decode(text), EQUALS, 0, |r.key|);
    assert Decode(text)[..|r.key|] == r.key && Decode(text)[|r.key| + 1..] == r.value;
  }

  ghost predicate IsRecord(data: Bytes, offset: nat, r: Record, count: Bytes, text: Bytes) {
    var whole := count + [SPACE] + text + [NEWLINE];
    && SPACE !in count && ParseCount(count) == Some(|whole|) && At(data, offset, whole) && r.end == offset + |whole|
    && Decode(text) == r.key + [EQUALS] + r.value && EQUALS !in r.key
  }

  lemma NoMark(text: Bytes)
    requires text != [] && text[0] != 0xef
    ensures Decode(text) == text
  {
    assert |text| >= 3 ==> text[..3][0] == text[0];
  }

  lemma NumeralReads(n: nat)
    ensures ParseCount(Numeral(n)) == Some(n) && forall i :: 0 <= i < |Numeral(n)| ==> Numeral(n)[i] != SPACE
  {
    ValueOfDigits(n, 10);
  }

  lemma FirstIndex(s: Bytes, c: byte, i: nat, j: nat)
    requires i <= j < |s| && s[j] == c && forall k :: i <= k < j ==> s[k] != c
    ensures IndexFrom(s, c, i) == j
  {
    hide IndexFrom;
    var f := IndexFrom(s, c, i);
    assert s[j] == c;
  }

  // ------------------------------------------------------------- splitting a long path

  /** A slash that leaves a name of 1 to 100 bytes after it and a prefix of at most 155 before it. */
  predicate SplitsAt(path: Bytes, i: nat) {
    0 < i < |path| - 1 && path[i] == SLASH && |path| - i - 1 <= 100 && i <= 155
  }

  /** The last such slash at or before `i`. */
  function SplitBefore(path: Bytes, i: int): (r: Option<nat>)
    requires i < |path|
    ensures r.Some? ==> 0 < r.value <= i && SplitsAt(path, r.value) && forall j :: r.value < j <= i ==>
      !SplitsAt(path, j)
    ensures r.None? ==> forall j :: 0 < j <= i ==> !SplitsAt(path, j)
    decreases if i > 0 then i else 0
  {
    if i <= 0 then None
    else if SplitsAt(path, i) then Some(i)
    else SplitBefore(path, i - 1)
  }

  function Split(path: Bytes): (r: Option<nat>)
    ensures r.Some? ==> SplitsAt(path, r.value)
  {
    SplitBefore(path, |path| - 1)
  }

  method SplitUstarPath(path: Bytes) returns (r: Option<nat>)
    ensures r == Split(path)
  {
    var i := |path| - 1;
    while i > 0
      invariant i < |path| && SplitBefore(path, i) == Split(path)
    {
      if path[i] == SLASH {
        var nameLen := |path| - i - 1;
        if nameLen > 0 && nameLen <= 100 && i <= 155 {
          return Some(i);
        }
      }
      i := i - 1;
    }
    r := None;
  }

  /** A byte of UTF-8 that goes on with a character. */
  predicate Continues(b: byte) {
    128 <= b < 192
  }

  /** Where text is cut to at most `n` bytes, not inside a character. */
  function CutAt(text: Bytes, end: nat): (e: nat)
    requires end < |text|
    ensures e <= end && (e == 0 || !Continues(text[e])) && forall k :: e < k <= end ==> Continues(text[k])
  {
    if end > 0 && Continues(text[end]) then CutAt(text, end - 1) else end
  }

  /** The longest front of at most `n` bytes that ends where a character does. */
  function Cut(text: Bytes, n: nat): (t: Bytes)
    ensures |t| <= n && t <= text && (|text| <= n ==> t == text)
    ensures |text| > n ==> (t == [] || !Continues(text[|t|])) && forall k :: |t| < k <= n ==> Continues(text[k])
  {
    if |text| <= n then text else text[..CutAt(text, n)]
  }

  /** Text of at most `n` bytes as it is; longer text cut and decoded, which drops a byte-order mark in front. */
  function Truncated(text: Bytes, n: nat): (t: Bytes)
    ensures |t| <= n && (|text| <= n ==> t == text)
    ensures |text| > n ==> Cut(text, n) == t || Cut(text, n) == [0xef, 0xbb, 0xbf] + t
  {
    if |text| <= n then text else Decode(Cut(text, n))
  }

  method TruncateBytes(text: Bytes, n: nat) returns (t: Bytes)
    ensures t == Truncated(text, n)
  {
    if |text| <= n {
      return text;
    }
    var end := n;
    while end > 0 && Continues(text[end])
      invariant 0 <= end <= n && CutAt(text, end) == CutAt(text, n)
    {
      end := end - 1;
    }
    t := Decode(text[..end]);
  }
}
