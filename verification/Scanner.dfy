/** The entry scanner of packages/audit/src/ingest.ts: what it keeps of an entry that streams by in chunks. */
module Scanner {
  import opened Bytes

  const MAX_CANDIDATE_JSON_BYTES: nat := 8388608
  const EXPORT_SNIFF_BYTES: nat := 256
  const ANY_EXPORT := "bitgraph-export/"

  /** What an entry is hashed under: its path, and the same without a root that may be stripped. */
  datatype Paths = Paths(full: Bytes, stripped: Option<Bytes>)

  datatype Mode = Json | Sniff | Export | Off

  /** What the scan gives: the hashed strings, the content if it was kept, the export format if it was too large. */
  datatype Scanned = Scanned(content: Bytes, full: Bytes, stripped: Option<Bytes>, byteLength: nat,
                             buffered: Option<Bytes>, exportTooLarge: Option<string>)

  /** The opening bytes that a format is read from. */
  function Head(content: Bytes): (h: Bytes)
    ensures |h| <= EXPORT_SNIFF_BYTES && h <= content
  {
    if |content| <= EXPORT_SNIFF_BYTES then content else content[..EXPORT_SNIFF_BYTES]
  }

  datatype Verdict = Keep | Drop | TooLarge(format: string)

  predicate Over(declared: Option<nat>, cap: nat) {
    declared.Some? && declared.value > cap
  }

  /**
   * What becomes of an entry, said of its whole content: an entry not declared past the ordinary cap is kept up
   * to that cap, and past it only as an export; one declared past it only as an export from the start.
   */
  function Judge(opening: Bytes -> Option<string>, content: Bytes, declared: Option<nat>, cap: nat): Verdict {
    var sniffed := Over(declared, MAX_CANDIDATE_JSON_BYTES);
    var format := opening(Head(content));
    if !sniffed && |content| <= MAX_CANDIDATE_JSON_BYTES then Keep
    else if format.None? then Drop
    else if sniffed && |content| < EXPORT_SNIFF_BYTES then (if |content| > cap then Drop else Keep)
    else if |content| > cap || (sniffed && Over(declared, cap)) then TooLarge(format.value)
    else Keep
  }

  /**
   * An export over its cap that is not kept as an ordinary document is marked as too large, exactly unless it was
   * declared past the ordinary cap and ends inside the opening window.
   */
  lemma OverCapIsMarked(opening: Bytes -> Option<string>, content: Bytes, declared: Option<nat>, cap: nat)
    requires opening(Head(content)).Some? && |content| > cap
    ensures Judge(opening, content, declared, cap) == Keep <==>
      !Over(declared, MAX_CANDIDATE_JSON_BYTES) && |content| <= MAX_CANDIDATE_JSON_BYTES
    ensures Judge(opening, content, declared, cap) != Keep ==>
      (Judge(opening, content, declared, cap) == TooLarge(opening(Head(content)).value) <==>
       !(Over(declared, MAX_CANDIDATE_JSON_BYTES) && |content| < EXPORT_SNIFF_BYTES))
  {
  }

  /**
   * In every call the source makes, the declared size is the content's own or there is none, and then it makes no
   * difference: an export is kept up to its cap, and over it kept if it passes as an ordinary document and marked as
   * too large if it does not.
   */
  lemma TrueSizeJudges(opening: Bytes -> Option<string>, content: Bytes, declared: Option<nat>, cap: nat)
    requires declared.None? || declared == Some(|content|)
    ensures Judge(opening, content, declared, cap) ==
      match opening(Head(content))
      case None => if |content| <= MAX_CANDIDATE_JSON_BYTES then Keep else Drop
      case Some(format) =>
        if |content| <= MAX_CANDIDATE_JSON_BYTES || |content| <= cap then Keep else TooLarge(format)
  {
  }

  /** The mode the scan is in once `seen` has gone by. */
  function ModeAfter(opening: Bytes -> Option<string>, seen: Bytes, declared: Option<nat>, cap: nat): Mode {
    var sniffed := Over(declared, MAX_CANDIDATE_JSON_BYTES);
    if sniffed && |seen| < EXPORT_SNIFF_BYTES then Sniff
    else if !sniffed && |seen| <= MAX_CANDIDATE_JSON_BYTES then Json
    else if Judge(opening, seen, declared, cap) == Keep then Export
    else Off
  }

  function MarkAfter(opening: Bytes -> Option<string>, seen: Bytes, declared: Option<nat>, cap: nat): Option<string> {
    match Judge(opening, seen, declared, cap)
    case TooLarge(format) => Some(format)
    case _ => None
  }

  lemma HeadGrows(seen: Bytes, chunk: Bytes)
    ensures |seen| >= EXPORT_SNIFF_BYTES ==> Head(seen + chunk) == Head(seen)
    ensures |seen| < EXPORT_SNIFF_BYTES ==>
      var room := EXPORT_SNIFF_BYTES - |seen|;
      Head(seen + chunk) == seen + (if room < |chunk| then chunk[..room] else chunk)
  {
    if |seen| < EXPORT_SNIFF_BYTES {
      var room := EXPORT_SNIFF_BYTES - |seen|;
      if room < |chunk| {
        assert (seen + chunk)[..EXPORT_SNIFF_BYTES] == seen + chunk[..room];
      }
    }
  }

  /**
   * The scan of an entry in chunks. However it is cut, the same strings are hashed, and it is kept, dropped or
   * marked by `Judge` of the whole content; what is kept is the whole content.
   */
  method HashEntryStream(paths: Paths, declared: Option<nat>, chunks: seq<Bytes>, cap: nat,
      opening: Bytes -> Option<string>)
    returns (r: Scanned)
    ensures var content := Flat(chunks);
      && r.content == content && r.byteLength == |content| && r.full == paths.full + [0] + content
      && r.stripped == (if paths.stripped.None? then None else Some(paths.stripped.value + [0] + content))
      && r.buffered == (if Judge(opening, content, declared, cap) == Keep then Some(content) else None)
      && r.exportTooLarge == MarkAfter(opening, content, declared, cap)
  {
    hide Flat;
    var mode := if declared.None? || declared.value <= MAX_CANDIDATE_JSON_BYTES then Json else Sniff;
    var exportTooLarge: Option<string> := None;
    var head: Bytes := [];
    var buffered: Bytes := [];
    var hashed: Bytes := [];
    var total := 0;
    ghost var seen: Bytes := [];
    assert Flat([]) == [] && chunks[..0] == [] by { FlatNothing(); }
    for k := 0 to |chunks|
      invariant seen == Flat(chunks[..k]) && hashed == seen && total == |seen| && head == Head(seen)
      invariant mode == ModeAfter(opening, seen, declared, cap)
      invariant mode != Sniff ==> exportTooLarge == MarkAfter(opening, seen, declared, cap)
      invariant mode == Sniff ==> exportTooLarge == None
      invariant mode != Off ==> buffered == seen
    {
      var chunk := chunks[k];
      FlatSnoc(chunks[..k], chunk);
      assert chunks[..k + 1] == chunks[..k] + [chunk];
      HeadGrows(seen, chunk);
      ghost var before := seen;
      seen := seen + chunk;
      hashed := hashed + chunk;
      total := total + |chunk|;
      if |head| < EXPORT_SNIFF_BYTES {
        var room := EXPORT_SNIFF_BYTES - |head|;
        head := head + (if room < |chunk| then chunk[..room] else chunk);
      }
      if mode == Off {
        continue;
      }
      if mode == Sniff && |head| == EXPORT_SNIFF_BYTES {
        if opening(head).None? {
          mode := Off;
        } else if Over(declared, cap) {
          exportTooLarge := Some(if opening(head).Some? then opening(head).value else ANY_EXPORT);
          mode := Off;
        } else {
          mode := Export;
        }
        if mode == Off {
          buffered := [];
          continue;
        }
      }
      buffered := buffered + chunk;
      if mode == Json && total > MAX_CANDIDATE_JSON_BYTES {
        if opening(head).None? {
          buffered := [];
          mode := Off;
        } else {
          mode := Export;
        }
      }
      if mode == Export && total > cap {
        exportTooLarge := Some(if opening(head).Some? then opening(head).value else ANY_EXPORT);
        buffered := [];
        mode := Off;
      }
    }
    assert chunks[..|chunks|] == chunks;
    if mode == Sniff {
      if opening(head).None? || total > cap {
        buffered := [];
        mode := Off;
      } else {
        mode := Export;
      }
    }
    var keep := mode == Json || mode == Export;
    r := Scanned(hashed, paths.full + [0] + hashed,
                 if paths.stripped.None? then None else Some(paths.stripped.value + [0] + hashed),
                 total, if keep then Some(buffered) else None, exportTooLarge);
  }

  lemma FlatNothing()
    ensures Flat([]) == []
  {
  }
}
