/** The Ogg page walker that measures Opus audio (common/audio.go, lines 196-254).

A page is laid out as section 6 of RFC 3533 says: a 27-byte header that starts with "OggS", holds the
granule position in bytes 6 to 13 (little endian) and the number of segments in byte 26, then the
segment table, then as many bytes as the table adds up to. Granule positions count samples at 48 kHz
(section 4 of RFC 7845). */
module OggOpus {
  import opened Bytes

  const HEADER := 27

  predicate StartsWithOggS(b: seq<Byte>) {
    |b| >= 4 && b[0] == 79 && b[1] == 103 && b[2] == 103 && b[3] == 83
  }

  function Sum(b: seq<Byte>): nat {
    if b == [] then 0 else b[0] as nat + Sum(b[1..])
  }

  /** Little-endian value. */
  function Unsigned(b: seq<Byte>): nat {
    if b == [] then 0 else b[0] as nat + 256 * Unsigned(b[1..])
  }

  const TWO63: int := 0x8000_0000_0000_0000
  const TWO64: int := 0x1_0000_0000_0000_0000

  /** `int64(uint64)`. */
  function Signed(u: int): int { if u >= TWO63 then u - TWO64 else u }

  function Granule(header: seq<Byte>): int
    requires |header| >= HEADER
  {
    Signed(Unsigned(header[6..14]))
  }

  function Max(a: int, b: int): int { if a > b then a else b }

  /** What the walker makes of `rest`, the bytes from the read position on, with `best` the largest granule so far. */
  function Walk(rest: seq<Byte>, best: int): int
    decreases |rest|
  {
    if |rest| < HEADER then best
    else if !StartsWithOggS(rest) then Walk(rest[1..], best)
    else
      var best' := Max(best, Granule(rest));
      var segments := rest[26] as nat;
      if |rest| < HEADER + segments then best'
      else
        var next := HEADER + segments + Sum(rest[HEADER..HEADER + segments]);
        if next >= |rest| then best' else Walk(rest[next..], best')
  }

  /** The offsets at which the walker recognises a page header. */
  function Visits(rest: seq<Byte>, at: nat): seq<nat>
    decreases |rest|
  {
    if |rest| < HEADER then []
    else if !StartsWithOggS(rest) then Visits(rest[1..], at + 1)
    else
      var segments := rest[26] as nat;
      if |rest| < HEADER + segments then [at]
      else
        var next := HEADER + segments + Sum(rest[HEADER..HEADER + segments]);
        if next >= |rest| then [at] else [at] + Visits(rest[next..], at + next)
  }

  /** The same from an offset, which a skip may have moved past the end. */
  function WalkAt(file: seq<Byte>, pos: nat, best: int): int {
    if pos >= |file| then best else Walk(file[pos..], best)
  }

  function VisitsAt(file: seq<Byte>, pos: nat): seq<nat> {
    if pos >= |file| then [] else Visits(file[pos..], pos)
  }

  lemma NoHeaderHere(file: seq<Byte>, pos: nat, best: int)
    requires pos + HEADER <= |file| && !StartsWithOggS(file[pos..])
    ensures WalkAt(file, pos, best) == WalkAt(file, pos + 1, best)
    ensures VisitsAt(file, pos) == VisitsAt(file, pos + 1)
  {
    assert file[pos..][1..] == file[pos + 1..];
  }

  lemma CutHeaderHere(file: seq<Byte>, pos: nat, best: int)
    requires pos + HEADER <= |file| && StartsWithOggS(file[pos..]) && pos + HEADER + file[pos + 26] as nat > |file|
    ensures WalkAt(file, pos, best) == Max(best, Granule(file[pos..]))
    ensures VisitsAt(file, pos) == [pos]
  {
  }

  /** `rest` starts with a whole header followed by the whole segment table. */
  predicate HasTable(rest: seq<Byte>, table: seq<Byte>) {
    && |rest| >= HEADER + |table| && StartsWithOggS(rest)
    && rest[26] as nat == |table| && table == rest[HEADER..HEADER + |table|]
  }

  function PageLength(table: seq<Byte>): nat { HEADER + |table| + Sum(table) }

  lemma WalkPastTable(rest: seq<Byte>, best: int, table: seq<Byte>)
    requires HasTable(rest, table)
    ensures Walk(rest, best) == WalkAt(rest, PageLength(table), Max(best, Granule(rest)))
  {
  }

  lemma VisitsPastTable(rest: seq<Byte>, at: nat, table: seq<Byte>)
    requires HasTable(rest, table)
    ensures Visits(rest, at)
            == [at] + (if PageLength(table) >= |rest| then [] else Visits(rest[PageLength(table)..], at + PageLength(table)))
  {
  }

  lemma SliceOfSuffix(file: seq<Byte>, pos: nat, a: nat, b: nat)
    requires pos + b <= |file| && a <= b
    ensures file[pos..][a..b] == file[pos + a..pos + b]
  {
    assert forall i :: 0 <= i < b - a ==> file[pos..][a..b][i] == file[pos + a..pos + b][i];
  }

  lemma SuffixOfSuffix(file: seq<Byte>, pos: nat, a: nat)
    requires pos + a <= |file|
    ensures file[pos..][a..] == file[pos + a..]
  {
  }

  lemma TableHere(file: seq<Byte>, pos: nat, table: seq<Byte>)
    requires pos + HEADER <= |file| && StartsWithOggS(file[pos..]) && pos + HEADER + file[pos + 26] as nat <= |file|
    requires table == file[pos + HEADER..pos + HEADER + file[pos + 26] as nat]
    ensures HasTable(file[pos..], table)
  {
    SliceOfSuffix(file, pos, HEADER, HEADER + |table|);
  }

  lemma WalkPastHere(file: seq<Byte>, pos: nat, best: int, table: seq<Byte>)
    requires pos < |file| && HasTable(file[pos..], table)
    ensures WalkAt(file, pos, best) == WalkAt(file, pos + PageLength(table), Max(best, Granule(file[pos..])))
  {
    WalkPastTable(file[pos..], best, table);
    if pos + PageLength(table) < |file| { SuffixOfSuffix(file, pos, PageLength(table)); }
  }

  lemma VisitsPastHere(file: seq<Byte>, pos: nat, table: seq<Byte>)
    requires pos < |file| && HasTable(file[pos..], table)
    ensures VisitsAt(file, pos) == [pos] + VisitsAt(file, pos + PageLength(table))
  {
    VisitsPastTable(file[pos..], pos, table);
    if pos + PageLength(table) < |file| { SuffixOfSuffix(file, pos, PageLength(table)); }
  }

  lemma HeaderBytes(file: seq<Byte>, pos: nat, buf: seq<Byte>)
    requires pos + HEADER <= |file| && buf == file[pos..pos + HEADER]
    ensures StartsWithOggS(buf) <==> StartsWithOggS(file[pos..])
    ensures Granule(buf) == Granule(file[pos..]) && buf[26] == file[pos + 26]
  {
    assert forall i :: 0 <= i < HEADER ==> buf[i] == file[pos..][i];
    assert buf[6..14] == file[pos..][6..14];
  }

  lemma CutPageHere(file: seq<Byte>, pos: nat, best: int, buf: seq<Byte>)
    requires pos + HEADER <= |file| && buf == file[pos..pos + HEADER] && StartsWithOggS(buf)
    requires pos + HEADER + buf[26] as nat > |file|
    ensures WalkAt(file, pos, best) == Max(best, Granule(buf)) && VisitsAt(file, pos) == [pos]
  {
    HeaderBytes(file, pos, buf);
    CutHeaderHere(file, pos, best);
  }

  lemma PageHere(file: seq<Byte>, pos: nat, best: int, buf: seq<Byte>, table: seq<Byte>)
    requires pos + HEADER <= |file| && buf == file[pos..pos + HEADER] && StartsWithOggS(buf)
    requires pos + HEADER + buf[26] as nat <= |file| && table == file[pos + HEADER..pos + HEADER + buf[26] as nat]
    ensures WalkAt(file, pos, best) == WalkAt(file, pos + PageLength(table), Max(best, Granule(buf)))
    ensures VisitsAt(file, pos) == [pos] + VisitsAt(file, pos + PageLength(table))
  {
    HeaderBytes(file, pos, buf);
    TableHere(file, pos, table);
    WalkPastHere(file, pos, best, table);
    VisitsPastHere(file, pos, table);
  }

  /** What one round does: the new offset and maximum, and whether the scan is over. */
  predicate RoundDone(file: seq<Byte>, pos: nat, best: int, pos': nat, best': int, over: bool) {
    if over then WalkAt(file, pos, best) == best'
    else pos' > pos && WalkAt(file, pos, best) == WalkAt(file, pos', best')
  }

  /** The headers one round has seen. */
  predicate RoundSaw(file: seq<Byte>, pos: nat, pos': nat, over: bool, seen: seq<nat>) {
    VisitsAt(file, pos) == if over then seen else seen + VisitsAt(file, pos')
  }

  /** What follows the page header `buf` at `pos`: either the file ends in its segment table, or the next page. */
  lemma PageDone(file: seq<Byte>, pos: nat, best: int, buf: seq<Byte>, best': int)
    requires pos + HEADER <= |file| && buf == file[pos..pos + HEADER] && StartsWithOggS(buf)
    requires best' == Max(best, Granule(buf))
    ensures var end := pos + HEADER + buf[26] as nat;
            if end > |file| then RoundDone(file, pos, best, pos, best', true) && RoundSaw(file, pos, pos, true, [pos])
            else
              var next := end + Sum(file[pos + HEADER..end]);
              RoundDone(file, pos, best, next, best', false) && RoundSaw(file, pos, next, false, [pos])
  {
    var end := pos + HEADER + buf[26] as nat;
    if end > |file| {
      CutPageHere(file, pos, best, buf);
    } else {
      PageHere(file, pos, best, buf, file[pos + HEADER..end]);
    }
  }

  /** A round that has read the page header `buf`. */
  method PageRound(file: seq<Byte>, pos: nat, best: int, buf: seq<Byte>)
    returns (pos': nat, best': int, over: bool, ghost seen: seq<nat>)
    requires pos + HEADER <= |file| && buf == file[pos..pos + HEADER] && StartsWithOggS(buf)
    ensures RoundDone(file, pos, best, pos', best', over)
    ensures RoundSaw(file, pos, pos', over, seen)
  {
    pos', best', over, seen := pos, best, true, [pos];
    var granule := Granule(buf);
    if granule > best {
      best' := granule;
    }
    PageDone(file, pos, best, buf, best');
    var segments := buf[26] as nat;
    if pos + HEADER + segments > |file| {
      return;
    }
    var table := file[pos + HEADER..pos + HEADER + segments];
    var pageSize := SumLoop(table);
    pos', over := pos + HEADER + segments + pageSize, false;
  }

  /** One round of the loop. */
  method Round(file: seq<Byte>, pos: nat, best: int) returns (pos': nat, best': int, over: bool, ghost seen: seq<nat>)
    requires pos < |file|
    ensures RoundDone(file, pos, best, pos', best', over)
    ensures RoundSaw(file, pos, pos', over, seen)
  {
    var n := if |file| - pos < HEADER then |file| - pos else HEADER;
    var buf := file[pos..pos + n];
    if n < HEADER {
      return pos, best, true, [];
    }
    if !StartsWithOggS(buf) {
      HeaderBytes(file, pos, buf);
      NoHeaderHere(file, pos, best);
      return pos + n - 26, best, false, [];
    }
    pos', best', over, seen := PageRound(file, pos, best, buf);
  }

  /** `getOpusDuration` on a file whose reads are only short at its end. The offset grows in every round. */
  method OpusDuration(file: seq<Byte>) returns (duration: real, ghost visited: seq<nat>)
    ensures duration == WalkAt(file, 0, 0) as real / 48000.0
    ensures visited == VisitsAt(file, 0)
  {
    var best, pos, over := 0, 0, false;
    visited := [];
    while pos < |file| && !over
      invariant 0 <= pos
      invariant !over ==> WalkAt(file, 0, 0) == WalkAt(file, pos, best) && VisitsAt(file, 0) == visited + VisitsAt(file, pos)
      invariant over ==> WalkAt(file, 0, 0) == best && VisitsAt(file, 0) == visited
      decreases if over then 0 else 1, |file| - pos
    {
      ghost var seen;
      pos, best, over, seen := Round(file, pos, best);
      visited := visited + seen;
    }
    duration := best as real / 48000.0;
  }

  method SumLoop(table: seq<Byte>) returns (total: nat)
    ensures total == Sum(table)
  {
    total := 0;
    var i := 0;
    while i < |table|
      invariant 0 <= i <= |table|
      invariant total + Sum(table[i..]) == Sum(table)
    {
      total := total + table[i] as nat;
      assert table[i..][1..] == table[i + 1..];
      i := i + 1;
    }
  }

  // ---------------------------------------------------------------- well-formed pages

  /** `fixed` holds serial number, sequence number and checksum. */
  datatype Page = Page(version: Byte, kind: Byte, granule: int, fixed: seq<Byte>, segments: seq<Byte>, body: seq<Byte>)

  predicate WellFormed(p: Page) {
    && -TWO63 <= p.granule < TWO63
    && |p.fixed| == 12
    && |p.segments| < 256
    && |p.body| == Sum(p.segments)
  }

  function ToBytes(u: nat, n: nat): (r: seq<Byte>)
    ensures |r| == n
  {
    if n == 0 then [] else [(u % 256) as Byte] + ToBytes(u / 256, n - 1)
  }

  function Pow256(n: nat): nat { if n == 0 then 1 else 256 * Pow256(n - 1) }

  lemma {:induction false} UnsignedOfBytes(u: nat, n: nat)
    requires u < Pow256(n)
    ensures Unsigned(ToBytes(u, n)) == u
  {
    if n > 0 {
      UnsignedOfBytes(u / 256, n - 1);
      assert ToBytes(u, n)[1..] == ToBytes(u / 256, n - 1);
    }
  }

  lemma EightBytes()
    ensures Pow256(8) == TWO64
  {
    assert Pow256(4) == 0x1_0000_0000;
    assert Pow256(8) == 256 * (256 * (256 * (256 * Pow256(4))));
  }

  function AsUnsigned(i: int): int { if i < 0 then i + TWO64 else i }

  function Encode(p: Page): seq<Byte>
    requires WellFormed(p)
  {
    [79, 103, 103, 83, p.version, p.kind] + ToBytes(AsUnsigned(p.granule), 8) + p.fixed
    + [|p.segments| as Byte] + p.segments + p.body
  }

  /** `e` holds, whatever follows it, a page with these segments and this granule position. */
  predicate HoldsPage(e: seq<Byte>, segments: seq<Byte>, granule: int) {
    && |e| == HEADER + |segments| + Sum(segments)
    && StartsWithOggS(e)
    && Granule(e) == granule
    && e[26] as nat == |segments|
    && e[HEADER..HEADER + |segments|] == segments
  }

  lemma EncodedHoldsPage(p: Page)
    requires WellFormed(p)
    ensures HoldsPage(Encode(p), p.segments, p.granule)
  {
    assert Encode(p)[6..14] == ToBytes(AsUnsigned(p.granule), 8);
    EightBytes();
    UnsignedOfBytes(AsUnsigned(p.granule), 8);
  }

  lemma HeldHasTable(e: seq<Byte>, segments: seq<Byte>, granule: int, rest: seq<Byte>)
    requires HoldsPage(e, segments, granule)
    ensures HasTable(e + rest, segments) && Granule(e + rest) == granule && |e| == PageLength(segments) && (e + rest)[|e|..] == rest
  {
    var b := e + rest;
    assert b[6..14] == e[6..14] && b[26] == e[26];
    assert b[HEADER..HEADER + |segments|] == segments;
  }

  lemma WalkOverHeld(e: seq<Byte>, segments: seq<Byte>, granule: int, rest: seq<Byte>, best: int)
    requires HoldsPage(e, segments, granule)
    ensures Walk(e + rest, best) == Walk(rest, Max(best, granule))
  {
    HeldHasTable(e, segments, granule, rest);
    WalkPastTable(e + rest, best, segments);
  }

  lemma VisitsOfHeld(e: seq<Byte>, segments: seq<Byte>, granule: int, rest: seq<Byte>, at: nat)
    requires HoldsPage(e, segments, granule)
    ensures Visits(e + rest, at) == [at] + Visits(rest, at + |e|)
  {
    HeldHasTable(e, segments, granule, rest);
    VisitsPastTable(e + rest, at, segments);
  }

  /** No page header seems to start inside `junk`, even one that runs on into `after`. */
  predicate NoFalseStart(junk: seq<Byte>, after: seq<Byte>) {
    forall j :: 0 <= j < |junk| ==> !StartsWithOggS(junk[j..] + after)
  }

  lemma {:induction false} WalkOverJunk(junk: seq<Byte>, rest: seq<Byte>, best: int, at: nat)
    requires NoFalseStart(junk, rest)
    ensures Walk(junk + rest, best) == Walk(rest, best)
    ensures Visits(junk + rest, at) == Visits(rest, at + |junk|)
  {
    if junk == [] {
      assert junk + rest == rest;
    } else {
      assert junk[0..] + rest == junk + rest;
      forall j | 0 <= j < |junk[1..]| ensures !StartsWithOggS(junk[1..][j..] + rest) {
        assert junk[1..][j..] == junk[j + 1..];
      }
      WalkOverJunk(junk[1..], rest, best, at + 1);
      assert (junk + rest)[1..] == junk[1..] + rest;
    }
  }

  lemma FalseStartIsLocal(junk: seq<Byte>, page: seq<Byte>, rest: seq<Byte>)
    requires NoFalseStart(junk, page) && |page| >= 4
    ensures NoFalseStart(junk, page + rest)
  {
    forall j | 0 <= j < |junk| ensures !StartsWithOggS(junk[j..] + (page + rest)) {
      var short, long := junk[j..] + page, junk[j..] + (page + rest);
      assert !StartsWithOggS(short);
      assert forall k :: 0 <= k < 4 ==> long[k] == short[k];
    }
  }

  /** A page, possibly after bytes that belong to no page. */
  datatype Chunk = Chunk(junk: seq<Byte>, page: Page)

  predicate WellFormedChunks(chunks: seq<Chunk>) {
    forall c :: c in chunks ==> WellFormed(c.page) && NoFalseStart(c.junk, Encode(c.page))
  }

  function Stream(chunks: seq<Chunk>, tail: seq<Byte>): seq<Byte>
    requires WellFormedChunks(chunks)
  {
    if chunks == [] then tail else chunks[0].junk + (Encode(chunks[0].page) + Stream(chunks[1..], tail))
  }

  /** The largest granule position, and at least `best`. */
  function Largest(chunks: seq<Chunk>, best: int): int {
    if chunks == [] then best else Largest(chunks[1..], Max(best, chunks[0].page.granule))
  }

  function Offsets(chunks: seq<Chunk>, at: nat): seq<nat>
    requires WellFormedChunks(chunks)
  {
    if chunks == [] then []
    else
      var start := at + |chunks[0].junk|;
      [start] + Offsets(chunks[1..], start + |Encode(chunks[0].page)|)
  }

  function Length(chunks: seq<Chunk>): nat
    requires WellFormedChunks(chunks)
  {
    if chunks == [] then 0 else |chunks[0].junk| + |Encode(chunks[0].page)| + Length(chunks[1..])
  }

  lemma ChunkBytes(junk: seq<Byte>, page: Page, rest: seq<Byte>)
    requires WellFormed(page) && NoFalseStart(junk, Encode(page))
    ensures HoldsPage(Encode(page), page.segments, page.granule) && NoFalseStart(junk, Encode(page) + rest)
  {
    EncodedHoldsPage(page);
    FalseStartIsLocal(junk, Encode(page), rest);
  }

  lemma WalkOverChunk(junk: seq<Byte>, page: Page, rest: seq<Byte>, best: int)
    requires WellFormed(page) && NoFalseStart(junk, Encode(page))
    ensures Walk(junk + (Encode(page) + rest), best) == Walk(rest, Max(best, page.granule))
  {
    ChunkBytes(junk, page, rest);
    WalkOverJunk(junk, Encode(page) + rest, best, 0);
    WalkOverHeld(Encode(page), page.segments, page.granule, rest, best);
  }

  lemma VisitsOfChunk(junk: seq<Byte>, page: Page, rest: seq<Byte>, at: nat)
    requires WellFormed(page) && NoFalseStart(junk, Encode(page))
    ensures Visits(junk + (Encode(page) + rest), at) == [at + |junk|] + Visits(rest, at + |junk| + |Encode(page)|)
  {
    ChunkBytes(junk, page, rest);
    WalkOverJunk(junk, Encode(page) + rest, 0, at);
    VisitsOfHeld(Encode(page), page.segments, page.granule, rest, at + |junk|);
  }

  /** The walker keeps the largest granule position and arrives at whatever follows the pages. */
  lemma {:induction false} WalkOverStream(chunks: seq<Chunk>, tail: seq<Byte>, best: int)
    requires WellFormedChunks(chunks)
    ensures Walk(Stream(chunks, tail), best) == Walk(tail, Largest(chunks, best))
  {
    if chunks != [] {
      var c := chunks[0];
      assert c in chunks;
      WalkOverChunk(c.junk, c.page, Stream(chunks[1..], tail), best);
      WalkOverStream(chunks[1..], tail, Max(best, c.page.granule));
    }
  }

  /** It visits each page header once, in order. */
  lemma {:induction false} VisitsOfStream(chunks: seq<Chunk>, tail: seq<Byte>, at: nat)
    requires WellFormedChunks(chunks)
    ensures Visits(Stream(chunks, tail), at) == Offsets(chunks, at) + Visits(tail, at + Length(chunks))
  {
    if chunks == [] {
      NoOffsets(Visits(tail, at));
    } else {
      VisitsOfStream(chunks[1..], tail, at + |chunks[0].junk| + |Encode(chunks[0].page)|);
      VisitsOfCons(chunks, tail, at);
    }
  }

  lemma NoOffsets(v: seq<nat>)
    ensures [] + v == v
  {
  }

  lemma VisitsOfCons(chunks: seq<Chunk>, tail: seq<Byte>, at: nat)
    requires WellFormedChunks(chunks) && chunks != []
    requires var next, more := at + |chunks[0].junk| + |Encode(chunks[0].page)|, chunks[1..];
             Visits(Stream(more, tail), next) == Offsets(more, next) + Visits(tail, next + Length(more))
    ensures Visits(Stream(chunks, tail), at) == Offsets(chunks, at) + Visits(tail, at + Length(chunks))
  {
    var c, more := chunks[0], chunks[1..];
    assert c in chunks;
    var next := at + |c.junk| + |Encode(c.page)|;
    var offsets, after := Offsets(more, next), Visits(tail, next + Length(more));
    VisitsStep(c, Stream(more, tail), at, offsets, after);
    FirstChunk(chunks, tail, at);
  }

  lemma FirstChunk(chunks: seq<Chunk>, tail: seq<Byte>, at: nat)
    requires WellFormedChunks(chunks) && chunks != []
    ensures var c, more := chunks[0], chunks[1..];
            var next := at + |c.junk| + |Encode(c.page)|;
            && Stream(chunks, tail) == c.junk + (Encode(c.page) + Stream(more, tail))
            && Offsets(chunks, at) == [at + |c.junk|] + Offsets(more, next)
            && at + Length(chunks) == next + Length(more)
  {
  }

  lemma VisitsStep(c: Chunk, rest: seq<Byte>, at: nat, offsets: seq<nat>, after: seq<nat>)
    requires WellFormed(c.page) && NoFalseStart(c.junk, Encode(c.page))
    requires Visits(rest, at + |c.junk| + |Encode(c.page)|) == offsets + after
    ensures Visits(c.junk + (Encode(c.page) + rest), at) == ([at + |c.junk|] + offsets) + after
  {
    VisitsOfChunk(c.junk, c.page, rest, at);
    assert [at + |c.junk|] + (offsets + after) == ([at + |c.junk|] + offsets) + after;
  }

  lemma FromTheStart(file: seq<Byte>)
    ensures WalkAt(file, 0, 0) == Walk(file, 0) && VisitsAt(file, 0) == Visits(file, 0)
  {
    assert file[0..] == file && (|file| == 0 ==> Walk(file, 0) == 0 && Visits(file, 0) == []);
  }

  lemma NothingInTail(tail: seq<Byte>, best: int, at: nat)
    requires |tail| < HEADER || NoFalseStart(tail, [])
    ensures Walk(tail, best) == best && Visits(tail, at) == []
  {
    if |tail| >= HEADER {
      WalkOverJunk(tail, [], best, at);
      assert tail + [] == tail;
    }
  }

  lemma {:induction false} LargestIsMaximum(chunks: seq<Chunk>, best: int)
    ensures Largest(chunks, best) >= best && forall c :: c in chunks ==> c.page.granule <= Largest(chunks, best)
    ensures Largest(chunks, best) == best || exists c :: c in chunks && c.page.granule == Largest(chunks, best)
  {
    if chunks != [] {
      LargestIsMaximum(chunks[1..], Max(best, chunks[0].page.granule));
      assert chunks[0] in chunks;
      forall c | c in chunks ensures c == chunks[0] || c in chunks[1..] { }
    }
  }

  /** A file of pages lasts as long as the largest of zero and its granule positions says. */
  lemma DurationOfPages(chunks: seq<Chunk>, tail: seq<Byte>)
    requires WellFormedChunks(chunks) && (|tail| < HEADER || NoFalseStart(tail, []))
    ensures WalkAt(Stream(chunks, tail), 0, 0) == Largest(chunks, 0)
    ensures VisitsAt(Stream(chunks, tail), 0) == Offsets(chunks, 0)
  {
    WalkOverStream(chunks, tail, 0);
    VisitsOfStream(chunks, tail, 0);
    FollowedByNothing(Stream(chunks, tail), tail, Largest(chunks, 0), Offsets(chunks, 0), Length(chunks));
  }

  lemma FollowedByNothing(file: seq<Byte>, tail: seq<Byte>, best: int, offsets: seq<nat>, end: nat)
    requires |tail| < HEADER || NoFalseStart(tail, [])
    requires Walk(file, 0) == Walk(tail, best) && Visits(file, 0) == offsets + Visits(tail, end)
    ensures WalkAt(file, 0, 0) == best && VisitsAt(file, 0) == offsets
  {
    FromTheStart(file);
    NothingInTail(tail, best, end);
  }
}
