/** The Ogg page scan behind getOpusDuration (common/audio.go).

    The reader is a byte string with a position.  Reads return as many bytes as are left, and a seek
    past the end is allowed.  Page layout follows section 6 of RFC 3533; the granule position is the
    one section 4 of RFC 7845 defines. */
module OggScan {

  type byte = b: int | 0 <= b < 256

  const HEADER := 27
  const CAPTURE: seq<byte> := [0x4F, 0x67, 0x67, 0x53]   // "OggS"
  const SAMPLE_RATE := 48000.0

  // ------------------------------------------------------- integers in bytes

  function FromLittleEndian(bytes: seq<byte>): nat {
    if bytes == [] then 0 else bytes[0] + 256 * FromLittleEndian(bytes[1..])
  }

  function ToLittleEndian(n: nat, width: nat): (bytes: seq<byte>)
    ensures |bytes| == width
  {
    if width == 0 then [] else [n % 256] + ToLittleEndian(n / 256, width - 1)
  }

  function Pow256(width: nat): nat {
    if width == 0 then 1 else 256 * Pow256(width - 1)
  }

  lemma {:induction false} LittleEndianRoundTrip(n: nat, width: nat)
    requires n < Pow256(width)
    ensures FromLittleEndian(ToLittleEndian(n, width)) == n
  {
    if width > 0 {
      LittleEndianRoundTrip(n / 256, width - 1);
      assert ToLittleEndian(n, width)[1..] == ToLittleEndian(n / 256, width - 1);
    }
  }

  /** The int64 conversion of an unsigned 64-bit value. */
  function Signed64(u: nat): int {
    if u < 0x8000_0000_0000_0000 then u else u - 0x1_0000_0000_0000_0000
  }

  function Sum(segments: seq<byte>): nat {
    if segments == [] then 0 else segments[0] + Sum(segments[1..])
  }

  function Max(a: int, b: int): int {
    if b > a then b else a
  }

  // ------------------------------------------------------------- the scan

  predicate CapturedAt(data: seq<byte>, pos: nat) {
    pos + 4 <= |data| && data[pos..pos + 4] == CAPTURE
  }

  /** A whole header fits at pos. */
  predicate HeaderAt(data: seq<byte>, pos: nat) {
    pos + HEADER <= |data|
  }

  function GranuleAt(data: seq<byte>, pos: nat): int
    requires HeaderAt(data, pos)
  {
    Signed64(FromLittleEndian(data[pos + 6..pos + 14]))
  }

  /** Where the scan goes from a header at pos: one byte on without a capture pattern, past the page with
      one, and to the end if the segment table is cut off. */
  function Advance(data: seq<byte>, pos: nat): (next: nat)
    requires HeaderAt(data, pos)
    ensures next > pos
  {
    var body := pos + HEADER + data[pos + 26];
    if !CapturedAt(data, pos) then pos + 1
    else if body > |data| then |data|
    else body + Sum(data[pos + HEADER..body])
  }

  /** What the scan finds at a position where a header fits. */
  datatype Header = Header(captured: bool, granule: int, next: nat)

  function HeaderOf(data: seq<byte>, pos: nat): Header
    requires HeaderAt(data, pos)
  {
    Header(CapturedAt(data, pos), GranuleAt(data, pos), Advance(data, pos))
  }

  predicate Forward(headers: seq<Header>) {
    forall i :: 0 <= i < |headers| ==> headers[i].next > i
  }

  /** The headers at all positions of a file. */
  function Headers(data: seq<byte>): (headers: seq<Header>)
    ensures Forward(headers)
    ensures forall i: nat :: i < |headers| <==> HeaderAt(data, i)
    ensures forall i: nat :: i < |headers| ==> headers[i] == HeaderOf(data, i)
  {
    var n := if |data| < HEADER then 0 else |data| - HEADER + 1;
    seq(n, i requires 0 <= i < n => HeaderOf(data, i))
  }

  function Best(header: Header, total: int): int {
    if header.captured then Max(total, header.granule) else total
  }

  /** The granule position after scanning from pos, given the largest one so far. */
  function Scan(headers: seq<Header>, pos: nat, total: int): int
    requires Forward(headers)
    decreases |headers| - pos
  {
    if pos < |headers| then Scan(headers, headers[pos].next, Best(headers[pos], total)) else total
  }

  /** The positions where the scan takes a page, behind those already seen. */
  function Visits(headers: seq<Header>, pos: nat, seen: seq<nat>): seq<nat>
    requires Forward(headers)
    decreases |headers| - pos
  {
    if pos < |headers|
    then Visits(headers, headers[pos].next, if headers[pos].captured then seen + [pos] else seen)
    else seen
  }

  function LastGranule(data: seq<byte>): int {
    Scan(Headers(data), 0, 0)
  }

  function PagesTaken(data: seq<byte>): seq<nat> {
    Visits(Headers(data), 0, [])
  }

  lemma {:induction false} SumExtends(segments: seq<byte>, n: nat)
    requires n < |segments|
    ensures Sum(segments[..n + 1]) == Sum(segments[..n]) + segments[n]
  {
    if n > 0 {
      assert segments[..n + 1][1..] == segments[1..][..n];
      assert segments[..n][1..] == segments[1..][..n - 1];
      SumExtends(segments[1..], n - 1);
    }
  }

  method PageSize(segmentTable: seq<byte>) returns (pageSize: nat)
    ensures pageSize == Sum(segmentTable)
  {
    pageSize := 0;
    for i := 0 to |segmentTable|
      invariant pageSize == Sum(segmentTable[..i])
    {
      SumExtends(segmentTable, i);
      pageSize := pageSize + segmentTable[i];
    }
    assert segmentTable[..|segmentTable|] == segmentTable;
  }

  /** The header as the reader delivers it. */
  lemma HeaderBytes(data: seq<byte>, pos: nat, buf: seq<byte>)
    requires HeaderAt(data, pos) && buf == data[pos..pos + HEADER]
    ensures buf[26] == data[pos + 26]
    ensures buf[0..4] == data[pos..pos + 4] && buf[6..14] == data[pos + 6..pos + 14]
  {
    SliceStandsAt(data, pos, buf, 0, 4);
    SliceStandsAt(data, pos, buf, 6, 14);
  }

  /** One round of the loop from the reader's position, and whether it goes on. */
  method ReadPage(data: seq<byte>, start: nat, total: int) returns (pos: nat, best: int, more: bool)
    ensures if HeaderAt(data, start)
            then pos == Advance(data, start) && best == Best(HeaderOf(data, start), total) && (more || pos == |data|)
            else pos == start && best == total && !more
  {
    pos, best := start, total;
    // Read into a 27-byte buffer.
    if pos >= |data| { return pos, best, false; }
    var n := if |data| - pos < HEADER then |data| - pos else HEADER;
    var buf := data[pos..pos + n];
    if n < HEADER { return pos, best, false; }
    HeaderBytes(data, pos, buf);
    pos := pos + n;

    if buf[0..4] != CAPTURE {
      return pos - 26, best, true;
    }

    var granulePos := Signed64(FromLittleEndian(buf[6..14]));
    if granulePos > best {
      best := granulePos;
    }

    // Read the segment table in full; the reader ends up at the end if it is cut off.
    var numSegments := buf[26];
    if pos + numSegments > |data| {
      return |data|, best, false;
    }
    var segmentTable := data[pos..pos + numSegments];
    pos := pos + numSegments;

    var pageSize := PageSize(segmentTable);
    pos := pos + pageSize;
    more := true;
  }

  /** getOpusDuration.  Every round moves the reader on; the ghost result are the positions where a page is
      taken. */
  method GetOpusDuration(data: seq<byte>) returns (duration: real, ghost pages: seq<nat>)
    ensures duration == LastGranule(data) as real / SAMPLE_RATE
    ensures pages == PagesTaken(data)
  {
    ghost var headers := Headers(data);
    var pos, totalGranulePos, more := 0, 0, true;
    pages := [];
    while more
      invariant Scan(headers, pos, totalGranulePos) == LastGranule(data)
      invariant Visits(headers, pos, pages) == PagesTaken(data)
      invariant !more ==> pos >= |headers|
      decreases |data| - pos, more
    {
      ghost var start := pos;
      pos, totalGranulePos, more := ReadPage(data, pos, totalGranulePos);
      pages := if start < |headers| && headers[start].captured then pages + [start] else pages;
    }
    duration := totalGranulePos as real / SAMPLE_RATE;
  }

  // ----------------------------------------------------------------- pages

  /** The bytes of one page: a header, its segment table, and as much data as the table says. */
  predicate PageShaped(part: seq<byte>) {
    && |part| >= HEADER && part[..4] == CAPTURE && |part| >= HEADER + part[26]
    && |part| == HEADER + part[26] + Sum(part[HEADER..HEADER + part[26]])
  }

  function GranuleOf(part: seq<byte>): int
    requires PageShaped(part)
  {
    Signed64(FromLittleEndian(part[6..14]))
  }

  function Concat(parts: seq<seq<byte>>): seq<byte> {
    if parts == [] then [] else parts[0] + Concat(parts[1..])
  }

  predicate AllPages(parts: seq<seq<byte>>) {
    forall i :: 0 <= i < |parts| ==> PageShaped(parts[i])
  }

  /** The largest granule position of the pages, starting from `total`. */
  function LargestGranule(parts: seq<seq<byte>>, total: int): int
    requires AllPages(parts)
  {
    if parts == [] then total else LargestGranule(parts[1..], Max(total, GranuleOf(parts[0])))
  }

  /** Where each part starts, behind the starts already seen. */
  function Boundaries(parts: seq<seq<byte>>, pos: nat, seen: seq<nat>): seq<nat> {
    if parts == [] then seen else Boundaries(parts[1..], pos + |parts[0]|, seen + [pos])
  }

  /** The bytes stand in the file at pos. */
  predicate StandsAt(data: seq<byte>, pos: nat, bytes: seq<byte>) {
    pos + |bytes| <= |data| && data[pos..pos + |bytes|] == bytes
  }

  lemma PartStandsAt(data: seq<byte>, pos: nat, a: seq<byte>, b: seq<byte>)
    requires StandsAt(data, pos, a + b)
    ensures StandsAt(data, pos, a) && StandsAt(data, pos + |a|, b)
  {
    var whole := data[pos..pos + |a + b|];
    assert data[pos..pos + |a|] == whole[..|a|];
    assert data[pos + |a|..pos + |a| + |b|] == whole[|a|..];
  }

  lemma SliceStandsAt(data: seq<byte>, pos: nat, bytes: seq<byte>, lo: nat, hi: nat)
    requires StandsAt(data, pos, bytes) && lo <= hi <= |bytes|
    ensures data[pos + lo..pos + hi] == bytes[lo..hi]
  {
    assert bytes == bytes[..lo] + (bytes[lo..hi] + bytes[hi..]);
    PartStandsAt(data, pos, bytes[..lo], bytes[lo..hi] + bytes[hi..]);
    PartStandsAt(data, pos + lo, bytes[lo..hi], bytes[hi..]);
  }

  /** A page at pos is found whole: its granule, and the position right behind it. */
  lemma PageFound(data: seq<byte>, pos: nat, part: seq<byte>)
    requires PageShaped(part) && StandsAt(data, pos, part)
    ensures HeaderAt(data, pos) && HeaderOf(data, pos) == Header(true, GranuleOf(part), pos + |part|)
  {
    SliceStandsAt(data, pos, part, 0, 4);
    SliceStandsAt(data, pos, part, 6, 14);
    SliceStandsAt(data, pos, part, 26, HEADER);
    SliceStandsAt(data, pos, part, HEADER, HEADER + part[26]);
    assert data[pos + 26] == data[pos + 26..pos + HEADER][0] == part[26..HEADER][0];
  }

  predicate PageAt(data: seq<byte>, pos: nat, part: seq<byte>) {
    PageShaped(part) && StandsAt(data, pos, part)
  }

  predicate FoundAt(headers: seq<Header>, pos: nat, part: seq<byte>)
    requires PageShaped(part)
  {
    pos < |headers| && headers[pos] == Header(true, GranuleOf(part), pos + |part|)
  }

  /** Wherever a page stands, the headers have it. */
  ghost predicate FindsPages(headers: seq<Header>, data: seq<byte>) {
    forall pos, part :: PageAt(data, pos, part) ==> FoundAt(headers, pos, part)
  }

  lemma HeadersFindPages(data: seq<byte>)
    ensures FindsPages(Headers(data), data)
  {
    forall pos, part | PageAt(data, pos, part)
      ensures FoundAt(Headers(data), pos, part)
    {
      PageFound(data, pos, part);
    }
  }

  /** The headers of the pages follow one another. */
  predicate Chained(headers: seq<Header>, pos: nat, parts: seq<seq<byte>>)
    requires AllPages(parts)
    decreases |parts|
  {
    parts == [] || (FoundAt(headers, pos, parts[0]) && Chained(headers, pos + |parts[0]|, parts[1..]))
  }

  lemma {:induction false} PagesChained(headers: seq<Header>, data: seq<byte>, pos: nat, parts: seq<seq<byte>>)
    requires FindsPages(headers, data) && AllPages(parts) && StandsAt(data, pos, Concat(parts))
    ensures Chained(headers, pos, parts)
    decreases |parts|
  {
    if parts != [] {
      PartStandsAt(data, pos, parts[0], Concat(parts[1..]));
      assert PageAt(data, pos, parts[0]);
      PagesChained(headers, data, pos + |parts[0]|, parts[1..]);
    }
  }

  /** Scanning pages and whatever follows them is scanning what follows, from their largest granule. */
  lemma {:induction false} ScanTakesPages(headers: seq<Header>, pos: nat, parts: seq<seq<byte>>, total: int)
    requires Forward(headers) && AllPages(parts) && Chained(headers, pos, parts)
    ensures Scan(headers, pos, total) == Scan(headers, End(parts, pos), LargestGranule(parts, total))
    decreases |parts|
  {
    if parts != [] {
      ScanTakesPages(headers, pos + |parts[0]|, parts[1..], Max(total, GranuleOf(parts[0])));
    }
  }

  lemma {:induction false} VisitsTakePages(headers: seq<Header>, pos: nat, parts: seq<seq<byte>>, seen: seq<nat>)
    requires Forward(headers) && AllPages(parts) && Chained(headers, pos, parts)
    ensures Visits(headers, pos, seen) == Visits(headers, End(parts, pos), Boundaries(parts, pos, seen))
    decreases |parts|
  {
    if parts != [] {
      VisitsTakePages(headers, pos + |parts[0]|, parts[1..], seen + [pos]);
    }
  }

  /** Where the parts end. */
  function End(parts: seq<seq<byte>>, pos: nat): nat
    decreases |parts|
  {
    if parts == [] then pos else End(parts[1..], pos + |parts[0]|)
  }

  lemma {:induction false} EndOfConcat(parts: seq<seq<byte>>, pos: nat)
    ensures End(parts, pos) == pos + |Concat(parts)|
    decreases |parts|
  {
    if parts != [] { EndOfConcat(parts[1..], pos + |parts[0]|); }
  }

  /** Fewer bytes than a header behind the pages are ignored. */
  lemma ScanOfPages(data: seq<byte>, parts: seq<seq<byte>>)
    requires AllPages(parts) && StandsAt(data, 0, Concat(parts)) && |data| < |Concat(parts)| + HEADER
    ensures LastGranule(data) == LargestGranule(parts, 0)
    ensures PagesTaken(data) == Boundaries(parts, 0, [])
  {
    HeadersFindPages(data);
    PagesChained(Headers(data), data, 0, parts);
    ScanTakesPages(Headers(data), 0, parts, 0);
    VisitsTakePages(Headers(data), 0, parts, []);
    EndOfConcat(parts, 0);
    assert !HeaderAt(data, |Concat(parts)|);
  }

  lemma {:induction false} LargestIsLargest(parts: seq<seq<byte>>, total: int)
    requires AllPages(parts)
    ensures total <= LargestGranule(parts, total)
    ensures forall i :: 0 <= i < |parts| ==> GranuleOf(parts[i]) <= LargestGranule(parts, total)
    ensures LargestGranule(parts, total) == total
         || exists i :: 0 <= i < |parts| && LargestGranule(parts, total) == GranuleOf(parts[i])
  {
    if parts != [] {
      var rest, best := parts[1..], Max(total, GranuleOf(parts[0]));
      LargestIsLargest(rest, best);
      forall i | 0 <= i < |parts|
        ensures GranuleOf(parts[i]) <= LargestGranule(parts, total)
      {
        assert i > 0 ==> parts[i] == rest[i - 1];
      }
      if j :| 0 <= j < |rest| && LargestGranule(rest, best) == GranuleOf(rest[j]) {
        assert parts[j + 1] == rest[j];
      }
    }
  }

  // --------------------------------------------------------- serialisation

  /** One Ogg page; `flags` is the version and header type, `ids` the serial number, sequence number
      and checksum. */
  datatype Page = Page(flags: seq<byte>, granule: nat, ids: seq<byte>, segments: seq<byte>, payload: seq<byte>)

  predicate WellFormed(page: Page) {
    && |page.flags| == 2 && |page.ids| == 12
    && page.granule < 0x1_0000_0000_0000_0000
    && |page.segments| < 256 && |page.payload| == Sum(page.segments)
  }

  function Serialize(page: Page): seq<byte>
    requires WellFormed(page)
  {
    CAPTURE + page.flags + ToLittleEndian(page.granule, 8) + page.ids + [|page.segments|] + page.segments + page.payload
  }

  function SerializeAll(pages: seq<Page>): (parts: seq<seq<byte>>)
    requires forall i :: 0 <= i < |pages| ==> WellFormed(pages[i])
  {
    seq(|pages|, i requires 0 <= i < |pages| => Serialize(pages[i]))
  }

  lemma SerializedPage(page: Page)
    requires WellFormed(page)
    ensures PageShaped(Serialize(page)) && GranuleOf(Serialize(page)) == Signed64(page.granule)
  {
    var bytes, n := Serialize(page), |page.segments|;
    assert bytes[26] == n;
    assert bytes[..4] == CAPTURE;
    assert bytes[6..14] == ToLittleEndian(page.granule, 8);
    assert bytes[HEADER..HEADER + n] == page.segments;
    assert Pow256(8) == 0x1_0000_0000_0000_0000;
    LittleEndianRoundTrip(page.granule, 8);
  }

  /** On a well-formed file the scan visits exactly the page boundaries and its result is the largest
      non-negative granule position, or 0. */
  lemma ScanOfFile(pages: seq<Page>)
    requires forall i :: 0 <= i < |pages| ==> WellFormed(pages[i])
    ensures var file := Concat(SerializeAll(pages));
            && PagesTaken(file) == Boundaries(SerializeAll(pages), 0, [])
            && 0 <= LastGranule(file)
            && (forall i :: 0 <= i < |pages| ==> Signed64(pages[i].granule) <= LastGranule(file))
            && (LastGranule(file) == 0
                || exists i :: 0 <= i < |pages| && LastGranule(file) == Signed64(pages[i].granule))
  {
    var parts := SerializeAll(pages);
    var file := Concat(parts);
    forall i | 0 <= i < |parts|
      ensures PageShaped(parts[i]) && GranuleOf(parts[i]) == Signed64(pages[i].granule)
    {
      SerializedPage(pages[i]);
    }
    assert file[0..0 + |file|] == file;
    ScanOfPages(file, parts);
    LargestIsLargest(parts, 0);
  }

  // --------------------------------------------------- a page, byte by byte

  /** Little-endian: the first byte counts once, and each later one 256 times as much as the one before. */
  lemma LittleEndianWeights(b: seq<byte>, weights: seq<int>)
    requires |b| == 8
    requires weights == [1, 0x100, 0x1_0000, 0x100_0000, 0x1_0000_0000, 0x100_0000_0000,
                         0x1_0000_0000_0000, 0x100_0000_0000_0000]
    ensures FromLittleEndian(b)
         == weights[0] * b[0] + weights[1] * b[1] + weights[2] * b[2] + weights[3] * b[3]
            + weights[4] * b[4] + weights[5] * b[5] + weights[6] * b[6] + weights[7] * b[7]
  {
    assert FromLittleEndian(b[8..]) == 0;
    Unfold(b, 7);
    Unfold(b, 6);
    Unfold(b, 5);
    Unfold(b, 4);
    Unfold(b, 3);
    Unfold(b, 2);
    Unfold(b, 1);
    Unfold(b, 0);
    assert b[0..] == b;
  }

  lemma Unfold(b: seq<byte>, i: nat)
    requires i < |b|
    ensures FromLittleEndian(b[i..]) == b[i] + 256 * FromLittleEndian(b[i + 1..])
  {
    assert b[i..][1..] == b[i + 1..];
  }

  lemma {:induction false} SumIsTotal(a: seq<byte>, segment: byte)
    ensures Sum([]) == 0 && Sum(a + [segment]) == Sum(a) + segment
  {
    if a == [] {
      assert a + [segment] == [segment];
    } else {
      assert (a + [segment])[1..] == a[1..] + [segment];
      SumIsTotal(a[1..], segment);
    }
  }

  /** A granule position with its top bit set is negative and never counts. */
  lemma NegativeGranule(u: nat)
    requires u < 0x1_0000_0000_0000_0000
    ensures Signed64(u) == if u >= 0x8000_0000_0000_0000 then u - 0x1_0000_0000_0000_0000 else u
  {
  }

  /** "OggS", version 0, no flags, granule position 48000, serial number, sequence number and checksum 0, one
      segment of three bytes, and these. */
  const SECOND_PAGE: seq<byte> :=
    [79, 103, 103, 83] + [0, 0] + [128, 187, 0, 0, 0, 0, 0, 0]
    + [0, 0, 0, 0, 0, 0, 0, 0, 0, 0, 0, 0] + [1] + [3] + [7, 7, 7]

  /** The file of this page alone plays for one second. */
  lemma OneSecond()
    ensures LastGranule(SECOND_PAGE) as real / SAMPLE_RATE == 1.0 && PagesTaken(SECOND_PAGE) == [0]
  {
    var page := SECOND_PAGE;
    assert page[..4] == CAPTURE && page[26] == 1;
    assert page[HEADER..HEADER + 1] == [3];
    SumIsTotal([], 3);
    assert [] + [3] == [3];
    var granule := page[6..14];
    assert granule == [128, 187, 0, 0, 0, 0, 0, 0];
    LittleEndianWeights(granule, [1, 0x100, 0x1_0000, 0x100_0000, 0x1_0000_0000, 0x100_0000_0000, 0x1_0000_0000_0000,
                                  0x100_0000_0000_0000]);
    assert FromLittleEndian(granule) == 48000;
    assert GranuleOf(page) == 48000;
    assert Concat([page]) == page && [page][1..] == [];
    assert page[0..0 + |page|] == page;
    ScanOfPages(page, [page]);
  }

  // ------------------------------------------------------- resynchronisation

  /** What is found at a position depends only on what lies ahead of it. */
  lemma HeaderShifts(junk: seq<byte>, data: seq<byte>, pos: nat)
    requires HeaderAt(data, pos)
    ensures HeaderAt(junk + data, |junk| + pos)
    ensures var h := HeaderOf(data, pos); HeaderOf(junk + data, |junk| + pos) == h.(next := |junk| + h.next)
  {
    var all, at, n := junk + data, |junk| + pos, data[pos + 26];
    assert all[at..at + 4] == data[pos..pos + 4];
    assert all[at + 6..at + 14] == data[pos + 6..pos + 14];
    if pos + HEADER + n <= |data| {
      assert all[at + HEADER..at + HEADER + n] == data[pos + HEADER..pos + HEADER + n];
    }
  }

  /** The later headers of one file are those of another, k positions on. */
  predicate Shifted(all: seq<Header>, headers: seq<Header>, k: nat) {
    && (forall i: nat :: i < |headers| ==> k + i < |all| && all[k + i] == headers[i].(next := k + headers[i].next))
    && |all| <= k + |headers|
  }

  lemma HeadersShift(junk: seq<byte>, data: seq<byte>)
    requires |data| >= HEADER
    ensures Shifted(Headers(junk + data), Headers(data), |junk|)
  {
    forall i: nat | i < |Headers(data)|
      ensures var h := Headers(data)[i];
              |junk| + i < |Headers(junk + data)| && Headers(junk + data)[|junk| + i] == h.(next := |junk| + h.next)
    {
      HeaderShifts(junk, data, i);
    }
  }

  lemma {:induction false} ScanShifts(all: seq<Header>, headers: seq<Header>, k: nat, pos: nat, total: int)
    requires Forward(all) && Forward(headers) && Shifted(all, headers, k)
    ensures Scan(all, k + pos, total) == Scan(headers, pos, total)
    decreases |headers| - pos
  {
    if pos < |headers| {
      ScanShifts(all, headers, k, headers[pos].next, Best(headers[pos], total));
    }
  }

  /** Positions k bytes further on. */
  function Later(positions: seq<nat>, k: nat): (later: seq<nat>)
    ensures |later| == |positions|
  {
    seq(|positions|, i requires 0 <= i < |positions| => k + positions[i])
  }

  lemma {:induction false} VisitsShift(all: seq<Header>, headers: seq<Header>, k: nat, pos: nat, seen: seq<nat>)
    requires Forward(all) && Forward(headers) && Shifted(all, headers, k)
    ensures Visits(all, k + pos, Later(seen, k)) == Later(Visits(headers, pos, seen), k)
    decreases |headers| - pos
  {
    if pos < |headers| {
      assert Later(seen + [pos], k) == Later(seen, k) + [k + pos];
      VisitsShift(all, headers, k, headers[pos].next, if headers[pos].captured then seen + [pos] else seen);
    }
  }

  lemma {:induction false} ScanSkips(headers: seq<Header>, pos: nat, k: nat, total: int, seen: seq<nat>)
    requires Forward(headers) && pos <= k
    requires forall i :: pos <= i < k && i < |headers| ==> !headers[i].captured && headers[i].next == i + 1
    ensures Scan(headers, pos, total) == Scan(headers, k, total)
    ensures Visits(headers, pos, seen) == Visits(headers, k, seen)
    decreases k - pos
  {
    if pos < k && pos < |headers| {
      ScanSkips(headers, pos + 1, k, total, seen);
    }
  }

  /** Bytes in front of the first page change nothing but the positions, as long as no capture pattern starts
      among them. */
  lemma JunkPrefixIgnored(junk: seq<byte>, data: seq<byte>)
    requires forall i :: 0 <= i < |junk| ==> !CapturedAt(junk + data, i)
    ensures LastGranule(junk + data) == LastGranule(data)
    ensures PagesTaken(junk + data) == Later(PagesTaken(data), |junk|)
  {
    var all := Headers(junk + data);
    ScanSkips(all, 0, |junk|, 0, []);
    assert Later([], |junk|) == [];
    if |data| >= HEADER {
      HeadersShift(junk, data);
      ScanShifts(all, Headers(data), |junk|, 0, 0);
      VisitsShift(all, Headers(data), |junk|, 0, []);
    } else {
      assert !HeaderAt(junk + data, |junk|) && !HeaderAt(data, 0);
    }
  }

  lemma {:induction false} BoundariesLater(parts: seq<seq<byte>>, pos: nat, seen: seq<nat>, k: nat)
    ensures Boundaries(parts, k + pos, Later(seen, k)) == Later(Boundaries(parts, pos, seen), k)
    decreases |parts|
  {
    if parts != [] {
      assert Later(seen + [pos], k) == Later(seen, k) + [k + pos];
      BoundariesLater(parts[1..], pos + |parts[0]|, seen + [pos], k);
    }
  }

  /** A damaged file keeps its duration: junk before the pages, and a stump shorter than a header behind
      them, leave the largest granule of the pages, and the pages are found where they stand. */
  lemma DamagedFile(junk: seq<byte>, parts: seq<seq<byte>>, stump: seq<byte>)
    requires AllPages(parts) && |stump| < HEADER
    requires forall i :: 0 <= i < |junk| ==> !CapturedAt(junk + (Concat(parts) + stump), i)
    ensures LastGranule(junk + (Concat(parts) + stump)) == LargestGranule(parts, 0)
    ensures PagesTaken(junk + (Concat(parts) + stump)) == Boundaries(parts, |junk|, [])
  {
    var pages := Concat(parts);
    JunkPrefixIgnored(junk, pages + stump);
    assert (pages + stump)[0..0 + |pages|] == pages;
    ScanOfPages(pages + stump, parts);
    BoundariesLater(parts, 0, [], |junk|);
    assert Later([], |junk|) == [];
  }
}
