/** Request body storage (common/body_storage.go) and its usage counters (common/disk_cache_config.go).

    A body is kept in memory or in a temporary file, behind one interface.  File operations do not fail
    here, except that creating the file may; what a reader delivers is a byte string. */
module BodyStorage {
  import opened Prelude

  type byte = b: int | 0 <= b < 256

  datatype Whence = SeekStart | SeekCurrent | SeekEnd

  datatype Op = Read(n: nat) | Seek(offset: int, whence: Whence) | Bytes | Close

  datatype Reply =
    | Data(bytes: seq<byte>)      // Read returned bytes, or Bytes returned the content
    | Eof
    | Position(pos: int)
    | BadSeek                     // negative position
    | Closed                      // ErrStorageClosed
    | Done

  // -------------------------------------------------------- specification

  /** What a storage is to its user: the content, a cursor, and whether it was closed. */
  datatype Body = Body(content: seq<byte>, cursor: nat, closed: bool)

  function SeekTarget(size: nat, cursor: nat, offset: int, whence: Whence): int {
    match whence case SeekStart => offset case SeekCurrent => cursor + offset case SeekEnd => size + offset
  }

  /** At most n bytes from the cursor on. */
  function Window(content: seq<byte>, cursor: nat, n: nat): seq<byte> {
    if cursor >= |content| then []
    else if cursor + n > |content| then content[cursor..]
    else content[cursor..cursor + n]
  }

  /** One call; emptyAtEnd is what an empty read answers at the end of the content. */
  function Serve(b: Body, op: Op, emptyAtEnd: Reply): (Reply, Body) {
    if b.closed then (if op.Close? then (Done, b) else (Reply.Closed, b))
    else
      match op
      case Read(n) =>
        if b.cursor >= |b.content| then (if n == 0 then emptyAtEnd else Eof, b)
        else (Data(Window(b.content, b.cursor, n)), b.(cursor := b.cursor + |Window(b.content, b.cursor, n)|))
      case Seek(offset, whence) =>
        var target := SeekTarget(|b.content|, b.cursor, offset, whence);
        if target < 0 then (BadSeek, b) else (Position(target), b.(cursor := target))
      case Bytes => (Data(b.content), b)
      case Close => (Done, b.(closed := true))
  }

  function Replies(b: Body, ops: seq<Op>, emptyAtEnd: Reply): seq<Reply>
    decreases |ops|
  {
    if ops == [] then []
    else
      var (reply, b') := Serve(b, ops[0], emptyAtEnd);
      [reply] + Replies(b', ops[1..], emptyAtEnd)
  }

  /** bytes.Reader reports the end to an empty read, os.File does not. */
  const IN_MEMORY := Eof
  const ON_DISK := Data([])

  // --------------------------------------------------------------- counters

  datatype Stats = Stats(diskFiles: int, diskBytes: int, memoryBuffers: int, memoryBytes: int)

  function ClampedSub(x: int, y: int): int {
    if x - y < 0 then 0 else x - y
  }

  /** The global diskCacheStats. */
  class Counters {
    var stats: Stats

    constructor ()
      ensures stats == Stats(0, 0, 0, 0)
    {
      stats := Stats(0, 0, 0, 0);
    }

    method IncrementDiskFiles(size: int)
      modifies this
      ensures stats == old(stats).(diskFiles := old(stats).diskFiles + 1, diskBytes := old(stats).diskBytes + size)
    {
      stats := stats.(diskFiles := stats.diskFiles + 1);
      stats := stats.(diskBytes := stats.diskBytes + size);
    }

    method DecrementDiskFiles(size: int)
      modifies this
      ensures stats
           == old(stats).(diskFiles := ClampedSub(old(stats).diskFiles, 1),
                          diskBytes := ClampedSub(old(stats).diskBytes, size))
    {
      stats := stats.(diskFiles := stats.diskFiles - 1);
      if stats.diskFiles < 0 { stats := stats.(diskFiles := 0); }
      stats := stats.(diskBytes := stats.diskBytes - size);
      if stats.diskBytes < 0 { stats := stats.(diskBytes := 0); }
    }

    method IncrementMemoryBuffers(size: int)
      modifies this
      ensures stats
          == old(stats).(memoryBuffers := old(stats).memoryBuffers + 1, memoryBytes := old(stats).memoryBytes + size)
    {
      stats := stats.(memoryBuffers := stats.memoryBuffers + 1);
      stats := stats.(memoryBytes := stats.memoryBytes + size);
    }

    method DecrementMemoryBuffers(size: int)
      modifies this
      ensures stats
          == old(stats).(memoryBuffers := old(stats).memoryBuffers - 1, memoryBytes := old(stats).memoryBytes - size)
    {
      stats := stats.(memoryBuffers := stats.memoryBuffers - 1);
      stats := stats.(memoryBytes := stats.memoryBytes - size);
    }
  }

  /** The counters after a storage of one size is closed for the first time. */
  function Release(stats: Stats, onDisk: bool, size: int): Stats {
    if onDisk
    then stats.(diskFiles := ClampedSub(stats.diskFiles, 1), diskBytes := ClampedSub(stats.diskBytes, size))
    else stats.(memoryBuffers := stats.memoryBuffers - 1, memoryBytes := stats.memoryBytes - size)
  }

  function Acquire(stats: Stats, onDisk: bool, size: int): Stats {
    if onDisk
    then stats.(diskFiles := stats.diskFiles + 1, diskBytes := stats.diskBytes + size)
    else stats.(memoryBuffers := stats.memoryBuffers + 1, memoryBytes := stats.memoryBytes + size)
  }

  // --------------------------------------------------------------- storages

  /** memoryStorage over a bytes.Reader. */
  class MemoryStorage {
    const data: seq<byte>
    var readerPos: nat
    var closed: bool

    ghost function Model(): Body
      reads this
    {
      Body(data, readerPos, closed)
    }

    constructor (data: seq<byte>, counters: Counters)
      modifies counters
      ensures Model() == Body(data, 0, false)
      ensures counters.stats == Acquire(old(counters.stats), false, |data|)
    {
      this.data := data;
      readerPos, closed := 0, false;
      new;
      counters.IncrementMemoryBuffers(|data|);
    }

    method Call(op: Op, counters: Counters) returns (reply: Reply)
      modifies this, counters
      ensures (reply, Model()) == Serve(old(Model()), op, IN_MEMORY)
      ensures counters.stats
           == if op.Close? && !old(closed) then Release(old(counters.stats), false, |data|) else old(counters.stats)
    {
      match op {
        case Read(n) =>
          if closed { return Reply.Closed; }
          if readerPos >= |data| { return Eof; }
          var m := if n > |data| - readerPos then |data| - readerPos else n;
          reply := Data(data[readerPos..readerPos + m]);
          assert data[readerPos..readerPos + m] == Window(data, readerPos, n);
          readerPos := readerPos + m;
        case Seek(offset, whence) =>
          if closed { return Reply.Closed; }
          var abs: int;
          match whence {
            case SeekStart => abs := offset;
            case SeekCurrent => abs := readerPos + offset;
            case SeekEnd => abs := |data| + offset;
          }
          if abs < 0 { return BadSeek; }
          readerPos := abs;
          return Position(abs);
        case Bytes =>
          if closed { return Reply.Closed; }
          return Data(data);
        case Close =>
          if !closed {
            closed := true;
            counters.DecrementMemoryBuffers(|data|);
          }
          return Done;
      }
    }
  }

  /** diskStorage over an os.File. */
  class DiskStorage {
    const file: seq<byte>
    const size: nat
    var offset: nat
    var closed: bool

    ghost predicate Valid()
      reads this
    {
      size == |file|
    }

    ghost function Model(): Body
      reads this
    {
      Body(file, offset, closed)
    }

    constructor (written: seq<byte>, counters: Counters)
      modifies counters
      ensures Valid() && Model() == Body(written, 0, false)
      ensures counters.stats == Acquire(old(counters.stats), true, |written|)
    {
      file, size := written, |written|;
      offset, closed := 0, false;
      new;
      counters.IncrementDiskFiles(|written|);
    }

    method FileRead(n: nat) returns (got: seq<byte>)
      modifies this`offset
      ensures got == Window(file, old(offset), n) && offset == old(offset) + |got|
    {
      if offset >= |file| { return []; }
      var m := if n > |file| - offset then |file| - offset else n;
      got := file[offset..offset + m];
      offset := offset + m;
    }

    method FileSeek(delta: int, whence: Whence) returns (pos: int)
      modifies this`offset
      ensures pos == SeekTarget(|file|, old(offset), delta, whence)
      ensures offset == if pos < 0 then old(offset) else pos
    {
      match whence {
        case SeekStart => pos := delta;
        case SeekCurrent => pos := offset + delta;
        case SeekEnd => pos := |file| + delta;
      }
      if pos >= 0 { offset := pos; }
    }

    method Call(op: Op, counters: Counters) returns (reply: Reply)
      requires Valid()
      modifies this, counters
      ensures Valid()
      ensures (reply, Model()) == Serve(old(Model()), op, ON_DISK)
      ensures counters.stats
           == if op.Close? && !old(closed) then Release(old(counters.stats), true, size) else old(counters.stats)
    {
      match op {
        case Read(n) =>
          if closed { return Reply.Closed; }
          var got := FileRead(n);
          // os.File reports the end when a non-empty read gets nothing.
          return if |got| == 0 && n > 0 then Eof else Data(got);
        case Seek(delta, whence) =>
          if closed { return Reply.Closed; }
          var pos := FileSeek(delta, whence);
          return if pos < 0 then BadSeek else Position(pos);
        case Bytes =>
          if closed { return Reply.Closed; }
          var currentPos := FileSeek(0, SeekCurrent);
          var _ := FileSeek(0, SeekStart);
          var data := FileRead(size);
          var _ := FileSeek(currentPos, SeekStart);
          assert data == file;
          return Data(data);
        case Close =>
          if !closed {
            closed := true;
            counters.DecrementDiskFiles(size);
          }
          return Done;
      }
    }
  }

  // ------------------------------------------------- what a user relies on

  /** A read below the end gets the next bytes, as many as are asked for and there, and moves the cursor behind
      them; at the end it gets none. */
  lemma ReadGets(b: Body, n: nat, emptyAtEnd: Reply)
    requires !b.closed && n > 0
    ensures var (reply, after) := Serve(b, Read(n), emptyAtEnd);
            if b.cursor < |b.content| then
              && reply.Data?
              && |reply.bytes| == (if n < |b.content| - b.cursor then n else |b.content| - b.cursor)
              && (forall j :: 0 <= j < |reply.bytes| ==> reply.bytes[j] == b.content[b.cursor + j])
              && after == Body(b.content, b.cursor + |reply.bytes|, false)
            else reply == Eof && after == b
  {
  }

  /** A seek goes to the offset from the start, the cursor or the end, also beyond the end, but not before the
      start. */
  lemma SeekGoes(b: Body, offset: int, emptyAtEnd: Reply)
    requires !b.closed
    ensures Serve(b, Seek(offset, SeekStart), emptyAtEnd)
         == if offset >= 0 then (Position(offset), Body(b.content, offset, false)) else (BadSeek, b)
    ensures Serve(b, Seek(offset, SeekCurrent), emptyAtEnd)
         == if b.cursor + offset >= 0 then (Position(b.cursor + offset), Body(b.content, b.cursor + offset, false))
            else (BadSeek, b)
    ensures Serve(b, Seek(offset, SeekEnd), emptyAtEnd)
         == if |b.content| + offset >= 0
            then (Position(|b.content| + offset), Body(b.content, |b.content| + offset, false))
            else (BadSeek, b)
  {
  }

  /** Bytes gives the whole content and leaves the cursor; after Close every call but Close fails. */
  lemma BytesAndClose(b: Body, op: Op, emptyAtEnd: Reply)
    ensures !b.closed ==> Serve(b, Bytes, emptyAtEnd) == (Data(b.content), b)
    ensures Serve(b, Close, emptyAtEnd) == (Done, Body(b.content, b.cursor, true))
    ensures b.closed && op != Close ==> Serve(b, op, emptyAtEnd) == (Reply.Closed, b)
  {
  }

  function Rest(content: seq<byte>, cursor: nat): seq<byte> {
    if cursor < |content| then content[cursor..] else []
  }

  /** The bytes of a read, in front of the rest behind them. */
  lemma ReadThenRest(content: seq<byte>, cursor: nat, bytes: seq<byte>)
    requires cursor + |bytes| <= |content| && forall j :: 0 <= j < |bytes| ==> bytes[j] == content[cursor + j]
    ensures Rest(content, cursor) == bytes + Rest(content, cursor + |bytes|)
  {
  }

  /** A reply to a read, between what was left before and what is left now. */
  ghost predicate Takes(reply: Reply, before: seq<byte>, left: seq<byte>) {
    if before == [] then reply == Eof && left == []
    else reply.Data? && reply.bytes != [] && before == reply.bytes + left
  }

  lemma ReadTakes(b: Body, n: nat, emptyAtEnd: Reply)
    requires !b.closed && n > 0
    ensures var (reply, after) := Serve(b, Read(n), emptyAtEnd);
            !after.closed && Takes(reply, Rest(b.content, b.cursor), Rest(b.content, after.cursor))
  {
    ReadGets(b, n, emptyAtEnd);
    var (reply, after) := Serve(b, Read(n), emptyAtEnd);
    if b.cursor < |b.content| { ReadThenRest(b.content, b.cursor, reply.bytes); }
  }

  method ReadMemory(m: MemoryStorage, n: nat, counters: Counters) returns (reply: Reply)
    requires !m.closed && n > 0
    modifies m, counters
    ensures !m.closed && Takes(reply, Rest(m.data, old(m.readerPos)), Rest(m.data, m.readerPos))
  {
    ReadTakes(m.Model(), n, IN_MEMORY);
    reply := m.Call(Read(n), counters);
  }

  method ReadDisk(d: DiskStorage, n: nat, counters: Counters) returns (reply: Reply)
    requires d.Valid() && !d.closed && n > 0
    modifies d, counters
    ensures d.Valid() && !d.closed && Takes(reply, Rest(d.file, old(d.offset)), Rest(d.file, d.offset))
  {
    ReadTakes(d.Model(), n, ON_DISK);
    reply := d.Call(Read(n), counters);
  }

  lemma Regroup(got: seq<byte>, bytes: seq<byte>, left: seq<byte>)
    ensures got + (bytes + left) == (got + bytes) + left
  {
  }

  /** Reads of any positive sizes up to the end deliver the rest of the body, each byte once and in order. */
  method ReadMemoryToEnd(m: MemoryStorage, sizes: nat -> nat, counters: Counters) returns (got: seq<byte>)
    requires !m.closed && forall i :: sizes(i) > 0
    modifies m, counters
    ensures got == Rest(m.data, old(m.readerPos)) && !m.closed
  {
    got := [];
    ghost var all, left := Rest(m.data, m.readerPos), Rest(m.data, m.readerPos);
    var calls, atEnd := 0, false;
    while !atEnd
      invariant !m.closed && left == Rest(m.data, m.readerPos) && all == got + left
      invariant atEnd ==> left == []
      decreases |left|, !atEnd
    {
      var reply := ReadMemory(m, sizes(calls), counters);
      if reply.Data? {
        Regroup(got, reply.bytes, Rest(m.data, m.readerPos));
        got := got + reply.bytes;
      }
      left := Rest(m.data, m.readerPos);
      atEnd := reply == Eof;
      calls := calls + 1;
    }
  }

  method ReadDiskToEnd(d: DiskStorage, sizes: nat -> nat, counters: Counters) returns (got: seq<byte>)
    requires d.Valid() && !d.closed && forall i :: sizes(i) > 0
    modifies d, counters
    ensures got == Rest(d.file, old(d.offset)) && d.Valid() && !d.closed
  {
    got := [];
    ghost var all, left := Rest(d.file, d.offset), Rest(d.file, d.offset);
    var calls, atEnd := 0, false;
    while !atEnd
      invariant d.Valid() && !d.closed && left == Rest(d.file, d.offset) && all == got + left
      invariant atEnd ==> left == []
      decreases |left|, !atEnd
    {
      var reply := ReadDisk(d, sizes(calls), counters);
      if reply.Data? {
        Regroup(got, reply.bytes, Rest(d.file, d.offset));
        got := got + reply.bytes;
      }
      left := Rest(d.file, d.offset);
      atEnd := reply == Eof;
      calls := calls + 1;
    }
  }

  // ----------------------------------------------- the back ends are alike

  /** Somewhere in the run an open storage gets an empty read at or past its end. */
  predicate EmptyReadAtEnd(b: Body, ops: seq<Op>)
    decreases |ops|
  {
    && ops != []
    && ((!b.closed && ops[0] == Read(0) && b.cursor >= |b.content|)
       || EmptyReadAtEnd(Serve(b, ops[0], Eof).1, ops[1..]))
  }

  /** Memory and disk storage answer every run of calls alike, if and only if it has no empty read at the end. */
  lemma {:induction false} SameRepliesIff(b: Body, ops: seq<Op>)
    ensures Replies(b, ops, IN_MEMORY) == Replies(b, ops, ON_DISK) <==> !EmptyReadAtEnd(b, ops)
    decreases |ops|
  {
    if ops != [] {
      var (m, b1) := Serve(b, ops[0], IN_MEMORY);
      var (d, b2) := Serve(b, ops[0], ON_DISK);
      assert b1 == b2 && (m == d <==> !(!b.closed && ops[0] == Read(0) && b.cursor >= |b.content|));
      SameRepliesIff(b1, ops[1..]);
      var ms, ds := Replies(b, ops, IN_MEMORY), Replies(b, ops, ON_DISK);
      assert ms[0] == m && ms[1..] == Replies(b1, ops[1..], IN_MEMORY);
      assert ds[0] == d && ds[1..] == Replies(b1, ops[1..], ON_DISK);
    }
  }

  lemma RepliesAt(b: Body, ops: seq<Op>, i: nat, past: seq<Reply>, emptyAtEnd: Reply)
    requires i < |ops|
    ensures past + Replies(b, ops[i..], emptyAtEnd)
         == (past + [Serve(b, ops[i], emptyAtEnd).0])
           + Replies(Serve(b, ops[i], emptyAtEnd).1, ops[i + 1..], emptyAtEnd)
  {
  }

  /** Driving the two objects through one run gives those replies. */
  method DriveBoth(mem: MemoryStorage, disk: DiskStorage, ops: seq<Op>, counters: Counters)
    returns (m: seq<Reply>, d: seq<Reply>)
    requires disk.Valid() && mem.Model() == disk.Model()
    modifies mem, disk, counters
    ensures m == Replies(old(mem.Model()), ops, IN_MEMORY) && d == Replies(old(mem.Model()), ops, ON_DISK)
    ensures m == d <==> !EmptyReadAtEnd(old(mem.Model()), ops)
  {
    ghost var start := mem.Model();
    m, d := [], [];
    assert ops[0..] == ops;
    for i := 0 to |ops|
      invariant disk.Valid() && mem.Model() == disk.Model()
      invariant m + Replies(mem.Model(), ops[i..], IN_MEMORY) == Replies(start, ops, IN_MEMORY)
      invariant d + Replies(mem.Model(), ops[i..], ON_DISK) == Replies(start, ops, ON_DISK)
    {
      RepliesAt(mem.Model(), ops, i, m, IN_MEMORY);
      RepliesAt(mem.Model(), ops, i, d, ON_DISK);
      var reply := mem.Call(ops[i], counters);
      var reply' := disk.Call(ops[i], counters);
      m, d := m + [reply], d + [reply'];
    }
    SameRepliesIff(start, ops);
  }

  // --------------------------------------------------------------- creation

  datatype Config = Config(enabled: bool, thresholdMB: int, maxSizeMB: int)

  const MB := 1_048_576

  /** IsDiskCacheAvailable */
  predicate Available(cfg: Config, stats: Stats, size: int) {
    cfg.enabled && stats.diskBytes + size <= cfg.maxSizeMB * MB
  }

  predicate WantsDisk(cfg: Config, stats: Stats, size: int) {
    cfg.enabled && size >= cfg.thresholdMB * MB && Available(cfg, stats, size)
  }

  datatype Storage = InMemory(m: MemoryStorage) | OnDisk(d: DiskStorage)

  datatype Failure = TooLarge | DiskFailed

  /** Whether a stream of n bytes is stored, and where; fileOk says whether a cache file can be made. */
  function Placement(cfg: Config, stats: Stats, n: nat, contentLength: int, maxBytes: int,
                     fileOk: bool): Result<bool, Failure> {
    if contentLength > 0 && WantsDisk(cfg, stats, contentLength) then
      if !fileOk then Err(DiskFailed) else if n > maxBytes then Err(TooLarge) else Ok(true)
    else if n > maxBytes then Err(TooLarge)
    else Ok(WantsDisk(cfg, stats, n) && fileOk)
  }

  /** io.LimitReader */
  function Limited(stream: seq<byte>, limit: int): seq<byte> {
    if limit <= 0 then [] else if limit < |stream| then stream[..limit] else stream
  }

  method CreateBodyStorage(data: seq<byte>, cfg: Config, fileOk: bool, counters: Counters) returns (s: Storage)
    modifies counters
    ensures s.OnDisk? <==> WantsDisk(cfg, old(counters.stats), |data|) && fileOk
    ensures s.InMemory? ==> fresh(s.m) && s.m.Model() == Body(data, 0, false)
    ensures s.OnDisk? ==> fresh(s.d) && s.d.Valid() && s.d.Model() == Body(data, 0, false)
    ensures counters.stats == Acquire(old(counters.stats), s.OnDisk?, |data|)
  {
    var size := |data|;
    if cfg.enabled && size >= cfg.thresholdMB * MB && Available(cfg, counters.stats, size) && fileOk {
      var d := new DiskStorage(data, counters);
      return OnDisk(d);
    }
    var m := new MemoryStorage(data, counters);
    return InMemory(m);
  }

  /** CreateBodyStorageFromReader: the reader is cut off one byte behind the limit, so that one byte too
      many shows.  The body is the whole stream or there is no body. */
  method CreateFromReader(stream: seq<byte>, contentLength: int, maxBytes: int, cfg: Config, fileOk: bool,
                          counters: Counters)
    returns (r: Result<Storage, Failure>)
    modifies counters
    ensures r.Err? ==> counters.stats == old(counters.stats)
    ensures match Placement(cfg, old(counters.stats), |stream|, contentLength, maxBytes, fileOk)
            case Err(failure) => r == Err(failure)
            case Ok(disk) =>
              r.Ok? && r.value.OnDisk? == disk && counters.stats == Acquire(old(counters.stats), disk, |stream|)
    ensures r.Ok? && r.value.InMemory? ==> fresh(r.value.m) && r.value.m.Model() == Body(stream, 0, false)
    ensures r.Ok? && r.value.OnDisk? ==>
        fresh(r.value.d) && r.value.d.Valid() && r.value.d.Model() == Body(stream, 0, false)
  {
    var data := Limited(stream, maxBytes + 1);
    assert |data| > maxBytes <==> |stream| > maxBytes;
    if cfg.enabled && contentLength > 0 && contentLength >= cfg.thresholdMB * MB
       && Available(cfg, counters.stats, contentLength) {
      if !fileOk { return Err(DiskFailed); }
      if |data| > maxBytes { return Err(TooLarge); }
      var d := new DiskStorage(data, counters);
      return Ok(OnDisk(d));
    }
    if |data| > maxBytes { return Err(TooLarge); }
    var s := CreateBodyStorage(data, cfg, fileOk, counters);
    return Ok(s);
  }

  /** With a working disk the only failure is a stream longer than the limit. */
  lemma TooLargeIff(cfg: Config, stats: Stats, n: nat, contentLength: int, maxBytes: int)
    ensures Placement(cfg, stats, n, contentLength, maxBytes, true) == Err(TooLarge) <==> n > maxBytes
    ensures Placement(cfg, stats, n, contentLength, maxBytes, true).Ok? <==> n <= maxBytes
  {
  }

  /** A body goes to disk if the cache is on, a file can be made, and its declared or else its real length reaches
      the threshold and fits, in megabytes of 1048576 bytes; creation fails for want of a file only where the
      declared length wanted one. */
  lemma PlacedOnDiskIff(cfg: Config, stats: Stats, n: nat, contentLength: int, maxBytes: int, fileOk: bool)
    ensures var min, max := cfg.thresholdMB * 1048576, cfg.maxSizeMB * 1048576;
            var declared := contentLength > 0 && min <= contentLength && stats.diskBytes + contentLength <= max;
            var placed := Placement(cfg, stats, n, contentLength, maxBytes, fileOk);
            && (placed == Ok(true)
                <==> cfg.enabled && fileOk && n <= maxBytes && (declared || (min <= n && stats.diskBytes + n <= max)))
            && (placed == Err(DiskFailed) <==> cfg.enabled && declared && !fileOk)
  {
  }

  // -------------------------------------------------------------- accounting

  /** A storage as the counters see it. */
  datatype Handle = Handle(onDisk: bool, size: nat, closed: bool)

  datatype Event =
    | Create(n: nat, contentLength: int, maxBytes: int, fileOk: bool)
    | CloseHandle(i: nat)

  datatype Ledger = Ledger(stats: Stats, handles: seq<Handle>)

  function Step(cfg: Config, l: Ledger, e: Event): Ledger {
    match e
    case Create(n, contentLength, maxBytes, fileOk) =>
      (match Placement(cfg, l.stats, n, contentLength, maxBytes, fileOk)
       case Err(_) => l
       case Ok(disk) => Ledger(Acquire(l.stats, disk, n), l.handles + [Handle(disk, n, false)]))
    case CloseHandle(i) =>
      if i >= |l.handles| || l.handles[i].closed then l
      else
        var h := l.handles[i];
        Ledger(Release(l.stats, h.onDisk, h.size), l.handles[i := h.(closed := true)])
  }

  function Run(cfg: Config, l: Ledger, events: seq<Event>): Ledger
    decreases |events|
  {
    if events == [] then l else Run(cfg, Step(cfg, l, events[0]), events[1..])
  }

  const EMPTY := Ledger(Stats(0, 0, 0, 0), [])

  predicate Counts(h: Handle, onDisk: bool) {
    h.onDisk == onDisk && !h.closed
  }

  function OpenCount(handles: seq<Handle>, onDisk: bool): nat {
    if handles == [] then 0 else (if Counts(handles[0], onDisk) then 1 else 0) + OpenCount(handles[1..], onDisk)
  }

  function OpenBytes(handles: seq<Handle>, onDisk: bool): nat {
    if handles == [] then 0
    else (if Counts(handles[0], onDisk) then handles[0].size else 0) + OpenBytes(handles[1..], onDisk)
  }

  lemma {:induction false} OpenAppend(handles: seq<Handle>, h: Handle, onDisk: bool)
    ensures OpenCount(handles + [h], onDisk) == OpenCount(handles, onDisk) + if Counts(h, onDisk) then 1 else 0
    ensures OpenBytes(handles + [h], onDisk) == OpenBytes(handles, onDisk) + if Counts(h, onDisk) then h.size else 0
  {
    if handles == [] {
      assert [] + [h] == [h];
    } else {
      assert (handles + [h])[1..] == handles[1..] + [h];
      OpenAppend(handles[1..], h, onDisk);
    }
  }

  lemma {:induction false} OpenUpdate(handles: seq<Handle>, i: nat, h: Handle, onDisk: bool)
    requires i < |handles|
    ensures OpenCount(handles[i := h], onDisk)
         == OpenCount(handles, onDisk) - (if Counts(handles[i], onDisk) then 1 else 0)
           + (if Counts(h, onDisk) then 1 else 0)
    ensures OpenBytes(handles[i := h], onDisk)
         == OpenBytes(handles, onDisk) - (if Counts(handles[i], onDisk) then handles[i].size else 0)
           + (if Counts(h, onDisk) then h.size else 0)
  {
    if i == 0 {
      assert handles[i := h][1..] == handles[1..];
    } else {
      assert handles[i := h][1..] == handles[1..][i - 1 := h];
      OpenUpdate(handles[1..], i - 1, h, onDisk);
    }
  }

  /** The counters are the number and total size of the open storages of each kind. */
  predicate Balanced(l: Ledger) {
    && l.stats.diskFiles == OpenCount(l.handles, true) && l.stats.diskBytes == OpenBytes(l.handles, true)
    && l.stats.memoryBuffers == OpenCount(l.handles, false) && l.stats.memoryBytes == OpenBytes(l.handles, false)
  }

  lemma StepBalances(cfg: Config, l: Ledger, e: Event)
    requires Balanced(l)
    ensures Balanced(Step(cfg, l, e))
  {
    match e
    case Create(n, contentLength, maxBytes, fileOk) =>
      var placed := Placement(cfg, l.stats, n, contentLength, maxBytes, fileOk);
      if placed.Ok? {
        OpenAppend(l.handles, Handle(placed.value, n, false), true);
        OpenAppend(l.handles, Handle(placed.value, n, false), false);
      }
    case CloseHandle(i) =>
      if i < |l.handles| {
        OpenUpdate(l.handles, i, l.handles[i].(closed := true), true);
        OpenUpdate(l.handles, i, l.handles[i].(closed := true), false);
      }
  }

  /** In every run the counters are exact, so the clamp at zero never changes a value. */
  lemma {:induction false} CountersExact(cfg: Config, l: Ledger, events: seq<Event>)
    requires Balanced(l)
    ensures Balanced(Run(cfg, l, events))
    decreases |events|
  {
    if events != [] {
      StepBalances(cfg, l, events[0]);
      CountersExact(cfg, Step(cfg, l, events[0]), events[1..]);
    }
  }

  lemma ClampNeverFires(cfg: Config, events: seq<Event>, i: nat)
    requires var l := Run(cfg, EMPTY, events); i < |l.handles| && Counts(l.handles[i], true)
    ensures var l := Run(cfg, EMPTY, events);
            && ClampedSub(l.stats.diskFiles, 1) == l.stats.diskFiles - 1
            && ClampedSub(l.stats.diskBytes, l.handles[i].size) == l.stats.diskBytes - l.handles[i].size
  {
    CountersExact(cfg, EMPTY, events);
    var l := Run(cfg, EMPTY, events);
    OpenUpdate(l.handles, i, l.handles[i].(closed := true), true);
  }

  /** The reader of a body that is streamed to disk delivers no more than was declared. */
  predicate Honest(e: Event) {
    e.Create? && e.contentLength > 0 ==> e.n <= e.contentLength
  }

  /** Then disk usage never exceeds the configured maximum. */
  lemma {:induction false} CapacityKept(cfg: Config, l: Ledger, events: seq<Event>)
    requires Balanced(l) && 0 <= cfg.maxSizeMB && l.stats.diskBytes <= cfg.maxSizeMB * MB
    requires forall i :: 0 <= i < |events| ==> Honest(events[i])
    ensures Run(cfg, l, events).stats.diskBytes <= cfg.maxSizeMB * MB
    decreases |events|
  {
    if events != [] {
      StepBalances(cfg, l, events[0]);
      CapacityKept(cfg, Step(cfg, l, events[0]), events[1..]);
    }
  }

  /** The condition is needed: a body declared as one byte that delivers two megabytes overruns a maximum of one. */
  lemma OverrunExample()
    ensures Run(Config(true, 0, 1), EMPTY, [Create(2 * MB, 1, 4 * MB, true)]).stats.diskBytes == 2 * MB
  {
  }

  lemma {:induction false} RunAppend(cfg: Config, l: Ledger, events: seq<Event>, e: Event)
    ensures Run(cfg, l, events + [e]) == Step(cfg, Run(cfg, l, events), e)
    decreases |events|
  {
    if events == [] {
      assert [] + [e] == [e] && [e][1..] == [];
    } else {
      assert (events + [e])[1..] == events[1..] + [e];
      RunAppend(cfg, Step(cfg, l, events[0]), events[1..], e);
    }
  }

  ghost predicate AllHonest(events: seq<Event>) {
    forall i :: 0 <= i < |events| ==> Honest(events[i])
  }

  /** After some run of honest bodies the event leaves more on disk than the maximum. */
  ghost predicate CanOverrun(cfg: Config, e: Event) {
    exists events :: AllHonest(events) && Run(cfg, EMPTY, events + [e]).stats.diskBytes > cfg.maxSizeMB * MB
  }

  /** The declared length is one that goes to disk and fits there, and the stream delivers more than that but
      no more than it may. */
  predicate Overruns(cfg: Config, e: Event) {
    && e.Create? && e.fileOk && cfg.enabled
    && 0 < e.contentLength && cfg.thresholdMB * MB <= e.contentLength <= cfg.maxSizeMB * MB
    && e.contentLength < e.n <= e.maxBytes
  }

  /** Honest bodies leave just the declared length free, so the rest is too much. */
  lemma OverrunHappens(cfg: Config, e: Event)
    requires Overruns(cfg, e)
    ensures CanOverrun(cfg, e)
  {
    var max := cfg.maxSizeMB * MB;
    var filler := Create(max - e.contentLength, max, max, true);
    RunAppend(cfg, EMPTY, [], filler);
    assert [] + [filler] == [filler];
    assert Placement(cfg, EMPTY.stats, filler.n, filler.contentLength, filler.maxBytes, true) == Ok(true);
    var filled := Run(cfg, EMPTY, [filler]);
    assert filled == Step(cfg, EMPTY, filler) && filled.stats.diskBytes == max - e.contentLength;
    RunAppend(cfg, EMPTY, [filler], e);
    assert Placement(cfg, filled.stats, e.n, e.contentLength, e.maxBytes, e.fileOk) == Ok(true);
    assert AllHonest([filler]);
  }

  /** A body can push the usage beyond the maximum if and only if it is one that overruns its declared length. */
  lemma OverrunIff(cfg: Config, e: Event)
    requires 0 <= cfg.maxSizeMB
    ensures CanOverrun(cfg, e) <==> Overruns(cfg, e)
  {
    if Overruns(cfg, e) {
      OverrunHappens(cfg, e);
    }
    if CanOverrun(cfg, e) {
      var events :| AllHonest(events) && Run(cfg, EMPTY, events + [e]).stats.diskBytes > cfg.maxSizeMB * MB;
      CapacityKept(cfg, EMPTY, events);
      CountersExact(cfg, EMPTY, events);
      RunAppend(cfg, EMPTY, events, e);
      OverrunningStep(cfg, Run(cfg, EMPTY, events), e);
    }
  }

  lemma OverrunningStep(cfg: Config, l: Ledger, e: Event)
    requires Balanced(l) && l.stats.diskBytes <= cfg.maxSizeMB * MB < Step(cfg, l, e).stats.diskBytes
    ensures Overruns(cfg, e)
  {
    StepBalances(cfg, l, e);
  }

  // ------------------------------------------------- the ledger on objects

  /** The storage is what the ledger has of it. */
  ghost predicate Reflects(s: Storage, h: Handle)
    reads if s.InMemory? then {s.m as object} else {s.d as object}
  {
    match s
    case InMemory(m) => !h.onDisk && |m.data| == h.size && m.closed == h.closed
    case OnDisk(d) => h.onDisk && d.size == h.size && d.closed == h.closed && d.Valid()
  }

  function ObjectOf(s: Storage): object {
    match s case InMemory(m) => m case OnDisk(d) => d
  }

  method CloseStorage(s: Storage, counters: Counters, ghost h: Handle)
    requires Reflects(s, h)
    modifies ObjectOf(s), counters
    ensures Reflects(s, h.(closed := true))
    ensures counters.stats == if h.closed then old(counters.stats) else Release(old(counters.stats), h.onDisk, h.size)
  {
    match s {
      case InMemory(m) => var _ := m.Call(Close, counters);
      case OnDisk(d) => var _ := d.Call(Close, counters);
    }
  }

  ghost predicate AllReflect(storages: seq<Storage>, handles: seq<Handle>)
    reads set i | 0 <= i < |storages| :: ObjectOf(storages[i])
  {
    |storages| == |handles| && forall i :: 0 <= i < |storages| ==> Reflects(storages[i], handles[i])
  }

  ghost predicate Apart(storages: seq<Storage>) {
    forall i, j :: 0 <= i < j < |storages| ==> ObjectOf(storages[i]) != ObjectOf(storages[j])
  }

  /** The storages a driver has made, and what the ledger has of them. */
  ghost predicate Own(storages: seq<Storage>, handles: seq<Handle>, counters: Counters)
    reads set i | 0 <= i < |storages| :: ObjectOf(storages[i])
  {
    && AllReflect(storages, handles) && Apart(storages)
    && forall i :: 0 <= i < |storages| ==> ObjectOf(storages[i]) != counters
  }

  /** One event on real storages is one step of the ledger. */
  method DriveEvent(cfg: Config, e: Event, stream: seq<byte>, before: seq<Storage>, ghost handles: seq<Handle>,
                    counters: Counters)
    returns (storages: seq<Storage>, ghost handles': seq<Handle>)
    requires Own(before, handles, counters) && (e.Create? ==> |stream| == e.n)
    modifies counters, set i | 0 <= i < |before| :: ObjectOf(before[i])
    ensures Own(storages, handles', counters)
    ensures forall i :: 0 <= i < |storages| ==>
              (i < |before| && storages[i] == before[i]) || fresh(ObjectOf(storages[i]))
    ensures Ledger(counters.stats, handles') == Step(cfg, Ledger(old(counters.stats), handles), e)
  {
    storages, handles' := before, handles;
    match e {
      case Create(n, contentLength, maxBytes, fileOk) =>
        var r := CreateFromReader(stream, contentLength, maxBytes, cfg, fileOk, counters);
        if r.Ok? {
          storages := storages + [r.value];
          handles' := handles' + [Handle(r.value.OnDisk?, n, false)];
        }
      case CloseHandle(k) =>
        if k < |storages| {
          CloseStorage(storages[k], counters, handles[k]);
          handles' := if handles[k].closed then handles else handles[k := handles[k].(closed := true)];
        }
    }
  }

  lemma RunNext(cfg: Config, l: Ledger, events: seq<Event>, i: nat)
    requires i < |events|
    ensures Run(cfg, l, events[i..]) == Run(cfg, Step(cfg, l, events[i]), events[i + 1..])
  {
    assert events[i..][1..] == events[i + 1..];
  }

  /** Creating and closing real storages, each any number of times, moves the global counters as the ledger says. */
  method DriveStorages(cfg: Config, events: seq<Event>, streams: seq<seq<byte>>, counters: Counters)
    returns (storages: seq<Storage>)
    requires |streams| == |events| && forall i :: 0 <= i < |events| && events[i].Create? ==> |streams[i]| == events[i].n
    requires counters.stats == EMPTY.stats
    modifies counters
    ensures AllReflect(storages, Run(cfg, EMPTY, events).handles)
    ensures counters.stats == Run(cfg, EMPTY, events).stats && Balanced(Run(cfg, EMPTY, events))
  {
    storages := [];
    ghost var handles: seq<Handle> := [];
    assert events[0..] == events;
    for i := 0 to |events|
      invariant Own(storages, handles, counters)
      invariant forall j :: 0 <= j < |storages| ==> fresh(ObjectOf(storages[j]))
      invariant Run(cfg, Ledger(counters.stats, handles), events[i..]) == Run(cfg, EMPTY, events)
    {
      RunNext(cfg, Ledger(counters.stats, handles), events, i);
      storages, handles := DriveEvent(cfg, events[i], streams[i], storages, handles, counters);
    }
    CountersExact(cfg, EMPTY, events);
  }
}
