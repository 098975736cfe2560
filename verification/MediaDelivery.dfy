/**
 Delivery of recordings: a client walks a camera's files by following the cursor of each reply while
 the files grow, are closed and are followed by new ones.
 */
module MediaDelivery {
  import opened Bytes
  import opened MediaCursor

  const ASSUMED_BLOCK_MS: int := 2000
  const MAX_FRAGMENT_BYTES: nat := 4 * 1024 * 1024
  const DEFAULT_BLOCKS: nat := 4

  datatype Block = Block(start: int, keyframe: bool, data: seq<byte>)

  /** A recording as listed: its blocks so far, whether it was closed, and the end estimated for it. */
  datatype File = File(name: string, blocks: seq<Block>, closed: bool, endMs: int)

  /** A camera's recordings in order of time. */
  type Library = seq<File>

  function Lower(s: string): (l: string)
    ensures |l| == |s|
  {
    seq(|s|, i requires 0 <= i < |s| => if 'A' <= s[i] <= 'Z' then (s[i] as int + 32) as char else s[i])
  }

  predicate SafeName(name: string) {
    4 <= |name| <= 255 && name[0] != '.' && Lower(name)[|name| - 4..] == ".vms"
    && forall i :: 0 <= i < |name| ==> IsDigit(name[i]) || 'a' <= Lower(name)[i] <= 'z' || name[i] in {'.', '_', '-'}
  }

  /** Wall-clock instants, far from the limits of 64 bits. */
  predicate Instant(t: int) {
    -0x4000_0000_0000_0000 <= t <= 0x4000_0000_0000_0000
  }

  ghost predicate Valid(lib: Library) {
    (forall i :: 0 <= i < |lib| ==>
      lib[i].blocks != [] && SafeName(lib[i].name) && |lib[i].blocks| < 0x8000_0000_0000_0000)
    && (forall i, k :: 0 <= i < |lib| && 0 <= k < |lib[i].blocks| ==> Instant(lib[i].blocks[k].start))
    && (forall i, j :: 0 <= i < j < |lib| ==> Lower(lib[i].name) != Lower(lib[j].name))
  }

  // ------------------------------------------------------------ growth

  /**
   What time may do to a library: blocks are appended to the last file while it is open, any file may
   be closed, new files come after the last.
   */
  ghost predicate Grows(a: Library, b: Library) {
    |a| <= |b|
    && forall i :: 0 <= i < |a| ==> FileGrows(a[i], b[i], i + 1 < |a|)
  }

  ghost predicate FileGrows(f: File, g: File, followed: bool) {
    f.name == g.name && f.blocks <= g.blocks
    && (f.closed ==> g.closed)
    && (f.closed || followed ==> g.blocks == f.blocks)
  }

  datatype Change = Append(block: Block) | Close(index: nat) | Create(file: File)

  predicate Allowed(lib: Library, c: Change) {
    match c
    case Append(_) => lib != [] && !lib[|lib| - 1].closed
    case Close(i) => i < |lib|
    case Create(_) => true
  }

  function Apply(lib: Library, c: Change): Library
    requires Allowed(lib, c)
  {
    match c
    case Append(b) => var n := |lib| - 1; lib[n := lib[n].(blocks := lib[n].blocks + [b])]
    case Close(i) => lib[i := lib[i].(closed := true)]
    case Create(f) => lib + [f]
  }

  /** Every single change is growth, and growth composes: so it covers any interleaving of changes. */
  lemma {:induction false} ChangeGrows(lib: Library, c: Change)
    requires Allowed(lib, c)
    ensures Grows(lib, Apply(lib, c))
  {
  }

  lemma {:induction false} GrowsReflexive(a: Library)
    ensures Grows(a, a)
  {
  }

  lemma {:induction false} GrowsTransitive(a: Library, b: Library, c: Library)
    requires Grows(a, b) && Grows(b, c)
    ensures Grows(a, c)
  {
    forall i | 0 <= i < |a|
      ensures FileGrows(a[i], c[i], i + 1 < |a|)
    {
      assert FileGrows(a[i], b[i], i + 1 < |a|) && FileGrows(b[i], c[i], i + 1 < |b|);
    }
  }

  // ------------------------------------------------------------ looking up

  function IndexFrom(lib: Library, name: string, i: nat): (at: Option<nat>)
    ensures at.Some? ==> i <= at.value < |lib| && lib[at.value].name == name
    ensures at.None? ==> forall k :: i <= k < |lib| ==> lib[k].name != name
    decreases |lib| - i
  {
    if i >= |lib| then None else if lib[i].name == name then Some(i) else IndexFrom(lib, name, i + 1)
  }

  /** Opening a file by the name a client gives. */
  function OpenByName(lib: Library, name: string): Option<nat> {
    if SafeName(name) then IndexFrom(lib, name, 0) else None
  }

  function PositionFrom(lib: Library, name: string, i: nat): (at: Option<nat>)
    ensures at.Some? ==> i <= at.value < |lib| && Lower(lib[at.value].name) == Lower(name)
    ensures at.None? ==> forall k :: i <= k < |lib| ==> Lower(lib[k].name) != Lower(name)
    decreases |lib| - i
  {
    if i >= |lib| then None
    else if Lower(lib[i].name) == Lower(name) then Some(i)
    else PositionFrom(lib, name, i + 1)
  }

  function StartOf(f: File): int {
    if f.blocks == [] then 0 else f.blocks[0].start
  }

  function FirstFrom(lib: Library, start: int, i: nat): (at: Option<nat>)
    ensures at.Some? ==> i <= at.value < |lib|
    decreases |lib| - i
  {
    if i >= |lib| then None else if StartOf(lib[i]) >= start then Some(i) else FirstFrom(lib, start, i + 1)
  }

  function Containing(lib: Library, t: int, i: nat): (at: Option<nat>)
    ensures at.Some? ==> i <= at.value < |lib|
    decreases |lib| - i
  {
    if i >= |lib| then None
    else if StartOf(lib[i]) <= t < lib[i].endMs then Some(i)
    else Containing(lib, t, i + 1)
  }

  /** The file holding an instant; else the first after it; after everything, the last. */
  function ResolveByTime(lib: Library, t: int): (at: Option<nat>)
    ensures at.Some? ==> at.value < |lib|
  {
    if Containing(lib, t, 0).Some? then Containing(lib, t, 0)
    else if FirstFrom(lib, t, 0).Some? then FirstFrom(lib, t, 0)
    else if lib == [] then None else Some(|lib| - 1)
  }

  /** The next of the list, and not the first after the (estimated) end. */
  function NextFile(lib: Library, current: string, currentEnd: int): (at: Option<nat>)
    ensures at.Some? ==> at.value < |lib|
  {
    match PositionFrom(lib, current, 0)
    case Some(i) => if i + 1 < |lib| then Some(i + 1) else None
    case None => FirstFrom(lib, currentEnd, 0)
  }

  /** How many leading blocks start at or before `t`. */
  function StartedBy(blocks: seq<Block>, t: int): (n: nat)
    ensures n <= |blocks|
  {
    if blocks == [] || blocks[0].start > t then 0 else 1 + StartedBy(blocks[1..], t)
  }

  function BlockAtTime(blocks: seq<Block>, t: int): (b: Option<nat>)
    ensures b.Some? ==> b.value < |blocks|
  {
    var n := StartedBy(blocks, t);
    if n == 0 then None else Some(n - 1)
  }

  function KeyframeAtOrBefore(blocks: seq<Block>, from: nat): (b: Option<nat>)
    requires from < |blocks|
    ensures b.Some? ==>
      b.value <= from && blocks[b.value].keyframe && forall k :: b.value < k <= from ==> !blocks[k].keyframe
    ensures b.None? ==> forall k :: 0 <= k <= from ==> !blocks[k].keyframe
  {
    if blocks[from].keyframe then Some(from) else if from == 0 then None else KeyframeAtOrBefore(blocks, from - 1)
  }

  // ------------------------------------------------------------ one reply

  /**
   What a client asks: to go on from a cursor, to start at an instant, or to stay with one file, there from a
   block.
   */
  datatype Request = Request(camera: string, file: Option<string>, cursor: Option<Cursor>, fromMs: Option<int>,
      fromBlock: Option<int>, blocks: nat, thin: bool)

  /**
   The files after the one found can be listed: the request names its camera, or it names no file and the camera
   is the file's own. A client that names a file names no camera.
   */
  predicate Lists(rq: Request) {
    rq.camera != "" || rq.file.None?
  }

  /** The library as three moments of one attempt find it: opening the file, reading its index, listing. */
  datatype Snap = Snap(info: Library, index: Library, list: Library)

  /** How reading the file itself goes: a status other than 200 fails; `avail` blocks can be located. */
  datatype Disk = Disk(status: nat, avail: nat, bodyOk: bool)

  datatype Reply =
    | Fail(status: nat)
    | Empty(growing: bool, cursor: Cursor)
    | Part(file: string, first: nat, count: nat, next: Option<Cursor>, growing: bool, discontinuity: bool, gapMs: int)

  /** How many blocks from `i` on go into a reply that already has `count` of `span` bytes. */
  function Taken(blocks: seq<Block>, i: nat, wanted: nat, thin: bool, avail: nat, count: nat, span: nat): nat
    decreases |blocks| - i
  {
    if i >= |blocks| || i >= avail then count
    else if count > 0 && !thin && span + |blocks[i].data| > MAX_FRAGMENT_BYTES then count
    else if count + 1 >= wanted then count + 1
    else Taken(blocks, i + 1, wanted, thin, avail, count + 1, span + |blocks[i].data|)
  }

  /** Bytes of `n` blocks from `first` on. */
  function ByteCount(blocks: seq<Block>, first: nat, n: nat): nat
    requires first + n <= |blocks|
  {
    if n == 0 then 0 else ByteCount(blocks, first, n - 1) + |blocks[first + n - 1].data|
  }

  /**
   A reply may have `n` blocks: as many are there and asked for, and, but for one alone or thinned, within the
   byte limit.
   */
  predicate MayTake(blocks: seq<Block>, first: nat, wanted: nat, thin: bool, avail: nat, n: nat) {
    n == 0
    || (first + n <= |blocks| && first + n <= avail && (n == 1 || n <= wanted)
        && (n == 1 || thin || ByteCount(blocks, first, n) <= MAX_FRAGMENT_BYTES))
  }

  lemma {:induction false} MayTakeFewer(blocks: seq<Block>, first: nat, wanted: nat, thin: bool, avail: nat, n: nat,
      m: nat)
    requires MayTake(blocks, first, wanted, thin, avail, n) && m <= n
    ensures MayTake(blocks, first, wanted, thin, avail, m)
    decreases n
  {
    if m < n {
      assert n > 1 ==> ByteCount(blocks, first, n) >= ByteCount(blocks, first, n - 1);
      hide ByteCount;
      MayTakeFewer(blocks, first, wanted, thin, avail, n - 1, m);
    }
  }

  /** What is taken is the most that may be. */
  lemma {:induction false} TakenIsMost(blocks: seq<Block>, first: nat, wanted: nat, thin: bool, avail: nat, count: nat)
    requires first + count <= |blocks| && MayTake(blocks, first, wanted, thin, avail, count)
      && (count > 0 ==> count < wanted)
    ensures var t := Taken(blocks, first + count, wanted, thin, avail, count, ByteCount(blocks, first, count));
      forall n: nat :: MayTake(blocks, first, wanted, thin, avail, n) <==> n <= t
    decreases |blocks| - count
  {
    var t := Taken(blocks, first + count, wanted, thin, avail, count, ByteCount(blocks, first, count));
    var i := first + count;
    if i < |blocks| && i < avail && (count == 0 || thin
      || ByteCount(blocks, first, count) + |blocks[i].data| <= MAX_FRAGMENT_BYTES) && count + 1 < wanted {
      assert ByteCount(blocks, first, count + 1) == ByteCount(blocks, first, count) + |blocks[i].data|;
      TakenIsMost(blocks, first, wanted, thin, avail, count + 1);
    } else {
      assert i < |blocks| ==> ByteCount(blocks, first, count + 1) == ByteCount(blocks, first, count) + |blocks[i].data|;
      hide ByteCount;
      assert MayTake(blocks, first, wanted, thin, avail, t) && !MayTake(blocks, first, wanted, thin, avail, t + 1);
      forall n: nat
        ensures MayTake(blocks, first, wanted, thin, avail, n) <==> n <= t
      {
        if n <= t {
          MayTakeFewer(blocks, first, wanted, thin, avail, t, n);
        } else if MayTake(blocks, first, wanted, thin, avail, n) {
          MayTakeFewer(blocks, first, wanted, thin, avail, n, t + 1);
        }
      }
    }
  }

  /** The loop that chooses the blocks of a reply: the longest stretch from `first` on that a reply may have. */
  method TakeBlocks(blocks: seq<Block>, first: nat, wanted: nat, thin: bool, avail: nat) returns (count: nat, last: nat)
    ensures count == Taken(blocks, first, wanted, thin, avail, 0, 0)
    ensures forall n: nat :: first <= |blocks| ==> (MayTake(blocks, first, wanted, thin, avail, n) <==> n <= count)
    ensures last == if count > 0 then first + count - 1 else first
  {
    if first <= |blocks| {
      TakenIsMost(blocks, first, wanted, thin, avail, 0);
    }
    hide MayTake;
    var i, span: nat := first, 0;
    last, count := first, 0;
    while i < |blocks|
      invariant first <= i && count == i - first
      invariant last == if count > 0 then first + count - 1 else first
      invariant Taken(blocks, first, wanted, thin, avail, 0, 0) == Taken(blocks, i, wanted, thin, avail, count, span)
    {
      if i >= avail || (count > 0 && !thin && span + |blocks[i].data| > MAX_FRAGMENT_BYTES) {
        break;
      }
      span := span + |blocks[i].data|;
      last := i;
      count := count + 1;
      if count >= wanted {
        return;
      }
      i := i + 1;
    }
  }

  function Wanted(rq: Request, maxBlocks: nat): nat {
    var w := if rq.blocks == 0 then DEFAULT_BLOCKS else rq.blocks;
    if w < maxBlocks then w else maxBlocks
  }

  /** The blocks from `first` on of file `i`, and the cursor to go on with. */
  function Deliver(rq: Request, maxBlocks: nat, s: Snap, info: File, blocks: seq<Block>, first: nat, disk: Disk): Reply
    requires first < |blocks|
  {
    var count := Taken(blocks, first, Wanted(rq, maxBlocks), rq.thin, disk.avail, 0, 0);
    if disk.status != 200 then Fail(disk.status)
    else if count == 0 then Fail(416)
    else if !rq.thin && !disk.bodyOk then Fail(500)
    else
      TakenBounds(blocks, first, Wanted(rq, maxBlocks), rq.thin, disk.avail, 0, 0);
      var last := first + count - 1;
      var end := if last < |blocks| - 1 then blocks[last + 1].start else blocks[last].start + ASSUMED_BLOCK_MS;
      var jump := rq.cursor.None? || rq.cursor.value.newFile || Lower(rq.cursor.value.file) != Lower(info.name);
      var part := Part(info.name, first, count, None, !info.closed, jump, 0);
      if last < |blocks| - 1 then
        part.(next := Some(Cursor(end, info.name, last + 1, false, false)))
      else if !info.closed then
        part.(next := Some(Cursor(end, info.name, last + 1, false, true)))
      else
        match if Lists(rq) then NextFile(s.list, info.name, end) else None
        case None => part
        case Some(n) =>
          var f := s.list[n];
          part.(next := Some(Cursor(StartOf(f), f.name, 0, true, false)),
                gapMs := if StartOf(f) > end then StartOf(f) - end else 0)
  }

  lemma {:induction false} TakenBounds(blocks: seq<Block>, i: nat, wanted: nat, thin: bool, avail: nat, count: nat,
      span: nat)
    requires i <= |blocks|
    ensures count <= Taken(blocks, i, wanted, thin, avail, count, span) <= count + |blocks| - i
    ensures i < |blocks| && i < avail && count == 0 ==> Taken(blocks, i, wanted, thin, avail, count, span) > 0
    decreases |blocks| - i
  {
    if i < |blocks| && i < avail && count + 1 < wanted {
      TakenBounds(blocks, i + 1, wanted, thin, avail, count + 1, span + |blocks[i].data|);
    }
  }

  /** The block a request starts from, in the file it was sent to by its cursor (`hint`) or by time. */
  function FirstBlock(rq: Request, hint: bool, blocks: seq<Block>): (b: Option<nat>)
    requires blocks != [] && (hint ==> rq.cursor.Some?)
    ensures b.Some? && !(hint && rq.cursor.value.tail) ==> b.value < |blocks|
  {
    if hint then
      var c := rq.cursor.value;
      if c.tail then Some(if c.block > 0 then c.block else 0)
      else if c.block < 0 || c.block >= |blocks| || blocks[c.block].start != c.nextMs then
        var b := BlockAtTime(blocks, c.nextMs);
        Some(if b.Some? then b.value else 0)
      else Some(c.block)
    else if rq.fromBlock.Some? then
      if rq.fromBlock.value < 0 || rq.fromBlock.value >= |blocks| then None else Some(rq.fromBlock.value)
    else
      var from := if rq.fromMs.Some? then rq.fromMs.value else if rq.cursor.Some? then rq.cursor.value.nextMs else 0;
      var b := BlockAtTime(blocks, from);
      var f := if b.Some? then b.value else 0;
      var k := KeyframeAtOrBefore(blocks, f);
      if k.Some? then k else Some(f)
  }

  /** The file a request means, and whether its cursor named it. */
  function Locate(rq: Request, lib: Library): (at: Option<(nat, bool)>)
    ensures at.Some? ==> at.value.0 < |lib| && (at.value.1 ==> rq.cursor.Some?)
  {
    if rq.file.Some? then
      (match OpenByName(lib, rq.file.value) case Some(i) => Some((i, false)) case None => None)
    else if rq.cursor.Some? then
      match OpenByName(lib, rq.cursor.value.file)
      case Some(i) => Some((i, true))
      case None =>
        (match ResolveByTime(lib, rq.cursor.value.nextMs) case Some(i) => Some((i, false)) case None => None)
    else if rq.fromMs.Some? then
      (match ResolveByTime(lib, rq.fromMs.value) case Some(i) => Some((i, false)) case None => None)
    else None
  }

  predicate IsTail(rq: Request) {
    rq.cursor.Some? && rq.cursor.value.tail
  }

  /** `s2` and `disk2` are what a second attempt, in the next file, finds. */
  function Fetch(rq: Request, maxBlocks: nat, s: Snap, disk: Disk, s2: Snap, disk2: Disk): Reply
    decreases IsTail(rq)
  {
    match Locate(rq, s.info)
    case None => Fail(if rq.file.None? && rq.cursor.None? && rq.fromMs.None? then 400 else 404)
    case Some((i, hint)) =>
      var info := s.info[i];
      match OpenByName(s.index, info.name)
      case None => Fail(404)
      case Some(j) =>
        var blocks := s.index[j].blocks;
        if blocks == [] then Fail(404)
        else if hint && rq.cursor.value.tail && rq.cursor.value.block >= |blocks| then
          var stay := Empty(!info.closed, rq.cursor.value);
          match NextFile(s.list, info.name, blocks[|blocks| - 1].start + ASSUMED_BLOCK_MS)
          case None => stay
          case Some(n) =>
            var f := s.list[n];
            var again := rq.(cursor := Some(Cursor(StartOf(f), f.name, 0, true, false)));
            var reply := Fetch(again, maxBlocks, s2, disk2, s2, disk2);
            if reply.Fail? then stay else reply
        else
          match FirstBlock(rq, hint, blocks)
          case None => Fail(416)
          case Some(b) => Deliver(rq, maxBlocks, s, info, blocks, b, disk)
  }

  // ------------------------------------------------------------ library order

  /** All the blocks of a library, file after file. */
  function Flat(lib: Library): seq<Block> {
    if lib == [] then [] else Flat(lib[..|lib| - 1]) + lib[|lib| - 1].blocks
  }

  /** Where file `i` begins in library order. */
  function Offset(lib: Library, i: nat): nat
    requires i <= |lib|
  {
    if i == 0 then 0 else Offset(lib, i - 1) + |lib[i - 1].blocks|
  }

  lemma {:induction false} OffsetOfPrefix(lib: Library, n: nat, i: nat)
    requires i <= n <= |lib|
    ensures Offset(lib[..n], i) == Offset(lib, i)
    decreases i
  {
    if i > 0 {
      OffsetOfPrefix(lib, n, i - 1);
    }
  }

  lemma {:induction false} FlatLength(lib: Library)
    ensures |Flat(lib)| == Offset(lib, |lib|)
    decreases |lib|
  {
    if lib != [] {
      var n := |lib| - 1;
      FlatLength(lib[..n]);
      OffsetOfPrefix(lib, n, n);
    }
  }

  lemma {:induction false} OffsetsOrdered(lib: Library, i: nat, j: nat)
    requires i <= j <= |lib|
    ensures Offset(lib, i) <= Offset(lib, j)
    decreases j
  {
    if i < j {
      OffsetsOrdered(lib, i, j - 1);
    }
  }

  /** A stretch of one file is the same stretch of the library. */
  lemma {:induction false} FlatSlice(lib: Library, i: nat, b: nat, n: nat)
    requires i < |lib| && b + n <= |lib[i].blocks|
    ensures var p := Offset(lib, i) + b; p + n <= |Flat(lib)| && Flat(lib)[p..p + n] == lib[i].blocks[b..b + n]
    decreases |lib|
  {
    hide *;
    var m := |lib| - 1;
    FlatLength(lib[..m]);
    FlatLast(lib);
    OffsetOfPrefix(lib, m, m);
    var front, back := Flat(lib[..m]), lib[m].blocks;
    if i < m {
      FlatSlice(lib[..m], i, b, n);
      OffsetOfPrefix(lib, m, i);
      var p := Offset(lib, i) + b;
      assert (front + back)[p..p + n] == front[p..p + n];
    } else {
      var p := |front| + b;
      assert (front + back)[p..p + n] == back[b..b + n];
    }
  }

  lemma {:induction false} FlatLast(lib: Library)
    requires lib != []
    ensures Flat(lib) == Flat(lib[..|lib| - 1]) + lib[|lib| - 1].blocks
  {
  }

  /** Growth happens only at the end of library order. */
  lemma {:induction false} OffsetStable(a: Library, b: Library, i: nat)
    requires Grows(a, b) && i < |a|
    ensures Offset(a, i) == Offset(b, i)
    decreases i
  {
    if i > 0 {
      OffsetStable(a, b, i - 1);
      assert FileGrows(a[i - 1], b[i - 1], true);
    }
  }

  lemma {:induction false} FlatGrows(a: Library, b: Library)
    requires Grows(a, b)
    ensures Flat(a) <= Flat(b)
    decreases |b|
  {
    if |a| < |b| {
      var n := |b| - 1;
      assert Grows(a, b[..n]);
      FlatGrows(a, b[..n]);
    } else if |a| > 0 {
      var n := |a| - 1;
      assert FileGrows(a[n], b[n], false);
      FrontEqual(a, b);
    }
  }

  lemma {:induction false} FrontEqual(a: Library, b: Library)
    requires Grows(a, b) && |a| == |b| > 0
    ensures Flat(a[..|a| - 1]) == Flat(b[..|b| - 1])
    decreases |a|
  {
    var n := |a| - 1;
    if n > 0 {
      var x, y := a[..n], b[..n];
      assert Grows(x, y);
      FrontEqual(x, y);
      assert FileGrows(a[n - 1], b[n - 1], true);
    }
  }

  // ------------------------------------------------------------ where a cursor stands

  /** The cursor stands in file `i`: at a block it names truly or, at the tail, at most one past the last. */
  ghost predicate At(lib: Library, c: Cursor, i: nat) {
    i < |lib| && c.file == lib[i].name && !(c.newFile && c.tail) && 0 <= c.block
    && (if c.tail then 0 < c.block <= |lib[i].blocks| && IsI64(c.nextMs)
        else c.block < |lib[i].blocks| && lib[i].blocks[c.block].start == c.nextMs)
  }

  /** Its place in library order. */
  ghost function Place(lib: Library, c: Cursor, i: nat): nat
    requires At(lib, c, i)
  {
    Offset(lib, i) + c.block
  }

  lemma {:induction false} AtStable(a: Library, b: Library, c: Cursor, i: nat)
    requires Grows(a, b) && At(a, c, i)
    ensures At(b, c, i) && Place(b, c, i) == Place(a, c, i)
  {
    assert FileGrows(a[i], b[i], i + 1 < |a|);
    OffsetStable(a, b, i);
    if !c.tail {
      assert b[i].blocks[c.block] == a[i].blocks[c.block];
    }
  }

  lemma {:induction false} FoundByName(lib: Library, i: nat)
    requires Valid(lib) && i < |lib|
    ensures OpenByName(lib, lib[i].name) == Some(i) && IndexFrom(lib, lib[i].name, 0) == Some(i)
    ensures forall e :: NextFile(lib, lib[i].name, e) == if i + 1 < |lib| then Some(i + 1) else None
  {
    var at, pos := IndexFrom(lib, lib[i].name, 0), PositionFrom(lib, lib[i].name, 0);
    assert at.Some? && pos.Some?;
    assert forall k :: 0 <= k < |lib| && Lower(lib[k].name) == Lower(lib[i].name) ==> k == i by {
      hide Lower;
    }
  }

  /** The moments of an attempt come one after the other. */
  ghost predicate Passing(from: Library, s: Snap) {
    Grows(from, s.info) && Grows(s.info, s.index) && Grows(s.index, s.list)
    && Valid(s.info) && Valid(s.index) && Valid(s.list)
  }

  /** Where in library order a reply begins. */
  function Begins(lib: Library, reply: Reply): int {
    if !reply.Part? then -1
    else match IndexFrom(lib, reply.file, 0) case None => -1 case Some(i) => Offset(lib, i) + reply.first
  }

  /** What a reply adds: the blocks it names, in the library `lib`. */
  function Body(lib: Library, reply: Reply): seq<Block> {
    if !reply.Part? then []
    else
      match IndexFrom(lib, reply.file, 0)
      case None => []
      case Some(i) =>
        if reply.first + reply.count <= |lib[i].blocks| then lib[i].blocks[reply.first..reply.first + reply.count]
          else []
  }

  /** The reply continues at place `p`: it delivers what follows there, and its cursor stands right after. */
  ghost predicate Continues(lib: Library, reply: Reply, p: nat) {
    reply.Part? && reply.count > 0 && p + reply.count <= |Flat(lib)|
    && Begins(lib, reply) == p && Body(lib, reply) == Flat(lib)[p..p + reply.count]
    && Stands(lib, reply.next, p + reply.count)
  }

  /** The client's cursor stands at place `p`; with no cursor, everything is delivered and the last file closed. */
  ghost predicate Stands(lib: Library, c: Option<Cursor>, p: nat) {
    match c
    case Some(k) => exists i :: At(lib, k, i) && Place(lib, k, i) == p
    case None => lib != [] && p == |Flat(lib)| && lib[|lib| - 1].closed
  }

  /** The cursor stands at place `p` of file `i`; with no cursor, that is the end of it, and it is closed. */
  ghost predicate StaysIn(lib: Library, c: Option<Cursor>, i: nat, p: nat)
    requires i < |lib|
  {
    match c
    case Some(k) => At(lib, k, i) && Place(lib, k, i) == p
    case None => lib[i].closed && p == Offset(lib, i) + |lib[i].blocks|
  }

  /**
   The reply delivers what follows place `p` of file `i`. Where files can be listed it continues there, into the
   next file if this one ends; otherwise it stays in the file, and gives no cursor at the end of a closed one,
   whatever files follow.
   */
  ghost predicate Goes(rq: Request, lib: Library, reply: Reply, i: nat, p: nat)
    requires i < |lib|
  {
    if Lists(rq) then Continues(lib, reply, p)
    else
      reply.Part? && reply.count > 0 && p + reply.count <= |Flat(lib)| && reply.file == lib[i].name
      && Begins(lib, reply) == p && Body(lib, reply) == Flat(lib)[p..p + reply.count]
      && StaysIn(lib, reply.next, i, p + reply.count)
  }

  /** The next cursor of a reply that ends before block `next` of a file with `blocks`. */
  function NextCursor(list: Library, info: File, blocks: seq<Block>, next: nat, lists: bool): Option<Cursor>
    requires 0 < next <= |blocks|
  {
    var end := if next < |blocks| then blocks[next].start else blocks[next - 1].start + ASSUMED_BLOCK_MS;
    if next < |blocks| then Some(Cursor(end, info.name, next, false, false))
    else if !info.closed then Some(Cursor(end, info.name, next, false, true))
    else
      match if lists then NextFile(list, info.name, end) else None
      case None => None
      case Some(n) => Some(Cursor(StartOf(list[n]), list[n].name, 0, true, false))
  }

  lemma {:induction false} DeliverShape(rq: Request, maxBlocks: nat, s: Snap, info: File, blocks: seq<Block>,
      first: nat, disk: Disk)
    requires first < |blocks|
    ensures var r := Deliver(rq, maxBlocks, s, info, blocks, first, disk);
      && (r.Fail? || r.Part?)
      && (disk.status == 200 && disk.bodyOk && first < disk.avail ==> r.Part?)
      && (r.Part? ==>
        r.file == info.name && r.first == first && 0 < r.count && first + r.count <= |blocks|
        && r.next == NextCursor(s.list, info, blocks, first + r.count, Lists(rq)))
  {
    TakenBounds(blocks, first, Wanted(rq, maxBlocks), rq.thin, disk.avail, 0, 0);
    hide Taken, NextFile, Lower, Wanted;
  }

  lemma {:induction false} NextStands(lib: Library, info: File, blocks: seq<Block>, i: nat, next: nat)
    requires Valid(lib) && i < |lib| && 0 < next <= |blocks| && info.name == lib[i].name
    requires blocks <= lib[i].blocks && (info.closed ==> blocks == lib[i].blocks && lib[i].closed)
    ensures Stands(lib, NextCursor(lib, info, blocks, next, true), Offset(lib, i) + next)
    ensures StaysIn(lib, NextCursor(lib, info, blocks, next, false), i, Offset(lib, i) + next)
  {
    FoundByName(lib, i);
    hide NextFile, Lower, SafeName;
    var c := NextCursor(lib, info, blocks, next, true);
    if next < |blocks| || !info.closed {
      assert At(lib, c.value, i);
      assert Place(lib, c.value, i) == Offset(lib, i) + next;
    } else if i + 1 < |lib| {
      assert At(lib, c.value, i + 1);
      assert Place(lib, c.value, i + 1) == Offset(lib, i) + next;
    } else {
      FlatLength(lib);
    }
  }

  lemma {:induction false} BodyIs(lib: Library, r: Reply, i: nat)
    requires Valid(lib) && i < |lib| && r.Part? && r.file == lib[i].name && r.first + r.count <= |lib[i].blocks|
    ensures var p := Offset(lib, i) + r.first;
      p + r.count <= |Flat(lib)| && Begins(lib, r) == p && Body(lib, r) == Flat(lib)[p..p + r.count]
  {
    FoundByName(lib, i);
    FlatSlice(lib, i, r.first, r.count);
    hide Flat, Offset, IndexFrom;
  }

  /** One file through the moments of an attempt. */
  lemma {:induction false} FileThroughout(from: Library, s: Snap, i: nat)
    requires Passing(from, s) && i < |s.info|
    ensures i < |s.index| && i < |s.list|
    ensures s.info[i].name == s.index[i].name == s.list[i].name && s.index[i].blocks <= s.list[i].blocks
    ensures s.info[i].closed ==> s.index[i].blocks == s.list[i].blocks && s.list[i].closed
    ensures i + 1 < |s.index| ==> s.index[i].blocks == s.list[i].blocks
    ensures Valid(s.info) && Valid(s.index) && Valid(s.list)
  {
    assert FileGrows(s.info[i], s.index[i], i + 1 < |s.info|);
    assert FileGrows(s.index[i], s.list[i], i + 1 < |s.index|);
  }

  /** Delivering from block `first` of file `i`, whatever happened between the moments of the attempt. */
  lemma {:induction false} DeliverContinues(from: Library, rq: Request, maxBlocks: nat, s: Snap, i: nat, first: nat,
      disk: Disk)
    requires Passing(from, s) && i < |s.info| && i < |s.index| && i < |s.list| && first < |s.index[i].blocks|
    ensures var r := Deliver(rq, maxBlocks, s, s.info[i], s.index[i].blocks, first, disk);
      r.Fail? || Goes(rq, s.list, r, i, Offset(s.list, i) + first)
  {
    hide Deliver, Valid, Grows, Passing, NextCursor, Stands, StaysIn, Body, Begins, Flat, Offset, FileGrows, Lists;
    var info, blocks, lib := s.info[i], s.index[i].blocks, s.list;
    FileThroughout(from, s, i);
    DeliverShape(rq, maxBlocks, s, info, blocks, first, disk);
    var r := Deliver(rq, maxBlocks, s, info, blocks, first, disk);
    if r.Part? {
      BodyIs(lib, r, i);
      NextStands(lib, info, blocks, i, first + r.count);
    }
  }

  /**
   A reply may have `n` blocks: one at least; and more if they are there and can be located, are asked for, are not too
   many for any reply, and have not too many bytes, which does not matter where they are thinned.
   */
  predicate MayHave(rq: Request, maxBlocks: nat, blocks: seq<Block>, first: nat, avail: nat, n: nat) {
    n <= 1
    || (first + n <= |blocks| && first + n <= avail && n <= maxBlocks
      && n <= (if rq.blocks > 0 then rq.blocks else DEFAULT_BLOCKS)
      && (rq.thin || ByteCount(blocks, first, n) <= MAX_FRAGMENT_BYTES))
  }

  /** What a reply says of itself, and that it has as many blocks as it may. */
  lemma {:induction false} ReplyTells(rq: Request, maxBlocks: nat, s: Snap, info: File, blocks: seq<Block>, first: nat,
      disk: Disk)
    requires first < |blocks|
    ensures var r := Deliver(rq, maxBlocks, s, info, blocks, first, disk);
      (r.Part? <==> disk.status == 200 && first < disk.avail && (rq.thin || disk.bodyOk))
      && (!r.Part? ==> r == Fail(if disk.status != 200 then disk.status else if first >= disk.avail then 416 else 500))
    ensures var r := Deliver(rq, maxBlocks, s, info, blocks, first, disk);
      r.Part? ==>
        && (r.growing <==> !info.closed)
        && (!r.discontinuity <==>
          rq.cursor.Some? && !rq.cursor.value.newFile && Lower(rq.cursor.value.file) == Lower(info.name))
        && (r.gapMs > 0 ==> r.next.Some? && r.next.value.newFile)
        && (r.next.Some? && r.next.value.newFile ==>
          var waited := r.next.value.nextMs - (blocks[|blocks| - 1].start + ASSUMED_BLOCK_MS);
          first + r.count == |blocks| && r.gapMs == if waited > 0 then waited else 0)
        && forall n: nat :: n <= r.count <==> MayHave(rq, maxBlocks, blocks, first, disk.avail, n)
  {
    var wanted := Wanted(rq, maxBlocks);
    TakenBounds(blocks, first, wanted, rq.thin, disk.avail, 0, 0);
    TakenIsMost(blocks, first, wanted, rq.thin, disk.avail, 0);
    var count := Taken(blocks, first, wanted, rq.thin, disk.avail, 0, 0);
    hide Taken, ByteCount, Lower, NextFile, Lists;
    forall n: nat
      ensures count > 0 ==> (n <= count <==> MayHave(rq, maxBlocks, blocks, first, disk.avail, n))
    {
      assert MayTake(blocks, first, wanted, rq.thin, disk.avail, n) <==> n <= count;
    }
    hide MayTake, MayHave, Wanted;
  }

  // ------------------------------------------------------------ following a cursor

  /** The cursor is past the blocks its file's index shows: the server looks for the next file instead. */
  predicate Past(s: Snap, c: Cursor, i: nat)
    requires i < |s.index|
  {
    c.tail && c.block >= |s.index[i].blocks|
  }

  /** Blocks appended to file `i` after its index was read and before the files were listed. */
  ghost function Missed(s: Snap, c: Cursor, i: nat): int
    requires i < |s.index| && i < |s.list|
  {
    if Past(s, c, i) then |s.list[i].blocks| - |s.index[i].blocks| else 0
  }

  /** Through the moments of an attempt the cursor goes on standing at the same place. */
  lemma {:induction false} StandsThroughout(lib: Library, c: Cursor, i: nat, s: Snap)
    requires Passing(lib, s) && At(lib, c, i)
    ensures At(s.info, c, i) && At(s.index, c, i) && At(s.list, c, i)
    ensures Place(s.list, c, i) == Place(lib, c, i)
  {
    AtStable(lib, s.info, c, i);
    AtStable(s.info, s.index, c, i);
    AtStable(s.index, s.list, c, i);
    hide Offset, Place;
  }

  /** Opening, reading and listing all find the cursor's file where it stands. */
  lemma {:induction false} Sought(lib: Library, c: Cursor, i: nat, s: Snap)
    requires Passing(lib, s) && At(lib, c, i)
    ensures i < |s.info| && i < |s.index| && i < |s.list|
    ensures c.file == s.info[i].name && OpenByName(s.info, c.file) == Some(i) && OpenByName(s.index, c.file) == Some(i)
    ensures forall e :: NextFile(s.list, c.file, e) == if i + 1 < |s.list| then Some(i + 1) else None
    ensures s.index[i].blocks != [] && At(s.index, c, i)
  {
    hide Lower, SafeName, Grows, NextFile, Place, OpenByName, Valid;
    StandsThroughout(lib, c, i, s);
    FileThroughout(lib, s, i);
    FoundByName(s.info, i);
    FoundByName(s.index, i);
    FoundByName(s.list, i);
    NotEmpty(s.index, i);
  }

  lemma {:induction false} NotEmpty(lib: Library, i: nat)
    requires Valid(lib) && i < |lib|
    ensures lib[i].blocks != []
  {
  }

  /** In its own file, the cursor is found and read from exactly where it stands. */
  lemma {:induction false} FetchHere(lib: Library, rq: Request, i: nat, maxBlocks: nat, s: Snap, disk: Disk, s2: Snap,
      disk2: Disk)
    requires rq.file.None? && rq.cursor.Some? && Passing(lib, s) && At(lib, rq.cursor.value, i)
    requires i < |s.index| && !Past(s, rq.cursor.value, i)
    ensures i < |s.info| && 0 <= rq.cursor.value.block < |s.index[i].blocks|
    ensures Fetch(rq, maxBlocks, s, disk, s2, disk2)
      == Deliver(rq, maxBlocks, s, s.info[i], s.index[i].blocks, rq.cursor.value.block, disk)
  {
    hide Deliver, OpenByName, NextFile, Passing, Place, BlockAtTime, ResolveByTime, KeyframeAtOrBefore;
    Sought(lib, rq.cursor.value, i, s);
  }

  /** The cursor at the start of a file. */
  function Opening(f: File): Cursor {
    Cursor(StartOf(f), f.name, 0, true, false)
  }

  lemma {:induction false} OpeningStands(lib: Library, i: nat)
    requires Valid(lib) && i < |lib|
    ensures At(lib, Opening(lib[i]), i) && Place(lib, Opening(lib[i]), i) == Offset(lib, i)
  {
  }

  /** Past its file, the cursor goes to the next one listed, or stays. */
  lemma {:induction false} FetchNext(lib: Library, rq: Request, i: nat, maxBlocks: nat, s: Snap, disk: Disk, s2: Snap,
      disk2: Disk)
    requires rq.file.None? && rq.cursor.Some? && Passing(lib, s) && At(lib, rq.cursor.value, i)
    requires i < |s.index| && Past(s, rq.cursor.value, i)
    ensures i < |s.info| && i < |s.list| && rq.cursor.value.block == |s.index[i].blocks|
    ensures var r := Fetch(rq, maxBlocks, s, disk, s2, disk2);
      var stay := Empty(!s.info[i].closed, rq.cursor.value);
      if i + 1 >= |s.list| then r == stay
      else
        var r2 := Fetch(rq.(cursor := Some(Opening(s.list[i + 1]))), maxBlocks, s2, disk2, s2, disk2);
        r == if r2.Fail? then stay else r2
  {
    hide Deliver, OpenByName, NextFile, Passing, Place, FirstBlock, ResolveByTime, StartOf;
    Sought(lib, rq.cursor.value, i, s);
  }

  /** The library a reply shows: the last listing made for it. */
  function Shown(s: Snap, s2: Snap, c: Cursor, i: nat): Library
    requires i < |s.index|
  {
    if Past(s, c, i) then s2.list else s.list
  }

  lemma {:induction false} FollowHere(lib: Library, rq: Request, i: nat, maxBlocks: nat, s: Snap, disk: Disk, s2: Snap,
      disk2: Disk)
    requires rq.file.None? && rq.cursor.Some? && Passing(lib, s) && At(lib, rq.cursor.value, i)
    requires i < |s.index| && !Past(s, rq.cursor.value, i)
    ensures var r := Fetch(rq, maxBlocks, s, disk, s2, disk2);
      r.Fail? || Continues(s.list, r, Place(lib, rq.cursor.value, i))
  {
    hide Fetch, Deliver, Continues, Offset, Passing;
    var c := rq.cursor.value;
    Sought(lib, c, i, s);
    StandsThroughout(lib, c, i, s);
    FetchHere(lib, rq, i, maxBlocks, s, disk, s2, disk2);
    DeliverContinues(lib, rq, maxBlocks, s, i, c.block, disk);
    assert Place(s.list, c, i) == Offset(s.list, i) + c.block;
  }

  lemma {:induction false} FollowNext(lib: Library, rq: Request, i: nat, maxBlocks: nat, s: Snap, disk: Disk, s2: Snap,
      disk2: Disk)
    requires rq.file.None? && rq.cursor.Some? && Passing(lib, s) && Passing(s.list, s2) && At(lib, rq.cursor.value, i)
    requires i < |s.info| && i < |s.index| && i < |s.list| && Past(s, rq.cursor.value, i)
    ensures var r := Fetch(rq, maxBlocks, s, disk, s2, disk2);
      r == Empty(!s.info[i].closed, rq.cursor.value)
      || Continues(s2.list, r, Place(lib, rq.cursor.value, i) + Missed(s, rq.cursor.value, i))
  {
    hide Fetch, Continues, Passing, At, Valid;
    FetchNext(lib, rq, i, maxBlocks, s, disk, s2, disk2);
    PlaceAfter(lib, rq.cursor.value, i, s);
    if i + 1 < |s.list| {
      FileThroughout(lib, s, i);
      NextContinues(rq, i + 1, maxBlocks, s.list, s2, disk2);
    }
  }

  /** Past its file, the cursor and what it missed reach the start of the next. */
  lemma {:induction false} PlaceAfter(lib: Library, c: Cursor, i: nat, s: Snap)
    requires Passing(lib, s) && At(lib, c, i) && i < |s.index| && i < |s.list| && Past(s, c, i)
    requires c.block == |s.index[i].blocks|
    ensures i + 1 < |s.list| ==> Place(lib, c, i) + Missed(s, c, i) == Offset(s.list, i + 1)
  {
    StandsThroughout(lib, c, i, s);
  }

  lemma {:induction false} NextContinues(rq: Request, i: nat, maxBlocks: nat, lib: Library, s2: Snap, disk2: Disk)
    requires rq.file.None? && Valid(lib) && Passing(lib, s2) && i < |lib|
    ensures var r := Fetch(rq.(cursor := Some(Opening(lib[i]))), maxBlocks, s2, disk2, s2, disk2);
      r.Fail? || Continues(s2.list, r, Offset(lib, i))
  {
    hide Fetch, Deliver, Continues, At, Passing, Valid, Grows, Offset, Place;
    var c := Opening(lib[i]);
    OpeningStands(lib, i);
    Sought(lib, c, i, s2);
    FollowHere(lib, rq.(cursor := Some(c)), i, maxBlocks, s2, disk2, s2, disk2);
  }

  /**
   One fetch by cursor, whatever happens between its moments: it fails, finds nothing new and returns
   the same cursor, or continues from the cursor's place, plus the blocks missed if the file grew
   between the reading of its index and the listing that shows a successor.
   */
  lemma {:induction false} FetchFollows(lib: Library, rq: Request, i: nat, maxBlocks: nat, s: Snap, disk: Disk,
      s2: Snap, disk2: Disk)
    requires rq.file.None? && rq.cursor.Some? && Passing(lib, s) && Passing(s.list, s2) && At(lib, rq.cursor.value, i)
    ensures i < |s.index| && i < |s.list|
    ensures var r := Fetch(rq, maxBlocks, s, disk, s2, disk2);
      var c := rq.cursor.value;
      r.Fail? || (r.Empty? && r.cursor == c)
      || Continues(Shown(s, s2, c, i), r, Place(lib, c, i) + Missed(s, c, i))
  {
    hide Fetch, Deliver, Continues, Offset, Place, At, Passing;
    Sought(lib, rq.cursor.value, i, s);
    if Past(s, rq.cursor.value, i) {
      FollowNext(lib, rq, i, maxBlocks, s, disk, s2, disk2);
    } else {
      FollowHere(lib, rq, i, maxBlocks, s, disk, s2, disk2);
    }
  }

  /** The server's own cursors open a file exactly when they are at its first block. */
  predicate Opens(c: Cursor) {
    c.newFile <==> c.block == 0 && !c.tail
  }

  /** Along a walk, the player is told of a discontinuity exactly where a file begins. */
  lemma {:induction false} DiscontinuityAtStart(lib: Library, rq: Request, i: nat, maxBlocks: nat, s: Snap, disk: Disk,
      s2: Snap, disk2: Disk)
    requires rq.file.None? && rq.cursor.Some? && Passing(lib, s) && Passing(s.list, s2) && At(lib, rq.cursor.value, i)
    requires Opens(rq.cursor.value)
    ensures var r := Fetch(rq, maxBlocks, s, disk, s2, disk2);
      r.Part? ==> (r.discontinuity <==> r.first == 0) && (r.next.Some? ==> Opens(r.next.value))
  {
    hide Fetch, Deliver, Passing, Place, Valid, Lower;
    var c := rq.cursor.value;
    Sought(lib, c, i, s);
    hide At;
    if Past(s, c, i) {
      FetchNext(lib, rq, i, maxBlocks, s, disk, s2, disk2);
      if i + 1 < |s.list| {
        var o := Opening(s.list[i + 1]);
        FileThroughout(lib, s, i);
        OpeningStands(s.list, i + 1);
        Sought(s.list, o, i + 1, s2);
        FetchHere(s.list, rq.(cursor := Some(o)), i + 1, maxBlocks, s2, disk2, s2, disk2);
        DeliveredAtStart(rq.(cursor := Some(o)), maxBlocks, s2, s2.info[i + 1], s2.index[i + 1].blocks, 0, disk2);
      }
    } else {
      FetchHere(lib, rq, i, maxBlocks, s, disk, s2, disk2);
      DeliveredAtStart(rq, maxBlocks, s, s.info[i], s.index[i].blocks, c.block, disk);
    }
  }

  lemma {:induction false} DeliveredAtStart(rq: Request, maxBlocks: nat, s: Snap, info: File, blocks: seq<Block>,
      first: nat, disk: Disk)
    requires rq.cursor.Some? && first < |blocks| && first == rq.cursor.value.block && rq.cursor.value.file == info.name
    requires Opens(rq.cursor.value) && (rq.cursor.value.tail ==> first > 0)
    ensures var r := Deliver(rq, maxBlocks, s, info, blocks, first, disk);
      r.Part? ==> (r.discontinuity <==> r.first == 0) && (r.next.Some? ==> Opens(r.next.value))
  {
    ReplyTells(rq, maxBlocks, s, info, blocks, first, disk);
    DeliverShape(rq, maxBlocks, s, info, blocks, first, disk);
    hide Deliver, ByteCount, Lower, NextFile, Lists;
  }

  // ------------------------------------------------------------ where a walk starts

  /** The file was being recorded at instant `t`, as far as is known. */
  predicate HeldAt(f: File, t: int) {
    f.blocks != [] && f.blocks[0].start <= t < f.endMs
  }

  predicate StartsFrom(f: File, t: int) {
    f.blocks != [] && f.blocks[0].start >= t
  }

  /** The first file recorded at `t`; if none was, the first that starts then or later; if none does, the last. */
  ghost predicate FileAt(lib: Library, t: int, i: nat) {
    i < |lib|
    && if exists k :: 0 <= k < |lib| && HeldAt(lib[k], t) then
         HeldAt(lib[i], t) && forall k :: 0 <= k < i ==> !HeldAt(lib[k], t)
       else if exists k :: 0 <= k < |lib| && StartsFrom(lib[k], t) then
         StartsFrom(lib[i], t) && forall k :: 0 <= k < i ==> !StartsFrom(lib[k], t)
       else i == |lib| - 1
  }

  /** Blocks up to `f` start by `t`, the next does not; the first block, if even that starts later. */
  predicate ReachedBy(blocks: seq<Block>, t: int, f: nat) {
    f < |blocks|
    && if blocks[0].start > t then f == 0
       else (forall k :: 0 <= k <= f ==> blocks[k].start <= t) && (f + 1 < |blocks| ==> blocks[f + 1].start > t)
  }

  /** The last block with a keyframe up to `f`; `f` itself if there is none. */
  ghost predicate OpensAt(blocks: seq<Block>, f: nat, b: nat) {
    b <= f < |blocks|
    && if exists k :: 0 <= k <= f && blocks[k].keyframe then
         blocks[b].keyframe && forall k :: b < k <= f ==> !blocks[k].keyframe
       else b == f
  }

  /** The cursor names no file that is there, if there is a cursor at all. */
  ghost predicate NoCursorFile(rq: Request, lib: Library) {
    rq.cursor.Some? ==> forall k :: 0 <= k < |lib| ==> lib[k].name != rq.cursor.value.file
  }

  /** The instant that says the file, and the one that says the block in it. */
  function FileInstant(rq: Request): int {
    if rq.cursor.Some? then rq.cursor.value.nextMs else if rq.fromMs.Some? then rq.fromMs.value else 0
  }

  function BlockInstant(rq: Request): int {
    if rq.fromMs.Some? then rq.fromMs.value else if rq.cursor.Some? then rq.cursor.value.nextMs else 0
  }

  /** The file a request means when no cursor says it: the one named, or else the one for its instant. */
  ghost predicate FileMeant(rq: Request, lib: Library, i: nat) {
    i < |lib|
    && if rq.file.Some? then lib[i].name == rq.file.value else FileAt(lib, FileInstant(rq), i)
  }

  /** There is no file to mean: an unknown name, no instant at all, or nothing recorded. */
  ghost predicate NothingMeant(rq: Request, lib: Library) {
    if rq.file.Some? then forall k :: 0 <= k < |lib| ==> lib[k].name != rq.file.value
    else (rq.cursor.None? && rq.fromMs.None?) || lib == []
  }

  lemma {:induction false} FirstHeld(lib: Library, t: int, i: nat)
    requires i <= |lib| && forall k :: 0 <= k < |lib| ==> lib[k].blocks != []
    ensures match Containing(lib, t, i)
      case Some(n) => HeldAt(lib[n], t) && forall k :: i <= k < n ==> !HeldAt(lib[k], t)
      case None => forall k :: i <= k < |lib| ==> !HeldAt(lib[k], t)
    decreases |lib| - i
  {
    if i < |lib| {
      FirstHeld(lib, t, i + 1);
    }
  }

  lemma {:induction false} FirstStart(lib: Library, t: int, i: nat)
    requires i <= |lib| && forall k :: 0 <= k < |lib| ==> lib[k].blocks != []
    ensures match FirstFrom(lib, t, i)
      case Some(n) => StartsFrom(lib[n], t) && forall k :: i <= k < n ==> !StartsFrom(lib[k], t)
      case None => forall k :: i <= k < |lib| ==> !StartsFrom(lib[k], t)
    decreases |lib| - i
  {
    if i < |lib| {
      FirstStart(lib, t, i + 1);
    }
  }

  lemma {:induction false} ResolvedAt(lib: Library, t: int)
    requires forall k :: 0 <= k < |lib| ==> lib[k].blocks != []
    ensures match ResolveByTime(lib, t) case Some(i) => FileAt(lib, t, i) case None => lib == []
  {
    FirstHeld(lib, t, 0);
    FirstStart(lib, t, 0);
    hide Containing, FirstFrom, HeldAt, StartsFrom;
  }

  /** The file after one that is listed is the next of the list; after one that is gone, the first that starts later. */
  lemma {:induction false} NextFileIs(lib: Library, name: string, end: int)
    requires Valid(lib)
    ensures match NextFile(lib, name, end)
      case Some(n) =>
        if exists k :: 0 <= k < |lib| && Lower(lib[k].name) == Lower(name) then
          0 < n < |lib| && Lower(lib[n - 1].name) == Lower(name)
        else n < |lib| && StartsFrom(lib[n], end) && forall k :: 0 <= k < n ==> !StartsFrom(lib[k], end)
      case None =>
        if exists k :: 0 <= k < |lib| && Lower(lib[k].name) == Lower(name) then
          lib != [] && Lower(lib[|lib| - 1].name) == Lower(name)
        else forall k :: 0 <= k < |lib| ==> !StartsFrom(lib[k], end)
  {
    FirstStart(lib, end, 0) by { AllNotEmpty(lib); }
    hide Lower, SafeName, StartsFrom, FirstFrom, Valid;
  }

  lemma {:induction false} LeadingStarted(blocks: seq<Block>, t: int)
    ensures var n := StartedBy(blocks, t);
      (forall k :: 0 <= k < n ==> blocks[k].start <= t) && (n < |blocks| ==> blocks[n].start > t)
    decreases |blocks|
  {
    if blocks != [] && blocks[0].start <= t {
      LeadingStarted(blocks[1..], t);
      var n := StartedBy(blocks, t);
      assert n == 1 + StartedBy(blocks[1..], t);
      assert n < |blocks| ==> blocks[n] == blocks[1..][n - 1];
      forall k | 0 <= k < n
        ensures blocks[k].start <= t
      {
        assert k > 0 ==> blocks[k] == blocks[1..][k - 1];
      }
    }
  }

  /** The block a request without a block number opens at. */
  lemma {:induction false} FirstBlockAt(rq: Request, blocks: seq<Block>) returns (f: nat)
    requires blocks != [] && rq.fromBlock.None?
    ensures var b := FirstBlock(rq, false, blocks);
      b.Some? && ReachedBy(blocks, BlockInstant(rq), f) && OpensAt(blocks, f, b.value)
  {
    LeadingStarted(blocks, BlockInstant(rq));
    var b := BlockAtTime(blocks, BlockInstant(rq));
    f := if b.Some? then b.value else 0;
    hide StartedBy;
  }

  lemma {:induction false} LocatedAt(rq: Request, lib: Library)
    requires Valid(lib) && (rq.file.Some? || NoCursorFile(rq, lib))
    ensures match Locate(rq, lib)
      case Some((i, hint)) => !hint && FileMeant(rq, lib, i)
      case None => NothingMeant(rq, lib)
  {
    ResolvedAt(lib, FileInstant(rq)) by { AllNotEmpty(lib); }
    if rq.file.Some? {
      NamedAt(lib, rq.file.value);
    } else if rq.cursor.Some? {
      NamedAt(lib, rq.cursor.value.file);
    }
    hide ResolveByTime, OpenByName, FileAt, Valid;
  }

  lemma {:induction false} AllNotEmpty(lib: Library)
    requires Valid(lib)
    ensures forall k :: 0 <= k < |lib| ==> lib[k].blocks != []
  {
  }

  lemma {:induction false} NamedAt(lib: Library, name: string)
    requires Valid(lib)
    ensures match OpenByName(lib, name)
      case Some(i) => i < |lib| && lib[i].name == name
      case None => forall k :: 0 <= k < |lib| ==> lib[k].name != name
  {
    hide Lower;
  }

  /** How a request by time is answered: from the block of file `i` that opening at block `f` leads to. */
  ghost predicate StartsIn(rq: Request, s: Snap, disk: Disk, r: Reply, i: nat, f: nat) {
    FileMeant(rq, s.info, i) && i < |s.index| && i < |s.list| && ReachedBy(s.index[i].blocks, BlockInstant(rq), f)
    && (disk.status == 200 && disk.bodyOk && |s.index[i].blocks| <= disk.avail ==> r.Part?)
    && (r.Fail? || (r.Part? && OpensAt(s.index[i].blocks, f, r.first)
      && Goes(rq, s.list, r, i, Offset(s.list, i) + r.first)))
  }

  /** How a request for block `b` is answered in file `i`: from exactly that block, if the file has it. */
  ghost predicate StartsAtBlock(rq: Request, s: Snap, disk: Disk, r: Reply, i: nat, b: int) {
    FileMeant(rq, s.info, i) && i < |s.index| && i < |s.list|
    && if 0 <= b < |s.index[i].blocks| then
        (disk.status == 200 && disk.bodyOk && b < disk.avail ==> r.Part?)
        && (r.Fail? || Goes(rq, s.list, r, i, Offset(s.list, i) + b))
      else r == Fail(416)
  }

  /** The status of a request that means no file. */
  function RefusedWith(rq: Request): nat {
    if rq.file.None? && rq.cursor.None? && rq.fromMs.None? then 400 else 404
  }

  lemma {:induction false} FetchNone(rq: Request, maxBlocks: nat, s: Snap, disk: Disk, s2: Snap, disk2: Disk)
    requires Locate(rq, s.info).None?
    ensures Fetch(rq, maxBlocks, s, disk, s2, disk2) == Fail(RefusedWith(rq))
  {
    hide Locate;
  }

  /** A request its cursor does not place is answered from the first block found for it. */
  lemma {:induction false} FetchFrom(rq: Request, maxBlocks: nat, s: Snap, disk: Disk, s2: Snap, disk2: Disk, i: nat)
    requires Locate(rq, s.info) == Some((i, false)) && i < |s.info| && i < |s.index| && s.index[i].blocks != []
    requires OpenByName(s.index, s.info[i].name) == Some(i)
    ensures var b := FirstBlock(rq, false, s.index[i].blocks);
      Fetch(rq, maxBlocks, s, disk, s2, disk2)
        == if b.None? then Fail(416) else Deliver(rq, maxBlocks, s, s.info[i], s.index[i].blocks, b.value, disk)
  {
    hide Locate, OpenByName, FirstBlock, Deliver, NextFile;
  }

  /**
   A request by time, told from the library and the instants alone: where it starts, and that it does. The file is
   the one named, or the first recorded at the instant, or the first after it, or the last; the block is the last
   keyframe block up to the last that starts by the instant, or that block itself. From there on the walk is
   contiguous. A client whose cursor names a file that is gone is answered in the same way, by the cursor's instant.
   */
  lemma {:induction false} StartByTime(lib: Library, rq: Request, maxBlocks: nat, s: Snap, disk: Disk, s2: Snap,
      disk2: Disk)
    requires Passing(lib, s) && (rq.file.Some? || NoCursorFile(rq, s.info)) && rq.fromBlock.None?
    ensures var r := Fetch(rq, maxBlocks, s, disk, s2, disk2);
      if NothingMeant(rq, s.info) then r == Fail(RefusedWith(rq))
      else exists i: nat, f: nat :: StartsIn(rq, s, disk, r, i, f)
  {
    hide *;
    LocatedAt(rq, s.info) by { PassingValid(lib, s); }
    if Locate(rq, s.info).None? {
      FetchNone(rq, maxBlocks, s, disk, s2, disk2);
    } else {
      var i := Locate(rq, s.info).value.0;
      assert Locate(rq, s.info) == Some((i, false));
      MeantNotNothing(rq, s.info, i);
      SoughtByTime(lib, s, i);
      var f := FirstBlockAt(rq, s.index[i].blocks);
      FetchFrom(rq, maxBlocks, s, disk, s2, disk2, i);
      TimeDelivered(lib, rq, maxBlocks, s, disk, i, f);
    }
  }

  lemma {:induction false} TimeDelivered(lib: Library, rq: Request, maxBlocks: nat, s: Snap, disk: Disk, i: nat, f: nat)
    requires Passing(lib, s) && FileMeant(rq, s.info, i) && i < |s.info| && i < |s.index| && i < |s.list|
    requires s.index[i].blocks != [] && ReachedBy(s.index[i].blocks, BlockInstant(rq), f)
    requires var b := FirstBlock(rq, false, s.index[i].blocks); b.Some? && OpensAt(s.index[i].blocks, f, b.value)
    ensures var b := FirstBlock(rq, false, s.index[i].blocks).value;
      StartsIn(rq, s, disk, Deliver(rq, maxBlocks, s, s.info[i], s.index[i].blocks, b, disk), i, f)
  {
    hide Passing, FileMeant, ReachedBy, OpensAt, Deliver, Goes, Offset, FirstBlock;
    var b := FirstBlock(rq, false, s.index[i].blocks).value;
    DeliverContinues(lib, rq, maxBlocks, s, i, b, disk);
    DeliverShape(rq, maxBlocks, s, s.info[i], s.index[i].blocks, b, disk);
  }

  lemma {:induction false} PassingValid(lib: Library, s: Snap)
    requires Passing(lib, s)
    ensures Valid(s.info)
  {
    hide Valid;
  }

  lemma {:induction false} MeantNotNothing(rq: Request, lib: Library, i: nat)
    requires FileMeant(rq, lib, i) && Locate(rq, lib).Some?
    ensures !NothingMeant(rq, lib)
  {
    hide FileAt, OpenByName, ResolveByTime;
  }

  /**
   A request for a block by its number: its file must be known, and the block in it; then the walk it starts
   is contiguous from exactly that block. Without a camera it ends with its file.
   */
  lemma {:induction false} StartByBlock(lib: Library, rq: Request, maxBlocks: nat, s: Snap, disk: Disk, s2: Snap,
      disk2: Disk)
    requires Passing(lib, s) && (rq.file.Some? || NoCursorFile(rq, s.info)) && rq.fromBlock.Some?
    ensures var r := Fetch(rq, maxBlocks, s, disk, s2, disk2);
      if NothingMeant(rq, s.info) then r == Fail(RefusedWith(rq))
      else exists i: nat :: StartsAtBlock(rq, s, disk, r, i, rq.fromBlock.value)
  {
    hide *;
    LocatedAt(rq, s.info) by { PassingValid(lib, s); }
    if Locate(rq, s.info).None? {
      FetchNone(rq, maxBlocks, s, disk, s2, disk2);
    } else {
      var i := Locate(rq, s.info).value.0;
      assert Locate(rq, s.info) == Some((i, false));
      MeantNotNothing(rq, s.info, i);
      SoughtByTime(lib, s, i);
      FetchFrom(rq, maxBlocks, s, disk, s2, disk2, i);
      BlockDelivered(lib, rq, maxBlocks, s, disk, i);
    }
  }

  lemma {:induction false} BlockDelivered(lib: Library, rq: Request, maxBlocks: nat, s: Snap, disk: Disk, i: nat)
    requires Passing(lib, s) && FileMeant(rq, s.info, i) && i < |s.info| && i < |s.index| && i < |s.list|
    requires s.index[i].blocks != [] && rq.fromBlock.Some?
    ensures var b := FirstBlock(rq, false, s.index[i].blocks);
      var r := if b.None? then Fail(416) else Deliver(rq, maxBlocks, s, s.info[i], s.index[i].blocks, b.value, disk);
      StartsAtBlock(rq, s, disk, r, i, rq.fromBlock.value)
  {
    hide Passing, FileMeant, Deliver, Goes, Offset;
    if 0 <= rq.fromBlock.value < |s.index[i].blocks| {
      DeliverContinues(lib, rq, maxBlocks, s, i, rq.fromBlock.value, disk);
      DeliverShape(rq, maxBlocks, s, s.info[i], s.index[i].blocks, rq.fromBlock.value, disk);
    }
  }

  /** The block of its own file that a cursor means: the one it names, or else the last starting by its instant. */
  ghost predicate CursorOpens(c: Cursor, blocks: seq<Block>, f: nat) {
    f < |blocks|
    && if c.tail then f == if c.block > 0 then c.block else 0
       else if 0 <= c.block < |blocks| && blocks[c.block].start == c.nextMs then f == c.block
       else ReachedBy(blocks, c.nextMs, f)
  }

  lemma {:induction false} CursorBlock(rq: Request, blocks: seq<Block>) returns (f: nat)
    requires rq.cursor.Some? && blocks != [] && !(rq.cursor.value.tail && rq.cursor.value.block >= |blocks|)
    ensures FirstBlock(rq, true, blocks) == Some(f) && CursorOpens(rq.cursor.value, blocks, f)
  {
    f := FirstBlock(rq, true, blocks).value;
    LeadingStarted(blocks, rq.cursor.value.nextMs);
    hide StartedBy;
  }

  ghost predicate StartsByCursor(rq: Request, s: Snap, disk: Disk, r: Reply, i: nat, f: nat)
    requires rq.cursor.Some? && i < |s.index| && i < |s.list|
  {
    CursorOpens(rq.cursor.value, s.index[i].blocks, f)
    && (r.Part? <==> disk.status == 200 && f < disk.avail && (rq.thin || disk.bodyOk))
    && (r.Fail? || (r.Part? && r.first == f && Goes(rq, s.list, r, i, Offset(s.list, i) + f)))
  }

  /**
   Whatever a cursor says, true or not, if its file is there: the walk goes on at the block it means, and is contiguous
   from there. (A cursor past the end of its file goes on in the next: `FetchNext`.)
   */
  lemma {:induction false} StartByCursor(lib: Library, rq: Request, maxBlocks: nat, s: Snap, disk: Disk, s2: Snap,
      disk2: Disk, i: nat) returns (f: nat)
    requires Passing(lib, s) && rq.file.None? && rq.cursor.Some?
    requires i < |s.info| && s.info[i].name == rq.cursor.value.file
    requires i < |s.index| && i < |s.list| && !Past(s, rq.cursor.value, i)
    ensures StartsByCursor(rq, s, disk, Fetch(rq, maxBlocks, s, disk, s2, disk2), i, f)
  {
    hide *;
    SoughtByTime(lib, s, i);
    PassingValid(lib, s);
    FoundByName(s.info, i);
    var blocks := s.index[i].blocks;
    NotPast(s, rq.cursor.value, i);
    f := CursorBlock(rq, blocks);
    OpensInside(rq.cursor.value, blocks, f);
    FetchHinted(rq, maxBlocks, s, disk, s2, disk2, i, f);
    CursorDelivered(lib, rq, maxBlocks, s, disk, i, f);
  }

  lemma {:induction false} NotPast(s: Snap, c: Cursor, i: nat)
    requires i < |s.index| && !Past(s, c, i)
    ensures !(c.tail && c.block >= |s.index[i].blocks|)
  {
  }

  lemma {:induction false} OpensInside(c: Cursor, blocks: seq<Block>, f: nat)
    requires CursorOpens(c, blocks, f)
    ensures f < |blocks|
  {
  }

  lemma {:induction false} FetchHinted(rq: Request, maxBlocks: nat, s: Snap, disk: Disk, s2: Snap, disk2: Disk, i: nat,
      f: nat)
    requires rq.file.None? && rq.cursor.Some? && i < |s.info| && OpenByName(s.info, rq.cursor.value.file) == Some(i)
    requires i < |s.index| && s.index[i].blocks != [] && OpenByName(s.index, s.info[i].name) == Some(i)
    requires !(rq.cursor.value.tail && rq.cursor.value.block >= |s.index[i].blocks|)
    requires FirstBlock(rq, true, s.index[i].blocks) == Some(f) && f < |s.index[i].blocks|
    ensures Fetch(rq, maxBlocks, s, disk, s2, disk2)
      == Deliver(rq, maxBlocks, s, s.info[i], s.index[i].blocks, f, disk)
  {
    hide OpenByName, FirstBlock, Deliver, NextFile, ResolveByTime;
  }

  lemma {:induction false} CursorDelivered(lib: Library, rq: Request, maxBlocks: nat, s: Snap, disk: Disk, i: nat,
      f: nat)
    requires Passing(lib, s) && rq.cursor.Some? && i < |s.info| && i < |s.index| && i < |s.list|
    requires f < |s.index[i].blocks| && CursorOpens(rq.cursor.value, s.index[i].blocks, f)
    ensures StartsByCursor(rq, s, disk, Deliver(rq, maxBlocks, s, s.info[i], s.index[i].blocks, f, disk), i, f)
  {
    hide Passing, CursorOpens, Deliver, Goes, Offset, MayHave, Lower;
    DeliverContinues(lib, rq, maxBlocks, s, i, f, disk);
    ReplyTells(rq, maxBlocks, s, s.info[i], s.index[i].blocks, f, disk);
    DeliverShape(rq, maxBlocks, s, s.info[i], s.index[i].blocks, f, disk);
  }

  lemma {:induction false} SoughtByTime(lib: Library, s: Snap, i: nat)
    requires Passing(lib, s) && i < |s.info|
    ensures i < |s.index| && i < |s.list| && s.index[i].blocks != [] && OpenByName(s.index, s.info[i].name) == Some(i)
  {
    hide Valid, OpenByName, NextFile, FileGrows, Grows;
    FileThroughout(lib, s, i);
    FoundByName(s.index, i);
    NotEmpty(s.index, i);
  }
}
