/**
 The recorder: it holds samples until it knows the tracks, opens a file, gathers samples into blocks,
 and goes on in a new file from time to time. Clock readings, and whether creating a file or writing a
 block succeeds, come from a world that may answer anything.
 */
module Recorder {
  import opened Bytes

  const MAX_PENDING_BYTES: nat := 8 * 1024 * 1024
  const ROTATE_GRACE_MS: int := 60000

  datatype Sample = Sample(track: nat, audio: bool, keyframe: bool, pts: int, data: seq<byte>)

  /** The limits on a block: samples, milliseconds, bytes. */
  datatype Limits = Limits(samples: nat, ms: int, bytes: nat)

  datatype Config = Config(recordAudio: bool, waitAudioMs: int, rotateMs: int, limits: Limits)

  /** The `n`-th reading of the monotonic clock; whether the `n`-th creation, the `n`-th write succeed. */
  datatype World = World(mono: nat -> int, opens: nat -> bool, writes: nat -> bool)

  datatype Builder = Builder(samples: seq<Sample>, bytes: nat, startMono: int)

  /**
   A file: when it began, when its predecessor was cut for it (if it was), its blocks, and for each of these
   what the clock said when it was asked whether to go on in a new file (0 if it was not asked).
   */
  datatype File = File(started: int, cut: Option<int>, blocks: seq<seq<Sample>>, asked: seq<int>)

  datatype State = State(
    video: bool, audio: bool, firstFormat: int, pending: seq<Sample>, pendingBytes: nat,
    writer: bool, builder: Option<Builder>, open: bool, fileStarted: int,
    files: seq<File>, ticks: nat, tries: nat, wrote: nat)

  const START: State := State(false, false, 0, [], 0, false, None, false, 0, [], 0, 0, 0)

  function Sane(l: Limits): Limits {
    Limits(if l.samples == 0 then 256 else l.samples, if l.ms <= 0 then 2000 else l.ms,
           if l.bytes == 0 then 1024 * 1024 else l.bytes)
  }

  /** Looks through the samples of a block for a video keyframe. */
  predicate HasKeyframe(block: seq<Sample>): (r: bool)
    ensures r <==> exists i :: 0 <= i < |block| && block[i].track == 0 && block[i].keyframe
  {
    block != [] && ((block[0].track == 0 && block[0].keyframe) || HasKeyframe(block[1..]))
  }

  // ------------------------------------------------------------ gathering

  datatype Gathered = Gathered(builder: Builder, block: Option<seq<Sample>>)

  /** A sample with no bytes is ignored; a block closes by count, bytes or time. */
  function Gather(l: Limits, b: Builder, s: Sample, mono: int): Gathered {
    if s.data == [] then Gathered(b, None)
    else
      var start := if b.samples == [] then mono else b.startMono;
      var samples, bytes := b.samples + [s], (if b.samples == [] then 0 else b.bytes) + |s.data|;
      if |samples| >= Sane(l).samples || bytes >= Sane(l).bytes || mono - start >= Sane(l).ms
      then Gathered(Builder([], 0, start), Some(samples))
      else Gathered(Builder(samples, bytes, start), None)
  }

  // ------------------------------------------------------------ how samples are grouped

  /** A sample and what the clock said when it came. */
  datatype Stamped = Stamped(sample: Sample, mono: int)

  function Bare(xs: seq<Stamped>): (ss: seq<Sample>)
    ensures |ss| == |xs|
  {
    seq(|xs|, i requires 0 <= i < |xs| => xs[i].sample)
  }

  function BytesIn(xs: seq<Stamped>): nat {
    if xs == [] then 0 else BytesIn(xs[..|xs| - 1]) + |xs[|xs| - 1].sample.data|
  }

  /** Samples enough for a block: by their number, their bytes, or the time from the first to the last. */
  predicate Enough(l: Limits, xs: seq<Stamped>) {
    xs != []
    && (|xs| >= (if l.samples > 0 then l.samples else 256)
      || BytesIn(xs) >= (if l.bytes > 0 then l.bytes else 0x10_0000)
      || xs[|xs| - 1].mono - xs[0].mono >= (if l.ms > 0 then l.ms else 2000))
  }

  /** The blocks that were completed, and the samples since. */
  datatype Grouped = Grouped(blocks: seq<seq<Stamped>>, rest: seq<Stamped>)

  /** Gathering sample after sample: the blocks, with the samples' stamps, and the builder. */
  function GatherAll(l: Limits, xs: seq<Stamped>): (Grouped, Builder) {
    if xs == [] then (Grouped([], []), Builder([], 0, 0))
    else
      var x, (g, b) := xs[|xs| - 1], GatherAll(l, xs[..|xs| - 1]);
      var r := Gather(l, b, x.sample, x.mono);
      var rest := if x.sample.data == [] then g.rest else g.rest + [x];
      (if r.block.Some? then Grouped(g.blocks + [rest], []) else Grouped(g.blocks, rest), r.builder)
  }

  /** The shortest stretch that is enough. */
  ghost predicate JustEnough(l: Limits, xs: seq<Stamped>) {
    Enough(l, xs) && forall n :: 0 <= n < |xs| ==> !Enough(l, xs[..n])
  }

  function AllOf(blocks: seq<seq<Stamped>>): seq<Stamped> {
    if blocks == [] then [] else AllOf(blocks[..|blocks| - 1]) + blocks[|blocks| - 1]
  }

  function NotEmpty(xs: seq<Stamped>): seq<Stamped> {
    if xs == [] then []
    else NotEmpty(xs[..|xs| - 1]) + (if xs[|xs| - 1].sample.data != [] then [xs[|xs| - 1]] else [])
  }

  /** The builder holds the samples since the last block, of which none up to anywhere are enough. */
  ghost predicate Holding(l: Limits, b: Builder, rest: seq<Stamped>) {
    b.samples == Bare(rest) && (rest != [] ==> b.bytes == BytesIn(rest) && b.startMono == rest[0].mono)
    && forall n :: 0 <= n <= |rest| ==> !Enough(l, rest[..n])
  }

  lemma {:induction false} OneMore(l: Limits, b: Builder, rest: seq<Stamped>, x: Stamped)
    requires Holding(l, b, rest) && x.sample.data != []
    ensures var r, more := Gather(l, b, x.sample, x.mono), rest + [x];
      if r.block.Some? then r.block.value == Bare(more) && JustEnough(l, more) && Holding(l, r.builder, [])
      else Holding(l, r.builder, more)
  {
    var more := rest + [x];
    assert more[..|rest|] == rest;
    assert BytesIn(more) == BytesIn(rest) + |x.sample.data|;
    assert BytesIn([]) == 0;
    forall n | 0 <= n <= |rest|
      ensures !Enough(l, more[..n])
    {
      assert more[..n] == rest[..n];
    }
    assert more[..|more|] == more;
    assert Bare(more) == Bare(rest) + [x.sample];
    hide BytesIn;
  }

  /**
   However samples come: those with bytes are grouped in order into blocks, each the shortest stretch that is enough
   by number, bytes or time; what is not enough yet stays in the builder.
   */
  lemma {:induction false} GatheredShortest(l: Limits, xs: seq<Stamped>)
    ensures var (g, b) := GatherAll(l, xs);
      AllOf(g.blocks) + g.rest == NotEmpty(xs) && Holding(l, b, g.rest)
      && forall k :: 0 <= k < |g.blocks| ==> JustEnough(l, g.blocks[k])
    decreases |xs|
  {
    hide *;
    if xs == [] {
      NothingHeld(l);
      NothingGrouped(l, xs);
    } else {
      var before, x := xs[..|xs| - 1], xs[|xs| - 1];
      GatheredShortest(l, before);
      var (g, b) := GatherAll(l, before);
      GroupOne(l, xs);
      if x.sample.data == [] {
        EmptyIgnored(l, b, x.sample, x.mono);
        assert NotEmpty(before) + [] == NotEmpty(before);
      } else {
        OneMore(l, b, g.rest, x);
        ConcatAssociative(AllOf(g.blocks), g.rest, [x]);
        AllOfMore(g.blocks, g.rest + [x]);
        var all := AllOf(g.blocks + [g.rest + [x]]);
        assert all + [] == all;
      }
    }
  }

  lemma {:induction false} NothingGrouped(l: Limits, xs: seq<Stamped>)
    requires xs == []
    ensures GatherAll(l, xs) == (Grouped([], []), Builder([], 0, 0)) && NotEmpty(xs) == [] && AllOf([]) == []
  {
  }

  lemma {:induction false} GroupOne(l: Limits, xs: seq<Stamped>)
    requires xs != []
    ensures var before, x := xs[..|xs| - 1], xs[|xs| - 1];
      var (g, b) := GatherAll(l, before);
      var r := Gather(l, b, x.sample, x.mono);
      var rest := if x.sample.data == [] then g.rest else g.rest + [x];
      GatherAll(l, xs) == (if r.block.Some? then Grouped(g.blocks + [rest], []) else Grouped(g.blocks, rest), r.builder)
      && NotEmpty(xs) == NotEmpty(before) + if x.sample.data != [] then [x] else []
  {
    hide Gather;
  }

  lemma {:induction false} AllOfMore(blocks: seq<seq<Stamped>>, block: seq<Stamped>)
    ensures AllOf(blocks + [block]) == AllOf(blocks) + block
  {
    assert (blocks + [block])[..|blocks|] == blocks;
  }

  lemma {:induction false} NothingHeld(l: Limits)
    ensures Holding(l, Builder([], 0, 0), [])
  {
  }

  lemma {:induction false} EmptyIgnored(l: Limits, b: Builder, s: Sample, mono: int)
    requires s.data == []
    ensures Gather(l, b, s, mono) == Gathered(b, None)
  {
  }

  // ------------------------------------------------------------ files

  function OpenWriter(w: World, st: State): State {
    if !w.opens(st.tries) then st.(tries := st.tries + 1)
    else
      st.(tries := st.tries + 1, ticks := st.ticks + 1, fileStarted := w.mono(st.ticks), open := true, writer := true,
          builder := Some(Builder([], 0, 0)), files := st.files + [File(w.mono(st.ticks), None, [], [])])
  }

  predicate RotateDue(cfg: Config, age: int, block: seq<Sample>) {
    age >= cfg.rotateMs && (HasKeyframe(block) || age >= cfg.rotateMs + ROTATE_GRACE_MS)
  }

  function Rotate(w: World, st: State, at: int): State {
    if !w.opens(st.tries) then st.(tries := st.tries + 1, writer := false)
    else
      st.(tries := st.tries + 1, ticks := st.ticks + 1, fileStarted := w.mono(st.ticks), writer := true,
          files := st.files + [File(w.mono(st.ticks), Some(at), [], [])])
  }

  /** Goes on in a new file first, when it is time. */
  function MaybeRotate(w: World, cfg: Config, st: State, block: seq<Sample>): State {
    if cfg.rotateMs <= 0 then st
    else
      var at, read := w.mono(st.ticks), st.(ticks := st.ticks + 1);
      if RotateDue(cfg, at - st.fileStarted, block) then Rotate(w, read, at) else read
  }

  function AppendBlock(files: seq<File>, block: seq<Sample>, at: int): seq<File>
    requires files != []
  {
    var n := |files| - 1;
    files[n := files[n].(blocks := files[n].blocks + [block], asked := files[n].asked + [at])]
  }

  function PutBlock(w: World, st: State, block: seq<Sample>, at: int): State {
    if !st.writer || st.files == [] then st
    else if !w.writes(st.wrote) then st.(wrote := st.wrote + 1, writer := false)
    else st.(wrote := st.wrote + 1, files := AppendBlock(st.files, block, at))
  }

  /** What the clock says when a block is written, if files are cut by age at all. */
  function AskedAt(w: World, cfg: Config, st: State): int {
    if cfg.rotateMs <= 0 then 0 else w.mono(st.ticks)
  }

  function WriteBlock(w: World, cfg: Config, st: State, block: seq<Sample>): State {
    PutBlock(w, MaybeRotate(w, cfg, st, block), block, AskedAt(w, cfg, st))
  }

  function AddSample(w: World, cfg: Config, st: State, s: Sample): State {
    var mono, read := w.mono(st.ticks), st.(ticks := st.ticks + 1);
    match st.builder
    case None => read
    case Some(b) =>
      var g := Gather(cfg.limits, b, s, mono);
      var kept := read.(builder := Some(g.builder));
      if g.block.None? then kept else WriteBlock(w, cfg, kept, g.block.value)
  }

  function Close(w: World, cfg: Config, st: State): State {
    var flushed :=
      if st.builder.None? || st.builder.value.samples == [] then st
      else WriteBlock(w, cfg, st, st.builder.value.samples);
    flushed.(builder := None, writer := false, open := false)
  }

  function Reset(st: State): State {
    st.(video := false, audio := false, firstFormat := 0, pending := [], pendingBytes := 0)
  }

  // ------------------------------------------------------------ what the source of media calls

  function FirstFormat(w: World, st: State): State {
    if st.firstFormat == 0 then st.(firstFormat := w.mono(st.ticks), ticks := st.ticks + 1) else st
  }

  function OnVideoFormat(w: World, cfg: Config, st: State): State {
    var ready := if st.open then Reset(Close(w, cfg, st)) else st;
    FirstFormat(w, ready.(video := true))
  }

  function OnAudioFormat(w: World, st: State): State {
    if st.open then st else FirstFormat(w, st.(audio := true))
  }

  predicate ReadyAtOnce(cfg: Config, st: State) {
    st.audio || !cfg.recordAudio || st.pendingBytes >= MAX_PENDING_BYTES
  }

  predicate Ready(w: World, cfg: Config, st: State) {
    st.video && (ReadyAtOnce(cfg, st) || w.mono(st.ticks) - st.firstFormat >= cfg.waitAudioMs)
  }

  function AfterReady(cfg: Config, st: State): State {
    if st.video && !ReadyAtOnce(cfg, st) then st.(ticks := st.ticks + 1) else st
  }

  predicate KeepsAudio(cfg: Config, st: State) {
    cfg.recordAudio && st.audio
  }

  /** The first `n` of the samples held back, added one by one. */
  function AddFirst(w: World, cfg: Config, st: State, held: seq<Sample>, n: nat, audio: bool): State
    requires n <= |held|
  {
    if n == 0 then st
    else
      var before := AddFirst(w, cfg, st, held, n - 1, audio);
      if audio || !held[n - 1].audio then AddSample(w, cfg, before, held[n - 1]) else before
  }

  function Hold(st: State, s: Sample): State {
    if st.pendingBytes < MAX_PENDING_BYTES
    then st.(pendingBytes := st.pendingBytes + |s.data|, pending := st.pending + [s]) else st
  }

  function OnSampleClosed(w: World, cfg: Config, st: State, s: Sample): State {
    var held := Hold(st, s);
    var asked := AfterReady(cfg, held);
    if !Ready(w, cfg, held) then asked
    else
      var ready := OpenWriter(w, asked);
      if !ready.open then ready
      else AddFirst(w, cfg, ready.(pending := [], pendingBytes := 0), ready.pending, |ready.pending|,
        KeepsAudio(cfg, ready))
  }

  function OnSample(w: World, cfg: Config, st: State, s: Sample): State {
    if !st.open then if st.video then OnSampleClosed(w, cfg, st, s) else st
    else if s.audio && !KeepsAudio(cfg, st) then st
    else
      var added := AddSample(w, cfg, st, s);
      if added.open && !added.writer then Close(w, cfg, added) else added
  }

  function OnStreamStopped(w: World, cfg: Config, st: State): State {
    Reset(Close(w, cfg, st))
  }

  datatype Event = Video | Audio | Arrive(sample: Sample) | Stop

  function Handle(w: World, cfg: Config, st: State, e: Event): State {
    match e
    case Video => OnVideoFormat(w, cfg, st)
    case Audio => OnAudioFormat(w, st)
    case Arrive(s) => OnSample(w, cfg, st, s)
    case Stop => OnStreamStopped(w, cfg, st)
  }

  /** The state after the first `n` events of a run. */
  function After(w: World, cfg: Config, run: seq<Event>, n: nat): State
    requires n <= |run|
  {
    if n == 0 then START else Handle(w, cfg, After(w, cfg, run, n - 1), run[n - 1])
  }

  // ------------------------------------------------------------ what is on disk

  function Joined(blocks: seq<seq<Sample>>): seq<Sample> {
    if blocks == [] then [] else Joined(blocks[..|blocks| - 1]) + blocks[|blocks| - 1]
  }

  /** Every sample of every block of every file, in order. */
  function Written(files: seq<File>): seq<Sample> {
    if files == [] then [] else Written(files[..|files| - 1]) + Joined(files[|files| - 1].blocks)
  }

  function Building(st: State): seq<Sample> {
    if st.builder.Some? then st.builder.value.samples else []
  }

  /** Written or gathered for the block being built. */
  function Taken(st: State): seq<Sample> {
    Written(st.files) + Building(st)
  }

  lemma {:induction false} WrittenNewFile(files: seq<File>, f: File)
    requires f.blocks == []
    ensures Written(files + [f]) == Written(files)
  {
    assert (files + [f])[..|files|] == files;
  }

  lemma {:induction false} WrittenAppend(files: seq<File>, block: seq<Sample>, at: int)
    requires files != []
    ensures Written(AppendBlock(files, block, at)) == Written(files) + block
  {
    var n := |files| - 1;
    var after := AppendBlock(files, block, at);
    assert after[..n] == files[..n];
    assert after[n].blocks[..|files[n].blocks|] == files[n].blocks;
    ConcatAssociative(Written(files[..n]), Joined(files[n].blocks), block);
  }

  // ------------------------------------------------------------ conservation while nothing fails

  ghost predicate NothingFails(w: World) {
    forall n: nat :: w.opens(n) && w.writes(n)
  }

  /** A sample that a file keeps: it has bytes, and audio needs an audio track. */
  predicate Wanted(s: Sample, audio: bool) {
    s.data != [] && (audio || !s.audio)
  }

  function Keep(ss: seq<Sample>, audio: bool): seq<Sample> {
    if ss == [] then []
    else Keep(ss[..|ss| - 1], audio) + (if Wanted(ss[|ss| - 1], audio) then [ss[|ss| - 1]] else [])
  }

  /** A file is open and can be written. */
  predicate Recording(st: State) {
    st.open && st.writer && st.builder.Some? && st.files != []
  }

  /** All but the files and the counts of what the world was asked. */
  predicate SameSession(a: State, b: State) {
    a.builder == b.builder && a.open == b.open && a.video == b.video && a.audio == b.audio
    && a.pending == b.pending && a.pendingBytes == b.pendingBytes
  }

  lemma {:induction false} MaybeRotateKeeps(w: World, cfg: Config, st: State, block: seq<Sample>)
    ensures var r := MaybeRotate(w, cfg, st, block);
      Written(r.files) == Written(st.files) && SameSession(r, st) && (st.files != [] ==> r.files != [])
      && (NothingFails(w) && st.writer ==> r.writer)
  {
    var m := MaybeRotate(w, cfg, st, block);
    hide Written, RotateDue;
    if m.files != st.files {
      WrittenNewFile(st.files, m.files[|st.files|]);
    }
  }

  /** Going on in a new file and writing a block change nothing but where the next block goes. */
  lemma {:induction false} WriteBlockKeeps(w: World, cfg: Config, st: State, block: seq<Sample>)
    requires NothingFails(w) && st.writer && st.files != []
    ensures var r := WriteBlock(w, cfg, st, block);
      Written(r.files) == Written(st.files) + block && r.writer && r.files != [] && SameSession(r, st)
  {
    var m := MaybeRotate(w, cfg, st, block);
    hide Written, AppendBlock, MaybeRotate;
    MaybeRotateKeeps(w, cfg, st, block);
    var at := AskedAt(w, cfg, st);
    WrittenAppend(m.files, block, at);
    assert AppendBlock(m.files, block, at) != [] by { AppendKeepsCount(m.files, block, at); }
  }

  lemma {:induction false} AppendKeepsCount(files: seq<File>, block: seq<Sample>, at: int)
    requires files != []
    ensures |AppendBlock(files, block, at)| == |files|
  {
  }

  lemma {:induction false} AddSampleKeeps(w: World, cfg: Config, st: State, s: Sample)
    requires NothingFails(w) && Recording(st)
    ensures var r := AddSample(w, cfg, st, s);
      Recording(r) && Taken(r) == Taken(st) + (if s.data != [] then [s] else [])
      && r.video == st.video && r.audio == st.audio && r.pending == st.pending && r.pendingBytes == st.pendingBytes
  {
    hide WriteBlock, NothingFails, Written;
    var mono, read := w.mono(st.ticks), st.(ticks := st.ticks + 1);
    var g := Gather(cfg.limits, st.builder.value, s, mono);
    var kept := read.(builder := Some(g.builder));
    if g.block.Some? {
      WriteBlockKeeps(w, cfg, kept, g.block.value);
    }
    ConcatAssociative(Written(st.files), Building(st), [s]);
  }

  lemma {:induction false} AddFirstKeeps(w: World, cfg: Config, st: State, held: seq<Sample>, n: nat, audio: bool)
    requires NothingFails(w) && Recording(st) && n <= |held|
    ensures var r := AddFirst(w, cfg, st, held, n, audio);
      Recording(r) && Taken(r) == Taken(st) + Keep(held[..n], audio)
      && r.video == st.video && r.audio == st.audio && r.pending == st.pending && r.pendingBytes == st.pendingBytes
    decreases n
  {
    hide AddSample, NothingFails, Taken, Recording;
    if n > 0 {
      AddFirstKeeps(w, cfg, st, held, n - 1, audio);
      var before := AddFirst(w, cfg, st, held, n - 1, audio);
      assert held[..n][..n - 1] == held[..n - 1];
      if audio || !held[n - 1].audio {
        AddSampleKeeps(w, cfg, before, held[n - 1]);
      }
    }
  }

  lemma {:induction false} KeepAppend(ss: seq<Sample>, s: Sample, audio: bool)
    ensures Keep(ss + [s], audio) == Keep(ss, audio) + (if Wanted(s, audio) then [s] else [])
  {
    assert (ss + [s])[..|ss|] == ss;
  }

  /** Closing writes out the block being built. */
  lemma {:induction false} CloseKeeps(w: World, cfg: Config, st: State)
    requires NothingFails(w) && Recording(st)
    ensures var r := Close(w, cfg, st);
      Written(r.files) == Taken(st) && r.builder.None? && !r.open && !r.writer
  {
    hide WriteBlock, NothingFails, Written;
    if st.builder.value.samples != [] {
      WriteBlockKeeps(w, cfg, st, st.builder.value.samples);
    }
  }

  // ------------------------------------------------------------ the account of a run

  /**
   A plain account of what should be on disk, that knows nothing of blocks, files and waiting: samples
   that arrived since the video format (`all`), and what earlier recordings should hold (`done`).
   */
  datatype Account = Account(done: seq<Sample>, all: seq<Sample>)

  function Settle(a: Account, open: bool, audio: bool): Account {
    Account(a.done + (if open then Keep(a.all, audio) else []), [])
  }

  /** What an event does to the account, given whether a file is open and which formats are known. */
  function Noted(cfg: Config, a: Account, st: State, e: Event): Account {
    match e
    case Video => if st.open then Settle(a, true, cfg.recordAudio && st.audio) else a
    case Audio => a
    case Arrive(s) => if st.video then a.(all := a.all + [s]) else a
    case Stop => Settle(a, st.open, cfg.recordAudio && st.audio)
  }

  function AccountAfter(w: World, cfg: Config, run: seq<Event>, n: nat): Account
    requires n <= |run|
  {
    if n == 0 then Account([], [])
    else Noted(cfg, AccountAfter(w, cfg, run, n - 1), After(w, cfg, run, n - 1), run[n - 1])
  }

  /** The recorder holds exactly what the account says: on disk and in the block being built, or waiting. */
  ghost predicate Balanced(cfg: Config, st: State, a: Account) {
    if st.open then
      Recording(st) && st.video && st.pending == [] && st.pendingBytes == 0
      && Taken(st) == a.done + Keep(a.all, cfg.recordAudio && st.audio)
    else
      st.builder.None? && Written(st.files) == a.done && st.pending == a.all
      && st.pendingBytes < MAX_PENDING_BYTES && (!st.video ==> st.pending == [])
  }

  lemma {:induction false} VideoBalanced(w: World, cfg: Config, st: State, a: Account)
    requires NothingFails(w) && Balanced(cfg, st, a)
    ensures Balanced(cfg, OnVideoFormat(w, cfg, st), Noted(cfg, a, st, Video))
  {
    hide Close, Written, NothingFails, Keep;
    if st.open {
      CloseKeeps(w, cfg, st);
    }
  }

  lemma {:induction false} StopBalanced(w: World, cfg: Config, st: State, a: Account)
    requires NothingFails(w) && Balanced(cfg, st, a)
    ensures Balanced(cfg, OnStreamStopped(w, cfg, st), Noted(cfg, a, st, Stop))
  {
    hide WriteBlock, Written, NothingFails, Keep;
    if st.open {
      CloseKeeps(w, cfg, st);
    }
  }

  lemma {:induction false} ArriveOpenBalanced(w: World, cfg: Config, st: State, a: Account, s: Sample)
    requires NothingFails(w) && Balanced(cfg, st, a) && st.open
    ensures Balanced(cfg, OnSample(w, cfg, st, s), Noted(cfg, a, st, Arrive(s)))
  {
    hide AddSample, Close, Written, NothingFails, Keep, Taken;
    KeepAppend(a.all, s, KeepsAudio(cfg, st));
    if !s.audio || KeepsAudio(cfg, st) {
      AddSampleKeeps(w, cfg, st, s);
    }
    ConcatAssociative(a.done, Keep(a.all, KeepsAudio(cfg, st)), [s]);
  }

  lemma {:induction false} ArriveClosedBalanced(w: World, cfg: Config, st: State, a: Account, s: Sample)
    requires NothingFails(w) && Balanced(cfg, st, a) && !st.open && st.video
    ensures Balanced(cfg, OnSample(w, cfg, st, s), Noted(cfg, a, st, Arrive(s)))
  {
    hide AddFirst, Written, Keep;
    var held := Hold(st, s);
    if Ready(w, cfg, held) {
      var ready := OpenWriter(w, AfterReady(cfg, held));
      var begun := ready.(pending := [], pendingBytes := 0);
      WrittenNewFile(st.files, ready.files[|st.files|]);
      var n, audio := |ready.pending|, KeepsAudio(cfg, ready);
      AddFirstKeeps(w, cfg, begun, ready.pending, n, audio);
      assert ready.pending[..n] == ready.pending;
    }
  }

  /**
   While opens and writes succeed, after every event of every run, all that arrived after the video
   format is on disk or being gathered, in order and once, less empty samples and the audio of files
   without an audio track; before a file is open, everything waits and nothing is dropped. Only what
   still waits when the stream stops is lost.
   */
  lemma {:induction false} RunBalanced(w: World, cfg: Config, run: seq<Event>, n: nat)
    requires NothingFails(w) && n <= |run|
    ensures Balanced(cfg, After(w, cfg, run, n), AccountAfter(w, cfg, run, n))
    decreases n
  {
    hide Handle, Noted, NothingFails, Balanced;
    StartBalanced(cfg);
    if n > 0 {
      RunBalanced(w, cfg, run, n - 1);
      HandleBalanced(w, cfg, After(w, cfg, run, n - 1), AccountAfter(w, cfg, run, n - 1), run[n - 1]);
    }
  }

  lemma {:induction false} StartBalanced(cfg: Config)
    ensures Balanced(cfg, START, Account([], []))
  {
  }

  lemma {:induction false} HandleBalanced(w: World, cfg: Config, st: State, a: Account, e: Event)
    requires NothingFails(w) && Balanced(cfg, st, a)
    ensures Balanced(cfg, Handle(w, cfg, st, e), Noted(cfg, a, st, e))
  {
    hide NothingFails, Balanced, OnVideoFormat, OnStreamStopped, OnSample, OnAudioFormat;
    match e
    case Video => VideoBalanced(w, cfg, st, a);
    case Audio => AudioBalanced(w, cfg, st, a);
    case Stop => StopBalanced(w, cfg, st, a);
    case Arrive(s) => ArriveBalanced(w, cfg, st, a, s);
  }

  lemma {:induction false} AudioBalanced(w: World, cfg: Config, st: State, a: Account)
    requires Balanced(cfg, st, a)
    ensures Balanced(cfg, OnAudioFormat(w, st), a)
  {
    hide Written, Keep;
  }

  lemma {:induction false} ArriveBalanced(w: World, cfg: Config, st: State, a: Account, s: Sample)
    requires NothingFails(w) && Balanced(cfg, st, a)
    ensures Balanced(cfg, OnSample(w, cfg, st, s), Noted(cfg, a, st, Arrive(s)))
  {
    if st.open {
      ArriveOpenBalanced(w, cfg, st, a, s);
    } else if st.video {
      ArriveClosedBalanced(w, cfg, st, a, s);
    }
    hide NothingFails, Written, Keep, OnSampleClosed, AddSample, Close;
  }

  // ------------------------------------------------------------ whatever fails

  /** Everything that arrived, in order. */
  function Arrived(run: seq<Event>, n: nat): seq<Sample>
    requires n <= |run|
  {
    if n == 0 then [] else Arrived(run, n - 1) + Arrival(run[n - 1])
  }

  /** On disk, being gathered, or waiting. */
  function All(st: State): seq<Sample> {
    Taken(st) + st.pending
  }

  /** `b` is `a` followed by `more`, less some: nothing twice, nothing out of order. */
  ghost predicate AtMost(b: seq<Sample>, a: seq<Sample>, more: seq<Sample>) {
    Subsequence(b, a + more)
  }

  lemma {:induction false} AtMostSame(a: seq<Sample>, more: seq<Sample>)
    ensures AtMost(a, a, more) && AtMost(a + more, a, more)
  {
    SubsequenceReflexive(a);
    SubsequenceReflexive(a + more);
    NothingOf(more);
    SubsequenceJoin(a, a, [], more);
    assert a + [] == a;
  }

  /** Two steps, one after the other. */
  lemma {:induction false} AtMostThen(c: seq<Sample>, b: seq<Sample>, a: seq<Sample>, x: seq<Sample>, y: seq<Sample>)
    requires AtMost(b, a, x) && AtMost(c, b, y)
    ensures AtMost(c, a, x + y)
  {
    hide Subsequence;
    SubsequenceReflexive(y);
    SubsequenceJoin(b, a + x, y, y);
    SubsequenceTransitive(c, b + y, a + x + y);
    ConcatAssociative(a, x, y);
  }

  /** What follows stays. */
  lemma {:induction false} AtMostBefore(b: seq<Sample>, a: seq<Sample>, x: seq<Sample>, y: seq<Sample>)
    requires AtMost(b, a, x)
    ensures AtMost(b + y, a, x + y)
  {
    hide Subsequence;
    SubsequenceReflexive(y);
    SubsequenceJoin(b, a + x, y, y);
    ConcatAssociative(a, x, y);
  }

  lemma {:induction false} PutBlockLoses(w: World, st: State, block: seq<Sample>, at: int)
    ensures AtMost(Written(PutBlock(w, st, block, at).files), Written(st.files), block)
    ensures SameSession(st, PutBlock(w, st, block, at))
  {
    hide Written, AtMost, AppendBlock;
    AtMostSame(Written(st.files), block);
    if st.files != [] {
      WrittenAppend(st.files, block, at);
    }
  }

  lemma {:induction false} WriteBlockLoses(w: World, cfg: Config, st: State, block: seq<Sample>)
    ensures AtMost(Written(WriteBlock(w, cfg, st, block).files), Written(st.files), block)
    ensures SameSession(st, WriteBlock(w, cfg, st, block))
  {
    hide Written, AtMost, MaybeRotate, PutBlock;
    MaybeRotateKeeps(w, cfg, st, block);
    PutBlockLoses(w, MaybeRotate(w, cfg, st, block), block, AskedAt(w, cfg, st));
  }

  lemma {:induction false} NothingOf<T>(a: seq<T>)
    ensures Subsequence([], a)
  {
  }

  /** What a sample leaves in the builder and closes as a block, against what was there and the sample. */
  lemma {:induction false} GatherLoses(l: Limits, b: Builder, s: Sample, mono: int)
    ensures var g := Gather(l, b, s, mono);
      var out := (if g.block.Some? then g.block.value else []) + g.builder.samples;
      out == b.samples + [s] || out == b.samples
  {
  }

  lemma {:induction false} AddSampleLoses(w: World, cfg: Config, st: State, s: Sample)
    ensures var r := AddSample(w, cfg, st, s);
      AtMost(Taken(r), Taken(st), [s]) && r.open == st.open && r.video == st.video && r.audio == st.audio
      && r.pending == st.pending && (r.builder.Some? <==> st.builder.Some?)
  {
    hide Written, AtMost, WriteBlock, Gather;
    AtMostSame(Taken(st), [s]);
    if st.builder.Some? {
      var g := Gather(cfg.limits, st.builder.value, s, w.mono(st.ticks));
      GatherLoses(cfg.limits, st.builder.value, s, w.mono(st.ticks));
      var kept := st.(ticks := st.ticks + 1, builder := Some(g.builder));
      var files, rest := Written(st.files), g.builder.samples;
      ConcatAssociative(files, st.builder.value.samples, [s]);
      if g.block.Some? {
        var block := g.block.value;
        WriteBlockLoses(w, cfg, kept, block);
        AtMostBefore(Written(WriteBlock(w, cfg, kept, block).files), files, block, rest);
        GatheredWithin(Taken(AddSample(w, cfg, st, s)), files, st.builder.value.samples, block + rest, s);
      } else {
        assert [] + rest == rest;
      }
    }
  }

  lemma {:induction false} GatheredWithin(r: seq<Sample>, files: seq<Sample>, built: seq<Sample>, out: seq<Sample>,
      s: Sample)
    requires AtMost(r, files, out) && (out == built + [s] || out == built)
    ensures AtMost(r, files + built, [s])
  {
    ConcatAssociative(files, built, [s]);
    AtMostSame(files + built, [s]);
    hide Subsequence;
    if out == built {
      SubsequenceTransitive(r, files + built, files + built + [s]);
    }
  }

  lemma {:induction false} AddFirstLoses(w: World, cfg: Config, st: State, held: seq<Sample>, n: nat, audio: bool)
    requires n <= |held|
    ensures var r := AddFirst(w, cfg, st, held, n, audio);
      AtMost(Taken(r), Taken(st), held[..n]) && r.open == st.open && r.video == st.video && r.audio == st.audio
      && r.pending == st.pending && (r.builder.Some? <==> st.builder.Some?)
    decreases n
  {
    hide AddSample, Taken, AtMost;
    AtMostSame(Taken(st), held[..n]);
    if n > 0 {
      AddFirstLoses(w, cfg, st, held, n - 1, audio);
      var before := AddFirst(w, cfg, st, held, n - 1, audio);
      assert held[..n - 1] + [held[n - 1]] == held[..n];
      AddSampleLoses(w, cfg, before, held[n - 1]);
      AtMostSame(Taken(before), [held[n - 1]]);
      AtMostThen(Taken(AddFirst(w, cfg, st, held, n, audio)), Taken(before), Taken(st), held[..n - 1], [held[n - 1]]);
    }
  }

  lemma {:induction false} CloseLoses(w: World, cfg: Config, st: State)
    ensures var r := Close(w, cfg, st);
      AtMost(Taken(r), Taken(st), []) && r.builder.None? && !r.open && r.pending == st.pending
  {
    hide Written, AtMost, WriteBlock;
    var files, block := Written(st.files), Building(st);
    AtMostSame(files, []);
    assert files + [] == files;
    if block != [] {
      WriteBlockLoses(w, cfg, st, block);
      FlushedWithin(Written(WriteBlock(w, cfg, st, block).files), files, block);
    }
    assert Taken(Close(w, cfg, st)) == Written(Close(w, cfg, st).files);
  }

  lemma {:induction false} FlushedWithin(r: seq<Sample>, files: seq<Sample>, block: seq<Sample>)
    requires AtMost(r, files, block)
    ensures AtMost(r, files + block, [])
  {
    assert files + block + [] == files + block;
  }

  /** Nothing waits while a file is open, and nothing is gathered while none is. */
  predicate Tidy(st: State) {
    (st.open ==> st.pending == []) && (!st.open ==> st.builder.None?)
  }

  function Arrival(e: Event): seq<Sample> {
    if e.Arrive? then [e.sample] else []
  }

  ghost predicate Loses(st: State, r: State, more: seq<Sample>) {
    Tidy(r) && AtMost(All(r), All(st), more)
  }

  lemma {:induction false} ResetLoses(w: World, cfg: Config, st: State)
    requires Tidy(st)
    ensures Loses(st, Reset(Close(w, cfg, st)), [])
  {
    hide Close, Written, AtMost;
    CloseLoses(w, cfg, st);
    var r := Close(w, cfg, st);
    PendingGone(Taken(r), Taken(st), st.pending);
  }

  lemma {:induction false} PendingGone(r: seq<Sample>, taken: seq<Sample>, pending: seq<Sample>)
    requires AtMost(r, taken, [])
    ensures AtMost(r + [], taken + pending, [])
  {
    assert r + [] == r && taken + pending + [] == taken + pending && taken + [] == taken;
    hide Subsequence;
    AtMostSame(taken, pending);
    SubsequenceTransitive(r, taken, taken + pending);
  }

  lemma {:induction false} ArriveOpenLoses(w: World, cfg: Config, st: State, s: Sample)
    requires Tidy(st) && st.open
    ensures Loses(st, OnSample(w, cfg, st, s), [s])
  {
    hide AddSample, Close, Written, AtMost, Taken;
    assert forall r: State :: r.pending == [] ==> All(r) == Taken(r);
    AtMostSame(All(st), [s]);
    var added := AddSample(w, cfg, st, s);
    AddSampleLoses(w, cfg, st, s);
    AtMostSame(Taken(added), []);
    CloseLoses(w, cfg, added);
    AtMostThen(Taken(Close(w, cfg, added)), Taken(added), Taken(st), [s], []);
    assert [s] + [] == [s];
  }

  lemma {:induction false} ArriveClosedLoses(w: World, cfg: Config, st: State, s: Sample)
    requires Tidy(st) && !st.open
    ensures Loses(st, OnSample(w, cfg, st, s), [s])
  {
    hide AddFirst, Written, AtMost, Ready;
    var held := Hold(st, s);
    AtMostSame(All(st), [s]);
    ConcatAssociative(Taken(st), st.pending, [s]);
    var asked := AfterReady(cfg, held);
    if st.video && Ready(w, cfg, held) && w.opens(asked.tries) {
      var ready := OpenWriter(w, asked);
      var begun := ready.(pending := [], pendingBytes := 0);
      WrittenNewFile(st.files, ready.files[|st.files|]);
      var n := |ready.pending|;
      assert ready.pending[..n] == ready.pending && Taken(begun) == Taken(st);
      AddFirstLoses(w, cfg, begun, ready.pending, n, KeepsAudio(cfg, ready));
      var r := AddFirst(w, cfg, begun, ready.pending, n, KeepsAudio(cfg, ready));
      assert Taken(r) + [] == Taken(r);
      HeldWithin(Taken(r), Taken(st), st.pending, ready.pending, s);
    }
  }

  lemma {:induction false} HeldWithin(r: seq<Sample>, taken: seq<Sample>, before: seq<Sample>, held: seq<Sample>,
      s: Sample)
    requires AtMost(r, taken, held) && (held == before + [s] || held == before)
    ensures AtMost(r, taken + before, [s])
  {
    GatheredWithin(r, taken, before, held, s);
  }

  lemma {:induction false} HandleLoses(w: World, cfg: Config, st: State, e: Event)
    requires Tidy(st)
    ensures Loses(st, Handle(w, cfg, st, e), Arrival(e))
  {
    hide AtMost, OnSample, Written, Close;
    AtMostSame(All(st), []);
    assert All(st) + [] == All(st);
    ResetLoses(w, cfg, st);
    match e
    case Video =>
    case Audio =>
    case Stop =>
    case Arrive(s) =>
      if st.open {
        ArriveOpenLoses(w, cfg, st, s);
      } else {
        ArriveClosedLoses(w, cfg, st, s);
      }
  }

  /**
   Whatever creations and writes fail, after every event of every run: what is on disk, gathered or
   waiting is what arrived less some of it. No sample twice, none out of order, none made up.
   */
  lemma {:induction false} RunInventsNothing(w: World, cfg: Config, run: seq<Event>, n: nat)
    requires n <= |run|
    ensures Tidy(After(w, cfg, run, n))
    ensures Subsequence(All(After(w, cfg, run, n)), Arrived(run, n))
    decreases n
  {
    hide Handle, Arrival, Taken, Subsequence, Tidy;
    StartEmpty();
    if n > 0 {
      RunInventsNothing(w, cfg, run, n - 1);
      var st, r, x := After(w, cfg, run, n - 1), After(w, cfg, run, n), Arrival(run[n - 1]);
      HandleLoses(w, cfg, st, run[n - 1]);
      SubsequenceReflexive(x);
      SubsequenceJoin(All(st), Arrived(run, n - 1), x, x);
      SubsequenceTransitive(All(r), All(st) + x, Arrived(run, n));
    }
  }

  lemma {:induction false} StartEmpty()
    ensures All(START) == [] && Tidy(START) && Subsequence<Sample>([], [])
  {
  }

  // ------------------------------------------------------------ where files are cut

  /**
   A block belongs in its file by age: with a keyframe it came before the limit, without one before the limit and
   the grace.
   */
  predicate InTime(cfg: Config, age: int, block: seq<Sample>) {
    if HasKeyframe(block) then age < cfg.rotateMs
    else age < cfg.rotateMs + ROTATE_GRACE_MS
  }

  /** All blocks came in time, but for the one the file was begun for. */
  ghost predicate Fresh(cfg: Config, f: File) {
    |f.asked| == |f.blocks|
    && forall k :: (if f.cut.Some? then 1 else 0) <= k < |f.blocks| ==> InTime(cfg, f.asked[k] - f.started, f.blocks[k])
  }

  /**
   A file begun by rotation: its predecessor was old enough, and it starts with a keyframe or after the grace.
   */
  ghost predicate CutWell(cfg: Config, files: seq<File>, k: nat)
    requires k < |files|
  {
    (cfg.rotateMs > 0 ==> Fresh(cfg, files[k]))
    && (files[k].cut.Some? ==>
      k > 0 && cfg.rotateMs > 0
      && var age := files[k].cut.value - files[k - 1].started;
        age >= cfg.rotateMs
        && (files[k].blocks == [] || HasKeyframe(files[k].blocks[0]) || age >= cfg.rotateMs + ROTATE_GRACE_MS))
  }

  ghost predicate AllCutWell(cfg: Config, files: seq<File>) {
    forall k :: 0 <= k < |files| ==> CutWell(cfg, files, k)
  }

  /** A file that can be written and was begun by rotation already has its first block. */
  ghost predicate Cuts(cfg: Config, st: State) {
    AllCutWell(cfg, st.files)
    && (st.builder.Some? || st.writer ==> st.files != [])
    && (st.files != [] ==> st.fileStarted == st.files[|st.files| - 1].started)
    && (st.writer && st.files[|st.files| - 1].cut.Some? ==> st.files[|st.files| - 1].blocks != [])
  }

  lemma {:induction false} CutsAdded(cfg: Config, files: seq<File>, f: File)
    requires AllCutWell(cfg, files) && CutWell(cfg, files + [f], |files|)
    ensures AllCutWell(cfg, files + [f])
  {
    hide HasKeyframe, Fresh;
    var r := files + [f];
    forall k | 0 <= k < |r|
      ensures CutWell(cfg, r, k)
    {
      if k < |files| {
        assert CutWell(cfg, files, k);
      }
    }
  }

  lemma {:induction false} CutsAppended(cfg: Config, files: seq<File>, block: seq<Sample>, at: int)
    requires files != [] && AllCutWell(cfg, files)
    requires CutWell(cfg, AppendBlock(files, block, at), |files| - 1)
    ensures AllCutWell(cfg, AppendBlock(files, block, at))
  {
    hide HasKeyframe, Fresh;
    var r := AppendBlock(files, block, at);
    forall k | 0 <= k < |r|
      ensures CutWell(cfg, r, k)
    {
      assert CutWell(cfg, files, k);
    }
  }

  /** Between cutting a file and writing the block it was cut for. */
  ghost predicate CutFor(cfg: Config, st: State, block: seq<Sample>, at: int) {
    var n := |st.files| - 1;
    AllCutWell(cfg, st.files)
    && (st.builder.Some? || st.writer ==> st.files != [])
    && (st.files != [] ==> st.fileStarted == st.files[n].started)
    && (st.writer && st.files[n].cut.Some? && st.files[n].blocks == [] ==>
      n > 0 && RotateDue(cfg, st.files[n].cut.value - st.files[n - 1].started, block))
    && (st.writer && cfg.rotateMs > 0 ==>
      (st.files[n].cut.Some? && st.files[n].blocks == []) || !RotateDue(cfg, at - st.files[n].started, block))
  }

  lemma {:induction false} RotationCuts(w: World, cfg: Config, st: State, block: seq<Sample>)
    requires Cuts(cfg, st) && st.builder.Some?
    ensures CutFor(cfg, MaybeRotate(w, cfg, st, block), block, AskedAt(w, cfg, st))
  {
    hide HasKeyframe, AllCutWell;
    var m := MaybeRotate(w, cfg, st, block);
    if m.files != st.files {
      CutsAdded(cfg, st.files, m.files[|st.files|]);
    }
  }

  lemma {:induction false} FreshAppended(cfg: Config, f: File, block: seq<Sample>, at: int)
    requires Fresh(cfg, f) && ((f.cut.Some? && f.blocks == []) || InTime(cfg, at - f.started, block))
    ensures Fresh(cfg, f.(blocks := f.blocks + [block], asked := f.asked + [at]))
  {
    hide InTime;
  }

  lemma {:induction false} WritingCuts(w: World, cfg: Config, st: State, block: seq<Sample>, at: int)
    requires CutFor(cfg, st, block, at)
    ensures Cuts(cfg, PutBlock(w, st, block, at))
  {
    hide HasKeyframe, Fresh;
    if st.writer && w.writes(st.wrote) {
      var n := |st.files| - 1;
      assert CutWell(cfg, st.files, n);
      if cfg.rotateMs > 0 {
        FreshAppended(cfg, st.files[n], block, at);
      }
      CutsAppended(cfg, st.files, block, at);
    }
  }

  lemma {:induction false} WriteBlockCuts(w: World, cfg: Config, st: State, block: seq<Sample>)
    requires Cuts(cfg, st) && st.builder.Some?
    ensures Cuts(cfg, WriteBlock(w, cfg, st, block))
  {
    hide Cuts, CutFor, MaybeRotate, PutBlock, AskedAt;
    RotationCuts(w, cfg, st, block);
    WritingCuts(w, cfg, MaybeRotate(w, cfg, st, block), block, AskedAt(w, cfg, st));
  }

  lemma {:induction false} AddSampleCuts(w: World, cfg: Config, st: State, s: Sample)
    requires Cuts(cfg, st)
    ensures Cuts(cfg, AddSample(w, cfg, st, s))
  {
    hide WriteBlock, Gather, AllCutWell;
    if st.builder.Some? {
      var g := Gather(cfg.limits, st.builder.value, s, w.mono(st.ticks));
      if g.block.Some? {
        WriteBlockCuts(w, cfg, st.(ticks := st.ticks + 1, builder := Some(g.builder)), g.block.value);
      }
    }
  }

  lemma {:induction false} AddFirstCuts(w: World, cfg: Config, st: State, held: seq<Sample>, n: nat, audio: bool)
    requires Cuts(cfg, st) && n <= |held|
    ensures Cuts(cfg, AddFirst(w, cfg, st, held, n, audio))
    decreases n
  {
    hide Cuts, AddSample;
    if n > 0 {
      AddFirstCuts(w, cfg, st, held, n - 1, audio);
      AddSampleCuts(w, cfg, AddFirst(w, cfg, st, held, n - 1, audio), held[n - 1]);
    }
  }

  lemma {:induction false} CloseCuts(w: World, cfg: Config, st: State)
    requires Cuts(cfg, st)
    ensures Cuts(cfg, Close(w, cfg, st)) && Cuts(cfg, Reset(Close(w, cfg, st)))
  {
    hide WriteBlock, AllCutWell;
    if st.builder.Some? {
      WriteBlockCuts(w, cfg, st, st.builder.value.samples);
    }
  }

  lemma {:induction false} OpenCuts(w: World, cfg: Config, st: State)
    requires Cuts(cfg, st)
    ensures Cuts(cfg, OpenWriter(w, st))
  {
    hide AllCutWell;
    if w.opens(st.tries) {
      CutsAdded(cfg, st.files, File(w.mono(st.ticks), None, [], []));
    }
  }

  lemma {:induction false} HandleCuts(w: World, cfg: Config, st: State, e: Event)
    requires Cuts(cfg, st)
    ensures Cuts(cfg, Handle(w, cfg, st, e))
  {
    hide AllCutWell, Close, OnSample;
    CloseCuts(w, cfg, st);
    match e
    case Video =>
    case Audio =>
    case Stop =>
    case Arrive(s) => ArriveCuts(w, cfg, st, s);
  }

  lemma {:induction false} ArriveCuts(w: World, cfg: Config, st: State, s: Sample)
    requires Cuts(cfg, st)
    ensures Cuts(cfg, OnSample(w, cfg, st, s))
  {
    hide AllCutWell, Close, AddFirst, AddSample, OpenWriter, Ready;
    if st.open {
      AddSampleCuts(w, cfg, st, s);
      CloseCuts(w, cfg, AddSample(w, cfg, st, s));
    } else {
      var asked := AfterReady(cfg, Hold(st, s));
      OpenCuts(w, cfg, asked);
      var ready := OpenWriter(w, asked);
      AddFirstCuts(w, cfg, ready.(pending := [], pendingBytes := 0), ready.pending, |ready.pending|,
        KeepsAudio(cfg, ready));
    }
  }

  /**
   In every run, whatever fails: a file begun by rotation starts with a block that has a keyframe, or
   the file before it had aged a minute past the limit; and never before the limit. And files are cut as soon as
   they can be: no other block with a keyframe is in a file that had reached the limit, and no block at all in one
   a minute past it.
   */
  lemma {:induction false} RunCutsWell(w: World, cfg: Config, run: seq<Event>, n: nat)
    requires n <= |run|
    ensures Cuts(cfg, After(w, cfg, run, n))
    decreases n
  {
    hide Cuts, Handle;
    assert Cuts(cfg, START) by { StartCuts(cfg); }
    if n > 0 {
      RunCutsWell(w, cfg, run, n - 1);
      HandleCuts(w, cfg, After(w, cfg, run, n - 1), run[n - 1]);
    }
  }

  lemma {:induction false} StartCuts(cfg: Config)
    ensures Cuts(cfg, START)
  {
  }

  // ------------------------------------------------------------ when a file is opened

  /** Where the session of event `n` began: after the last stop, or at the last video format that ended a file. */
  ghost function Begun(w: World, cfg: Config, run: seq<Event>, n: nat): (b: nat)
    requires n <= |run|
    ensures b <= n
  {
    if n == 0 || run[n - 1].Stop? then n
    else if run[n - 1].Video? && After(w, cfg, run, n - 1).open then n - 1
    else Begun(w, cfg, run, n - 1)
  }

  /** A video format was announced in the session. */
  ghost predicate VideoKnown(run: seq<Event>, b: nat, n: nat)
    requires b <= n <= |run|
  {
    exists k :: b <= k < n && run[k].Video?
  }

  /** An audio format was announced in the session while no file was open. */
  ghost predicate AudioKnown(w: World, cfg: Config, run: seq<Event>, b: nat, n: nat)
    requires b <= n <= |run|
  {
    exists k :: b <= k < n && run[k].Audio? && !After(w, cfg, run, k).open
  }

  /** What the clock said last before event `n`. */
  function LastRead(w: World, cfg: Config, run: seq<Event>, n: nat): int
    requires n <= |run|
  {
    var ticks := After(w, cfg, run, n).ticks;
    if ticks == 0 then 0 else w.mono(ticks - 1)
  }

  /** What the clock said at the session's first format that was taken; a reading of 0 counts as none. */
  ghost function FirstRead(w: World, cfg: Config, run: seq<Event>, b: nat, n: nat): int
    requires b <= n <= |run|
  {
    if n == b then 0
    else
      var earlier := FirstRead(w, cfg, run, b, n - 1);
      var taken := run[n - 1].Video? || (run[n - 1].Audio? && !After(w, cfg, run, n - 1).open);
      if earlier == 0 && taken then LastRead(w, cfg, run, n) else earlier
  }

  /** Bytes that arrived after the session's video format and since a file was last open. */
  ghost function Waiting(w: World, cfg: Config, run: seq<Event>, n: nat): nat
    requires n <= |run|
  {
    if n == 0 || run[n - 1].Stop? || After(w, cfg, run, n - 1).open then 0
    else
      Waiting(w, cfg, run, n - 1)
      + if run[n - 1].Arrive? && VideoKnown(run, Begun(w, cfg, run, n - 1), n - 1) then |run[n - 1].sample.data| else 0
  }

  /** What the recorder knows of its session is what the run says. */
  ghost predicate Knows(w: World, cfg: Config, run: seq<Event>, n: nat)
    requires n <= |run|
  {
    var st, b := After(w, cfg, run, n), Begun(w, cfg, run, n);
    st.video == VideoKnown(run, b, n) && st.audio == AudioKnown(w, cfg, run, b, n)
    && st.firstFormat == FirstRead(w, cfg, run, b, n)
    && Holds(st, if st.open then 0 else Waiting(w, cfg, run, n))
  }

  /** Bytes are held up to the limit, then no more. */
  predicate Holds(st: State, bytes: nat) {
    st.pendingBytes == bytes || (st.pendingBytes >= MAX_PENDING_BYTES && bytes >= MAX_PENDING_BYTES)
  }

  predicate SameFormats(a: State, b: State) {
    a.video == b.video && a.audio == b.audio && a.firstFormat == b.firstFormat && a.pendingBytes == b.pendingBytes
    && a.open == b.open
  }

  lemma {:induction false} WriteBlockSame(w: World, cfg: Config, st: State, block: seq<Sample>)
    ensures SameFormats(st, WriteBlock(w, cfg, st, block))
  {
    hide AppendBlock, RotateDue, AskedAt;
  }

  lemma {:induction false} AddSampleSame(w: World, cfg: Config, st: State, s: Sample)
    ensures SameFormats(st, AddSample(w, cfg, st, s))
  {
    hide WriteBlock, Gather;
    if st.builder.Some? {
      var g := Gather(cfg.limits, st.builder.value, s, w.mono(st.ticks));
      if g.block.Some? {
        WriteBlockSame(w, cfg, st.(ticks := st.ticks + 1, builder := Some(g.builder)), g.block.value);
      }
    }
  }

  lemma {:induction false} AddFirstSame(w: World, cfg: Config, st: State, held: seq<Sample>, n: nat, audio: bool)
    requires n <= |held|
    ensures SameFormats(st, AddFirst(w, cfg, st, held, n, audio))
    decreases n
  {
    hide AddSample;
    if n > 0 {
      AddFirstSame(w, cfg, st, held, n - 1, audio);
      AddSampleSame(w, cfg, AddFirst(w, cfg, st, held, n - 1, audio), held[n - 1]);
    }
  }

  lemma {:induction false} CloseSame(w: World, cfg: Config, st: State)
    ensures SameFormats(st.(open := false), Close(w, cfg, st))
  {
    hide WriteBlock;
    if st.builder.Some? {
      WriteBlockSame(w, cfg, st, st.builder.value.samples);
    }
  }

  /** The first format's time is the last reading, if none was known. */
  predicate First(w: World, st: State, r: State) {
    (r.ticks > 0 || st.firstFormat != 0)
    && r.firstFormat == if st.firstFormat == 0 then w.mono(r.ticks - 1) else st.firstFormat
  }

  /** What the arrival of a sample does: it opens a file, is held, or leaves what is held alone. */
  predicate Arrives(w: World, cfg: Config, st: State, r: State, s: Sample) {
    r.video == st.video && r.audio == st.audio && r.firstFormat == st.firstFormat
    && (st.open ==> r.pendingBytes == st.pendingBytes)
    && (!st.open ==>
      (r.open <==> st.video && Ready(w, cfg, Hold(st, s)) && w.opens(st.tries))
      && r.pendingBytes == if r.open then 0 else if st.video then Hold(st, s).pendingBytes else st.pendingBytes)
  }

  /** What an event does to what is known: a format is noted, a session ends, bytes are held. */
  lemma {:induction false} HandleKnows(w: World, cfg: Config, st: State, e: Event)
    ensures var r := Handle(w, cfg, st, e);
      match e
      case Stop => !r.video && !r.audio && r.firstFormat == 0 && r.pendingBytes == 0 && !r.open
      case Video =>
        r.video && !r.open
        && (if st.open then !r.audio && First(w, st.(firstFormat := 0), r) && r.pendingBytes == 0
            else r.audio == st.audio && First(w, st, r) && r.pendingBytes == st.pendingBytes)
      case Audio =>
        (st.open ==> r == st)
        && (!st.open ==>
          r.audio && r.video == st.video && !r.open && r.pendingBytes == st.pendingBytes && First(w, st, r))
      case Arrive(s) => Arrives(w, cfg, st, r, s)
  {
    hide Close, OnSample;
    CloseSame(w, cfg, st);
    if e.Arrive? {
      ArriveKnows(w, cfg, st, e.sample);
    }
  }

  lemma {:induction false} ArriveKnows(w: World, cfg: Config, st: State, s: Sample)
    ensures Arrives(w, cfg, st, OnSample(w, cfg, st, s), s)
  {
    hide AddFirst, AddSample, Close, Ready;
    if st.open {
      var added := AddSample(w, cfg, st, s);
      AddSampleSame(w, cfg, st, s);
      CloseSame(w, cfg, added);
    } else {
      var ready := OpenWriter(w, AfterReady(cfg, Hold(st, s)));
      AddFirstSame(w, cfg, ready.(pending := [], pendingBytes := 0), ready.pending, |ready.pending|,
        KeepsAudio(cfg, ready));
    }
  }

  lemma {:induction false} KnownStep(w: World, cfg: Config, run: seq<Event>, b: nat, n: nat)
    requires b < n <= |run|
    ensures VideoKnown(run, b, n) <==> VideoKnown(run, b, n - 1) || run[n - 1].Video?
    ensures AudioKnown(w, cfg, run, b, n)
      <==> AudioKnown(w, cfg, run, b, n - 1) || (run[n - 1].Audio? && !After(w, cfg, run, n - 1).open)
  {
    hide After;
  }

  lemma {:induction false} NothingKnown(w: World, cfg: Config, run: seq<Event>, n: nat)
    requires n <= |run|
    ensures !VideoKnown(run, n, n) && !AudioKnown(w, cfg, run, n, n) && FirstRead(w, cfg, run, n, n) == 0
  {
  }

  lemma {:induction false} BegunStep(w: World, cfg: Config, run: seq<Event>, n: nat)
    requires 0 < n <= |run|
    ensures var b, e, open := Begun(w, cfg, run, n), run[n - 1], After(w, cfg, run, n - 1).open;
      b == if e.Stop? then n else if e.Video? && open then n - 1 else Begun(w, cfg, run, n - 1)
    ensures var b, e, open := Begun(w, cfg, run, n), run[n - 1], After(w, cfg, run, n - 1).open;
      b < n ==>
      var first := FirstRead(w, cfg, run, b, n - 1);
      FirstRead(w, cfg, run, b, n)
        == if first == 0 && (e.Video? || (e.Audio? && !open)) then LastRead(w, cfg, run, n) else first
  {
    hide After, LastRead;
  }

  lemma {:induction false} WaitingStep(w: World, cfg: Config, run: seq<Event>, n: nat)
    requires 0 < n <= |run|
    ensures var e, before := run[n - 1], After(w, cfg, run, n - 1);
      var known := VideoKnown(run, Begun(w, cfg, run, n - 1), n - 1);
      Waiting(w, cfg, run, n)
        == if e.Stop? || before.open then 0
           else Waiting(w, cfg, run, n - 1) + if e.Arrive? && known then |e.sample.data| else 0
  {
    hide After, VideoKnown;
  }

  lemma {:induction false} AfterStep(w: World, cfg: Config, run: seq<Event>, n: nat)
    requires 0 < n <= |run|
    ensures After(w, cfg, run, n) == Handle(w, cfg, After(w, cfg, run, n - 1), run[n - 1])
  {
    hide Handle;
  }

  /** After every event of every run, whatever fails. */
  lemma {:induction false} RunKnows(w: World, cfg: Config, run: seq<Event>, n: nat)
    requires n <= |run|
    ensures Knows(w, cfg, run, n)
    decreases n
  {
    hide *;
    if n == 0 {
      KnowsAtStart(w, cfg, run);
    } else {
      RunKnows(w, cfg, run, n - 1);
      KnowsStep(w, cfg, run, n);
    }
  }

  lemma {:induction false} KnowsAtStart(w: World, cfg: Config, run: seq<Event>)
    ensures Knows(w, cfg, run, 0)
  {
  }

  lemma {:induction false} KnowsStep(w: World, cfg: Config, run: seq<Event>, n: nat)
    requires 0 < n <= |run| && Knows(w, cfg, run, n - 1)
    ensures Knows(w, cfg, run, n)
  {
    hide After, Handle, Begun, Waiting, VideoKnown, AudioKnown, FirstRead, Ready;
    AfterStep(w, cfg, run, n);
    BegunStep(w, cfg, run, n);
    WaitingStep(w, cfg, run, n);
    var b, st, e := Begun(w, cfg, run, n), After(w, cfg, run, n - 1), run[n - 1];
    NothingKnown(w, cfg, run, b);
    HandleKnows(w, cfg, st, e);
    if b < n {
      KnownStep(w, cfg, run, b, n);
    }
    NothingKnown(w, cfg, run, n - 1);
  }

  /**
   When a file is opened, told from the run and the clock alone, whatever fails: while none is, the arrival of a
   sample opens one exactly if a video format was announced in the session, a file can be created, and audio is
   not wanted, or its format was announced too, or 8 MB have arrived since, or the clock has gone `waitAudioMs`
   past the session's first format. Nothing else opens one.
   */
  lemma {:induction false} RunOpensExactly(w: World, cfg: Config, run: seq<Event>, n: nat)
    requires n < |run| && !After(w, cfg, run, n).open
    ensures var b := Begun(w, cfg, run, n);
      After(w, cfg, run, n + 1).open <==>
        run[n].Arrive? && VideoKnown(run, b, n) && w.opens(After(w, cfg, run, n).tries)
        && (!cfg.recordAudio || AudioKnown(w, cfg, run, b, n) || Waiting(w, cfg, run, n + 1) >= MAX_PENDING_BYTES
          || w.mono(After(w, cfg, run, n).ticks) - FirstRead(w, cfg, run, b, n) >= cfg.waitAudioMs)
  {
    hide After, Handle, Begun, Waiting, VideoKnown, AudioKnown, FirstRead;
    RunKnows(w, cfg, run, n);
    AfterStep(w, cfg, run, n + 1);
    WaitingStep(w, cfg, run, n + 1);
    HandleKnows(w, cfg, After(w, cfg, run, n), run[n]);
  }

  /** While creations and writes succeed, an open file stays open until the stream stops or a video format comes. */
  lemma {:induction false} RunStaysOpen(w: World, cfg: Config, run: seq<Event>, n: nat)
    requires NothingFails(w) && n < |run| && After(w, cfg, run, n).open
    ensures After(w, cfg, run, n + 1).open <==> run[n].Arrive? || run[n].Audio?
  {
    hide After, Handle, NothingFails, Written, Keep;
    RunBalanced(w, cfg, run, n);
    AfterStep(w, cfg, run, n + 1);
    HandleKnows(w, cfg, After(w, cfg, run, n), run[n]);
    if run[n].Arrive? {
      ArriveStaysOpen(w, cfg, After(w, cfg, run, n), run[n].sample);
      ArriveHandled(w, cfg, After(w, cfg, run, n), run[n].sample);
    }
  }

  /**
   In every run, whatever fails: an arrival that loses the file being written leaves none open, so that the next one may
   open another.
   */
  lemma {:induction false} RunReopens(w: World, cfg: Config, run: seq<Event>, n: nat)
    requires n < |run| && run[n].Arrive? && After(w, cfg, run, n).open
    requires !run[n].sample.audio || (cfg.recordAudio && After(w, cfg, run, n).audio)
    ensures After(w, cfg, run, n + 1).open ==> After(w, cfg, run, n + 1).writer
  {
    hide After, Handle, Close, AddSample;
    AfterStep(w, cfg, run, n + 1);
    ArriveHandled(w, cfg, After(w, cfg, run, n), run[n].sample);
    CloseSame(w, cfg, AddSample(w, cfg, After(w, cfg, run, n), run[n].sample));
  }

  lemma {:induction false} ArriveHandled(w: World, cfg: Config, st: State, s: Sample)
    ensures Handle(w, cfg, st, Arrive(s)) == OnSample(w, cfg, st, s)
  {
    hide OnSample;
  }

  lemma {:induction false} ArriveStaysOpen(w: World, cfg: Config, st: State, s: Sample)
    requires NothingFails(w) && Recording(st)
    ensures OnSample(w, cfg, st, s).open
  {
    hide AddSample, Close, NothingFails, Taken;
    AddSampleKeeps(w, cfg, st, s);
  }

  // ------------------------------------------------------------ how much is held, and what is made

  function Total(ss: seq<Sample>): nat {
    if ss == [] then 0 else Total(ss[..|ss| - 1]) + |ss[|ss| - 1].data|
  }

  /** What waits was less than the limit before its last sample came. */
  ghost predicate HoldsLittle(st: State) {
    st.pendingBytes == Total(st.pending)
    && (st.pending != [] ==> Total(st.pending[..|st.pending| - 1]) < MAX_PENDING_BYTES)
  }

  lemma {:induction false} HoldLittle(st: State, s: Sample)
    requires HoldsLittle(st)
    ensures HoldsLittle(Hold(st, s))
  {
    assert (st.pending + [s])[..|st.pending|] == st.pending;
  }

  lemma {:induction false} ArriveOpenHolds(w: World, cfg: Config, st: State, s: Sample)
    requires HoldsLittle(st) && st.open
    ensures HoldsLittle(OnSample(w, cfg, st, s))
  {
    hide Close, AddSample, Total, KeepsAudio, AtMost;
    var added := AddSample(w, cfg, st, s);
    AddSampleSame(w, cfg, st, s);
    AddSampleLoses(w, cfg, st, s);
    CloseSame(w, cfg, added);
    CloseLoses(w, cfg, added);
  }

  lemma {:induction false} ArriveClosedHolds(w: World, cfg: Config, st: State, s: Sample)
    requires HoldsLittle(st) && !st.open
    ensures HoldsLittle(OnSample(w, cfg, st, s))
  {
    hide AddFirst, Total, Hold, Ready, KeepsAudio, AtMost;
    HoldLittle(st, s);
    NothingWaits();
    var ready := OpenWriter(w, AfterReady(cfg, Hold(st, s)));
    var begun, n, audio := ready.(pending := [], pendingBytes := 0), |ready.pending|, KeepsAudio(cfg, ready);
    AddFirstSame(w, cfg, begun, ready.pending, n, audio);
    AddFirstLoses(w, cfg, begun, ready.pending, n, audio);
  }

  lemma {:induction false} HandleHolds(w: World, cfg: Config, st: State, e: Event)
    requires HoldsLittle(st)
    ensures HoldsLittle(Handle(w, cfg, st, e))
  {
    hide Close, OnSample, Total, AtMost;
    CloseSame(w, cfg, st);
    CloseLoses(w, cfg, st);
    NothingWaits();
    if e.Arrive? {
      if st.open {
        ArriveOpenHolds(w, cfg, st, e.sample);
      } else {
        ArriveClosedHolds(w, cfg, st, e.sample);
      }
    }
  }

  lemma {:induction false} NothingWaits()
    ensures Total([]) == 0
  {
  }

  /** In every run, whatever fails: samples are held up to 8 MB and the one that goes past it, and no further. */
  lemma {:induction false} RunHoldsLittle(w: World, cfg: Config, run: seq<Event>, n: nat)
    requires n <= |run|
    ensures HoldsLittle(After(w, cfg, run, n))
    decreases n
  {
    hide HoldsLittle, Handle;
    if n > 0 {
      RunHoldsLittle(w, cfg, run, n - 1);
      HandleHolds(w, cfg, After(w, cfg, run, n - 1), run[n - 1]);
    } else {
      assert HoldsLittle(START) by { StartHolds(); }
    }
  }

  lemma {:induction false} StartHolds()
    ensures HoldsLittle(START)
  {
  }

  /** How many of the first `n` attempts succeeded. */
  function Succeeded(ok: nat -> bool, n: nat): nat {
    if n == 0 then 0 else Succeeded(ok, n - 1) + if ok(n - 1) then 1 else 0
  }

  function BlockCount(files: seq<File>): nat {
    if files == [] then 0 else BlockCount(files[..|files| - 1]) + |files[|files| - 1].blocks|
  }

  /** A file for each creation that succeeded, and a block for each write. */
  ghost predicate Made(w: World, st: State) {
    |st.files| == Succeeded(w.opens, st.tries) && BlockCount(st.files) == Succeeded(w.writes, st.wrote)
  }

  lemma {:induction false} CountNewFile(files: seq<File>, f: File)
    ensures BlockCount(files + [f]) == BlockCount(files) + |f.blocks|
  {
    assert (files + [f])[..|files|] == files;
  }

  lemma {:induction false} CountAppended(files: seq<File>, block: seq<Sample>, at: int)
    requires files != []
    ensures |AppendBlock(files, block, at)| == |files|
    ensures BlockCount(AppendBlock(files, block, at)) == BlockCount(files) + 1
  {
    var n := |files| - 1;
    assert AppendBlock(files, block, at)[..n] == files[..n];
  }

  lemma {:induction false} RotationMade(w: World, cfg: Config, st: State, block: seq<Sample>)
    requires Made(w, st)
    ensures Made(w, MaybeRotate(w, cfg, st, block))
  {
    hide RotateDue, BlockCount;
    var m := MaybeRotate(w, cfg, st, block);
    if m.files != st.files {
      CountNewFile(st.files, m.files[|st.files|]);
    }
  }

  lemma {:induction false} PuttingMade(w: World, st: State, block: seq<Sample>, at: int)
    requires Made(w, st)
    ensures Made(w, PutBlock(w, st, block, at))
  {
    hide BlockCount, AppendBlock;
    if st.files != [] {
      CountAppended(st.files, block, at);
    }
  }

  lemma {:induction false} WriteBlockMade(w: World, cfg: Config, st: State, block: seq<Sample>)
    requires Made(w, st)
    ensures Made(w, WriteBlock(w, cfg, st, block))
  {
    hide Made, MaybeRotate, PutBlock;
    RotationMade(w, cfg, st, block);
    PuttingMade(w, MaybeRotate(w, cfg, st, block), block, AskedAt(w, cfg, st));
  }

  lemma {:induction false} AddSampleMade(w: World, cfg: Config, st: State, s: Sample)
    requires Made(w, st)
    ensures Made(w, AddSample(w, cfg, st, s))
  {
    hide WriteBlock, Gather, Succeeded, BlockCount;
    if st.builder.Some? {
      var g := Gather(cfg.limits, st.builder.value, s, w.mono(st.ticks));
      if g.block.Some? {
        WriteBlockMade(w, cfg, st.(ticks := st.ticks + 1, builder := Some(g.builder)), g.block.value);
      }
    }
  }

  lemma {:induction false} AddFirstMade(w: World, cfg: Config, st: State, held: seq<Sample>, n: nat, audio: bool)
    requires Made(w, st) && n <= |held|
    ensures Made(w, AddFirst(w, cfg, st, held, n, audio))
    decreases n
  {
    hide AddSample, Made;
    if n > 0 {
      AddFirstMade(w, cfg, st, held, n - 1, audio);
      AddSampleMade(w, cfg, AddFirst(w, cfg, st, held, n - 1, audio), held[n - 1]);
    }
  }

  lemma {:induction false} CloseMade(w: World, cfg: Config, st: State)
    requires Made(w, st)
    ensures Made(w, Close(w, cfg, st)) && Made(w, Reset(Close(w, cfg, st)))
  {
    hide WriteBlock, Succeeded, BlockCount;
    if st.builder.Some? {
      WriteBlockMade(w, cfg, st, st.builder.value.samples);
    }
  }

  lemma {:induction false} OpenMade(w: World, st: State)
    requires Made(w, st)
    ensures Made(w, OpenWriter(w, st))
  {
    hide BlockCount;
    if w.opens(st.tries) {
      CountNewFile(st.files, File(w.mono(st.ticks), None, [], []));
    }
  }

  lemma {:induction false} HandleMade(w: World, cfg: Config, st: State, e: Event)
    requires Made(w, st)
    ensures Made(w, Handle(w, cfg, st, e))
  {
    hide Close, AddFirst, AddSample, Succeeded, BlockCount, Ready, OpenWriter;
    CloseMade(w, cfg, st);
    if e.Arrive? {
      if st.open {
        AddSampleMade(w, cfg, st, e.sample);
        CloseMade(w, cfg, AddSample(w, cfg, st, e.sample));
      } else {
        var asked := AfterReady(cfg, Hold(st, e.sample));
        OpenMade(w, asked);
        var ready := OpenWriter(w, asked);
        AddFirstMade(w, cfg, ready.(pending := [], pendingBytes := 0), ready.pending, |ready.pending|,
          KeepsAudio(cfg, ready));
      }
    }
  }

  /** In every run there are as many files as creations that succeeded, and as many blocks in them as writes. */
  lemma {:induction false} RunMakes(w: World, cfg: Config, run: seq<Event>, n: nat)
    requires n <= |run|
    ensures Made(w, After(w, cfg, run, n))
    decreases n
  {
    hide Made, Handle;
    if n > 0 {
      RunMakes(w, cfg, run, n - 1);
      HandleMade(w, cfg, After(w, cfg, run, n - 1), run[n - 1]);
    } else {
      assert Made(w, START) by { StartMade(w); }
    }
  }

  lemma {:induction false} StartMade(w: World)
    ensures Made(w, START)
  {
  }

  // ------------------------------------------------------------ the recorder itself

  class FileRecorder {
    const w: World
    const cfg: Config
    var video: bool
    var audio: bool
    var firstFormat: int
    var pending: seq<Sample>
    var pendingBytes: nat
    var writer: bool
    var builder: Option<Builder>
    var open: bool
    var fileStarted: int
    var files: seq<File>
    var ticks: nat
    var tries: nat
    var wrote: nat

    ghost function Now(): State
      reads this
    {
      State(video, audio, firstFormat, pending, pendingBytes, writer, builder, open, fileStarted, files, ticks, tries,
        wrote)
    }

    constructor (world: World, config: Config)
      ensures w == world && cfg == config && Now() == START
    {
      w, cfg := world, config;
      video, audio, firstFormat, pending, pendingBytes := false, false, 0, [], 0;
      writer, builder, open, fileStarted := false, None, false, 0;
      files, ticks, tries, wrote := [], 0, 0, 0;
    }

    method ReadClock() returns (t: int)
      modifies this`ticks
      ensures t == w.mono(old(ticks)) && Now() == old(Now()).(ticks := old(ticks) + 1)
    {
      t := w.mono(ticks);
      ticks := ticks + 1;
    }

    /** Creating a file and writing its header. */
    method Create() returns (ok: bool)
      modifies this`tries
      ensures ok == w.opens(old(tries)) && Now() == old(Now()).(tries := old(tries) + 1)
    {
      ok := w.opens(tries);
      tries := tries + 1;
    }

    method IsReady() returns (ready: bool)
      modifies this`ticks
      ensures ready == Ready(w, cfg, old(Now())) && Now() == AfterReady(cfg, old(Now()))
    {
      if !video {
        return false;
      }
      if audio || !cfg.recordAudio || pendingBytes >= MAX_PENDING_BYTES {
        return true;
      }
      var now := ReadClock();
      ready := now - firstFormat >= cfg.waitAudioMs;
    }

    method OpenFile()
      modifies this
      ensures Now() == OpenWriter(w, old(Now()))
    {
      var ok := Create();
      if ok {
        var now := ReadClock();
        files := files + [File(now, None, [], [])];
        writer, builder, fileStarted, open := true, Some(Builder([], 0, 0)), now, true;
      }
    }

    method NextFile(at: int)
      modifies this
      ensures Now() == Rotate(w, old(Now()), at)
    {
      writer := false;
      var ok := Create();
      if ok {
        var now := ReadClock();
        files := files + [File(now, Some(at), [], [])];
        writer, fileStarted := true, now;
      }
    }

    method WriteOut(block: seq<Sample>)
      modifies this
      ensures Now() == WriteBlock(w, cfg, old(Now()), block)
    {
      hide HasKeyframe, Rotate, PutBlock;
      var at := 0;
      if cfg.rotateMs > 0 {
        at := ReadClock();
        var age := at - fileStarted;
        if age >= cfg.rotateMs && (HasKeyframe(block) || age >= cfg.rotateMs + ROTATE_GRACE_MS) {
          NextFile(at);
        }
      }
      assert Now() == MaybeRotate(w, cfg, old(Now()), block);
      Put(block, at);
    }

    method Put(block: seq<Sample>, at: int)
      modifies this
      ensures Now() == PutBlock(w, old(Now()), block, at)
    {
      hide AppendBlock;
      if writer && files != [] {
        var ok := w.writes(wrote);
        wrote := wrote + 1;
        if ok {
          files := AppendBlock(files, block, at);
        } else {
          writer := false;
        }
      }
    }

    method Add(s: Sample)
      modifies this
      ensures Now() == AddSample(w, cfg, old(Now()), s)
    {
      var mono := ReadClock();
      if builder.Some? {
        var g := Gather(cfg.limits, builder.value, s, mono);
        builder := Some(g.builder);
        if g.block.Some? {
          WriteOut(g.block.value);
        }
      }
    }

    method CloseFile()
      modifies this
      ensures Now() == Close(w, cfg, old(Now()))
    {
      if builder.Some? && builder.value.samples != [] {
        WriteOut(builder.value.samples);
      }
      builder, writer, open := None, false, false;
    }

    method Forget()
      modifies this
      ensures Now() == Reset(old(Now()))
    {
      video, audio, firstFormat, pending, pendingBytes := false, false, 0, [], 0;
    }

    method MarkFirst()
      modifies this
      ensures Now() == FirstFormat(w, old(Now()))
    {
      if firstFormat == 0 {
        firstFormat := ReadClock();
      }
    }

    method VideoFormat()
      modifies this
      ensures Now() == OnVideoFormat(w, cfg, old(Now()))
    {
      if open {
        CloseFile();
        Forget();
      }
      video := true;
      MarkFirst();
    }

    method AudioFormat()
      modifies this
      ensures Now() == OnAudioFormat(w, old(Now()))
    {
      if open {
        return;
      }
      audio := true;
      MarkFirst();
    }

    method Receive(s: Sample)
      modifies this
      ensures Now() == OnSample(w, cfg, old(Now()), s)
    {
      hide AddSample, WriteBlock, Close;
      if !open {
        if !video {
          return;
        }
        if pendingBytes < MAX_PENDING_BYTES {
          pendingBytes := pendingBytes + |s.data|;
          pending := pending + [s];
        }
        var ready := IsReady();
        if !ready {
          return;
        }
        OpenFile();
        if !open {
          return;
        }
        Release();
        return;
      }
      if s.audio && !(cfg.recordAudio && audio) {
        return;
      }
      Add(s);
      if open && !writer {
        CloseFile();
      }
    }

    /** Adds the samples held back, less the audio the file has no track for. */
    method Release()
      modifies this
      ensures Now() == AddFirst(w, cfg, old(Now()).(pending := [], pendingBytes := 0), old(pending), |old(pending)|,
        KeepsAudio(cfg, old(Now())))
    {
      hide AddSample;
      var keep, held := cfg.recordAudio && audio, pending;
      pending, pendingBytes := [], 0;
      ghost var begun := Now();
      for n := 0 to |held|
        invariant Now() == AddFirst(w, cfg, begun, held, n, keep)
      {
        if keep || !held[n].audio {
          Add(held[n]);
        }
      }
    }

    method StreamStopped()
      modifies this
      ensures Now() == OnStreamStopped(w, cfg, old(Now()))
    {
      CloseFile();
      Forget();
    }
  }
}
