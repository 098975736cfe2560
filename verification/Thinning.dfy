/** Fast scanning: blocks rewritten with only keyframes spaced by a step. */
module Thinning {
  import opened Bytes
  import opened Blocks

  /** What the choosing loop carries: first video time seen, samples kept, instant of the first, last kept. */
  datatype Pick = Pick(fp: Option<int>, keep: seq<nat>, firstKept: int, last: int)

  /** A keyframe is dropped when it comes less than a step after the last one kept. */
  predicate TooSoon(wall: int, last: int, step: int) {
    last > 0 && wall - last < step
  }

  function PickOne(p: Pick, i: nat, s: Sample, anchor: int, ts: nat, step: int): Pick
    requires ts > 0
  {
    if !IsVideo(s) then p
    else
      var fp := if p.fp.Some? then p.fp.value else s.pts;
      var seen := p.(fp := Some(fp));
      var wall := Instant(anchor, fp, s.pts, ts);
      if !IsKeyframe(s) || TooSoon(wall, p.last, step) then seen
      else Pick(Some(fp), p.keep + [i], if p.keep == [] then wall else p.firstKept, wall)
  }

  /** The choice among the first `n` samples. */
  function PickFrom(src: Block, n: nat, ts: nat, step: int, last: int): Pick
    requires ts > 0 && n <= |src.samples|
  {
    if n == 0 then Pick(None, [], 0, last)
    else PickOne(PickFrom(src, n - 1, ts, step, last), n - 1, src.samples[n - 1], Anchor(src), ts, step)
  }

  predicate Indices(keep: seq<nat>, n: nat) {
    forall k :: 0 <= k < |keep| ==> keep[k] < n
  }

  /** The kept samples with their bytes, one after the other; offsets and sizes are 32 bits wide. */
  function Rebuild(src: Block, keep: seq<nat>): (r: (seq<Sample>, seq<byte>))
    requires Indices(keep, |src.samples|)
    ensures |r.0| == |keep|
  {
    if keep == [] then ([], [])
    else
      var n := |keep| - 1;
      var (samples, payload) := Rebuild(src, keep[..n]);
      var e := src.samples[keep[n]];
      var data := Data(src.payload, e);
      (samples + [e.(offset := |payload| % 0x1_0000_0000, size := |data| % 0x1_0000_0000)], payload + data)
  }

  lemma {:induction false} PickBounds(src: Block, n: nat, ts: nat, step: int, last: int)
    requires ts > 0 && n <= |src.samples|
    ensures var p := PickFrom(src, n, ts, step, last);
      Indices(p.keep, n)
      && (forall k :: 0 <= k < |p.keep| ==> IsVideo(src.samples[p.keep[k]]) && IsKeyframe(src.samples[p.keep[k]]))
      && (forall j, k :: 0 <= j < k < |p.keep| ==> p.keep[j] < p.keep[k])
    decreases n
  {
    if n > 0 {
      PickBounds(src, n - 1, ts, step, last);
      PickStep(src, n, ts, step, last);
      hide PickFrom;
    }
  }

  lemma {:induction false} PickStep(src: Block, n: nat, ts: nat, step: int, last: int)
    requires ts > 0 && 0 < n <= |src.samples|
    ensures var p, q, s := PickFrom(src, n - 1, ts, step, last), PickFrom(src, n, ts, step, last), src.samples[n - 1];
      q == PickOne(p, n - 1, s, Anchor(src), ts, step)
      && (q.keep == p.keep || (q.keep == p.keep + [n - 1] && IsVideo(s) && IsKeyframe(s)))
  {
    hide Instant;
  }

  /** The rewritten block, if anything is kept, and the last kept instant for the block that follows. */
  function Thin(src: Block, timescale: nat, step: int, last: int): (Option<Block>, int) {
    var p := PickFrom(src, |src.samples|, TicksPerSecond(timescale), step, last);
    if p.keep == [] then (None, p.last)
    else
      PickBounds(src, |src.samples|, TicksPerSecond(timescale), step, last);
      var (samples, payload) := Rebuild(src, p.keep);
      (Some(Block(src.number, p.firstKept, samples, payload, p.firstKept, 0)), p.last)
  }

  method ThinBlock(src: Block, timescale: nat, step: int, last0: int) returns (dst: Option<Block>, last: int)
    ensures (dst, last) == Thin(src, timescale, step, last0)
  {
    var ts := if timescale == 0 then 90000 else timescale;
    var anchor := if src.videoAnchor != 0 then src.videoAnchor else src.start;
    var firstPts: Option<int>, keep: seq<nat>, firstKept: int := None, [], 0;
    last := last0;
    for i := 0 to |src.samples|
      invariant PickFrom(src, i, ts, step, last0) == Pick(firstPts, keep, firstKept, last)
    {
      var s := src.samples[i];
      if s.track != 0 {
        continue;
      }
      if firstPts.None? {
        firstPts := Some(s.pts);
      }
      if s.flags % 2 == 0 {
        continue;
      }
      var wall := anchor + Trunc((s.pts - firstPts.value) * 1000, ts);
      if last > 0 && wall - last < step {
        continue;
      }
      if keep == [] {
        firstKept := wall;
      }
      keep := keep + [i];
      last := wall;
    }
    if keep == [] {
      return None, last;
    }
    PickBounds(src, |src.samples|, ts, step, last0);
    var samples: seq<Sample>, payload: seq<byte> := [], [];
    for k := 0 to |keep|
      invariant (samples, payload) == Rebuild(src, keep[..k])
    {
      assert keep[..k + 1][..k] == keep[..k];
      var e := src.samples[keep[k]];
      var data := Data(src.payload, e);
      samples := samples + [e.(offset := |payload| % 0x1_0000_0000, size := |data| % 0x1_0000_0000)];
      payload := payload + data;
    }
    assert keep[..|keep|] == keep;
    dst := Some(Block(src.number, firstKept, samples, payload, firstKept, 0));
  }

  // ------------------------------------------------------------ bytes

  lemma {:induction false} DataOfPrefix(payload: seq<byte>, more: seq<byte>, s: Sample)
    requires s.offset + s.size <= |payload|
    ensures Data(payload + more, s) == Data(payload, s)
  {
  }

  /** The bytes of entry `s` in `payload` are those `t` has in `from`: none, if they do not lie in it. */
  predicate SameBytes(payload: seq<byte>, s: Sample, from: seq<byte>, t: Sample) {
    s.offset + s.size <= |payload|
    && payload[s.offset..s.offset + s.size]
      == if t.offset + t.size <= |from| then from[t.offset..t.offset + t.size] else []
  }

  lemma {:induction false} BytesAre(payload: seq<byte>, s: Sample, from: seq<byte>, t: Sample)
    requires s.offset + s.size <= |payload| && Data(payload, s) == Data(from, t)
    ensures SameBytes(payload, s, from, t)
  {
  }

  /** Entry `k` of the rewritten block has the marks and the bytes of the `k`-th sample kept. */
  lemma {:induction false} RebuildKeeps(src: Block, keep: seq<nat>, k: nat)
    requires Indices(keep, |src.samples|) && k < |keep| && |Rebuild(src, keep).1| < 0x1_0000_0000
    ensures var e, (samples, payload) := src.samples[keep[k]], Rebuild(src, keep);
      && samples[k].track == e.track && samples[k].flags == e.flags && samples[k].pts == e.pts
      && samples[k].offset + samples[k].size <= |payload|
      && Data(payload, samples[k]) == Data(src.payload, e)
    decreases |keep|
  {
    var n := |keep| - 1;
    var before := Rebuild(src, keep[..n]);
    var data := Data(src.payload, src.samples[keep[n]]);
    RebuildLast(src, keep);
    hide Rebuild, Data;
    if k < n {
      RebuildKeeps(src, keep[..n], k);
      DataOfPrefix(before.1, data, before.0[k]);
    }
  }

  /** The last entry of a rewritten block, and its bytes at the end of the payload. */
  lemma {:induction false} RebuildLast(src: Block, keep: seq<nat>)
    requires Indices(keep, |src.samples|) && keep != [] && |Rebuild(src, keep).1| < 0x1_0000_0000
    ensures var n := |keep| - 1;
      var (samples, payload), before := Rebuild(src, keep), Rebuild(src, keep[..n]);
      var e, data := src.samples[keep[n]], Data(src.payload, src.samples[keep[n]]);
      |samples| == n + 1 && samples[..n] == before.0 && payload == before.1 + data
      && samples[n].track == e.track && samples[n].flags == e.flags && samples[n].pts == e.pts
      && samples[n].offset == |before.1| && samples[n].size == |data| && Data(payload, samples[n]) == data
  {
    var n := |keep| - 1;
    var before, data := Rebuild(src, keep[..n]), Data(src.payload, src.samples[keep[n]]);
    assert (before.1 + data)[|before.1|..|before.1| + |data|] == data;
  }

  // ------------------------------------------------------------ instants

  lemma {:induction false} FirstPtsAt(samples: seq<Sample>, j: nat)
    requires j < |samples| && IsVideo(samples[j]) && forall i :: 0 <= i < j ==> !IsVideo(samples[i])
    ensures FirstPts(samples) == samples[j].pts
    decreases j
  {
    if j > 0 {
      FirstPtsAt(samples[1..], j - 1);
    }
  }

  /** The loop's base time is the one a reader uses. */
  lemma {:induction false} PickBase(src: Block, n: nat, ts: nat, step: int, last: int)
    requires ts > 0 && n <= |src.samples|
    ensures match PickFrom(src, n, ts, step, last).fp
      case None => forall i :: 0 <= i < n ==> !IsVideo(src.samples[i])
      case Some(f) => f == FirstPts(src.samples)
    decreases n
  {
    hide Instant;
    if n > 0 {
      PickBase(src, n - 1, ts, step, last);
      if PickFrom(src, n - 1, ts, step, last).fp.None? && IsVideo(src.samples[n - 1]) {
        FirstPtsAt(src.samples, n - 1);
      }
    }
  }

  function Wall(src: Block, i: nat, ts: nat): int
    requires ts > 0 && i < |src.samples|
  {
    InstantIn(src, src.samples[i], ts)
  }

  predicate VideoKeyframe(src: Block, i: nat)
    requires i < |src.samples|
  {
    IsVideo(src.samples[i]) && IsKeyframe(src.samples[i])
  }

  /** Sample `n` is kept exactly when it is a video keyframe at least a step after the last one kept. */
  lemma {:induction false} Greedy(src: Block, n: nat, ts: nat, step: int, last: int)
    requires ts > 0 && n < |src.samples|
    ensures var p := PickFrom(src, n, ts, step, last);
      var q := PickFrom(src, n + 1, ts, step, last);
      if VideoKeyframe(src, n) && !TooSoon(Wall(src, n, ts), p.last, step) then
        q.keep == p.keep + [n] && q.last == Wall(src, n, ts)
          && q.firstKept == (if p.keep == [] then Wall(src, n, ts) else p.firstKept)
      else q.keep == p.keep && q.last == p.last && q.firstKept == p.firstKept
  {
    PickBase(src, n, ts, step, last);
    PickBase(src, n + 1, ts, step, last);
    PickStep(src, n + 1, ts, step, last);
    hide PickFrom, Instant, FirstPts;
  }

  /** The instants of the samples kept. */
  function Marks(src: Block, keep: seq<nat>, ts: nat): (m: seq<int>)
    requires ts > 0 && Indices(keep, |src.samples|)
    ensures |m| == |keep|
  {
    seq(|keep|, k requires 0 <= k < |keep| => Wall(src, keep[k], ts))
  }

  predicate Positive(src: Block, ts: nat)
    requires ts > 0
  {
    forall i :: 0 <= i < |src.samples| && VideoKeyframe(src, i) ==> Wall(src, i, ts) > 0
  }

  /** From `last` on, each instant is at least a step after any before it. */
  predicate Spaced(m: seq<int>, step: int, last: int) {
    (forall k :: 0 <= k < |m| ==> m[k] > 0 && (last > 0 ==> m[k] - last >= step))
    && (forall j, k :: 0 <= j < k < |m| ==> m[k] - m[j] >= step)
  }

  function LastOf(m: seq<int>, last: int): int {
    if m == [] then last else m[|m| - 1]
  }

  lemma {:induction false} SpacedAppend(m: seq<int>, x: int, step: int, last: int)
    requires Spaced(m, step, last) && step >= 0 && last >= 0 && x > 0 && !TooSoon(x, LastOf(m, last), step)
    ensures Spaced(m + [x], step, last)
  {
    var r := m + [x];
    forall j, k | 0 <= j < k < |r|
      ensures r[k] - r[j] >= step
    {
      if k == |m| && j < |m| - 1 {
        assert m[|m| - 1] - m[j] >= step;
      }
    }
  }

  lemma {:induction false} SpacedJoin(a: seq<int>, b: seq<int>, step: int, last: int)
    requires Spaced(a, step, last) && Spaced(b, step, LastOf(a, last)) && step >= 0 && last >= 0
    ensures Spaced(a + b, step, last) && LastOf(a + b, last) == LastOf(b, LastOf(a, last))
    decreases |b|
  {
    hide TooSoon;
    if b == [] {
      assert a + b == a;
    } else {
      var n := |b| - 1;
      SpacedJoin(a, b[..n], step, last);
      NotTooSoon(a, b, step, last);
      SpacedAppend(a + b[..n], b[n], step, last);
      assert a + b == a + b[..n] + [b[n]];
    }
  }

  lemma {:induction false} NotTooSoon(a: seq<int>, b: seq<int>, step: int, last: int)
    requires b != [] && Spaced(b, step, LastOf(a, last))
    ensures !TooSoon(b[|b| - 1], LastOf(a + b[..|b| - 1], last), step)
    ensures Spaced(b[..|b| - 1], step, LastOf(a, last))
  {
  }

  /** Kept instants are spaced by the step, also from the last one kept before. */
  lemma {:induction false} PickSpaced(src: Block, n: nat, ts: nat, step: int, last: int)
    requires ts > 0 && n <= |src.samples| && step >= 0 && last >= 0 && Positive(src, ts)
    ensures var p := PickFrom(src, n, ts, step, last);
      Indices(p.keep, |src.samples|) && Spaced(Marks(src, p.keep, ts), step, last)
      && p.last == LastOf(Marks(src, p.keep, ts), last)
    decreases n
  {
    PickBounds(src, n, ts, step, last);
    if n > 0 {
      PickSpaced(src, n - 1, ts, step, last);
      Greedy(src, n - 1, ts, step, last);
      var p, q := PickFrom(src, n - 1, ts, step, last), PickFrom(src, n, ts, step, last);
      hide PickFrom, Wall, Spaced;
      if q.keep != p.keep {
        SpacedAppend(Marks(src, p.keep, ts), Wall(src, n - 1, ts), step, last);
        assert Marks(src, q.keep, ts) == Marks(src, p.keep, ts) + [Wall(src, n - 1, ts)];
      }
    }
  }

  // ------------------------------------------------------------ a whole reply

  /** The samples a block keeps, in order. */
  function Kept(src: Block, timescale: nat, step: int, last: int): (keep: seq<nat>)
    ensures Indices(keep, |src.samples|)
  {
    PickBounds(src, |src.samples|, TicksPerSecond(timescale), step, last);
    PickFrom(src, |src.samples|, TicksPerSecond(timescale), step, last).keep
  }

  /** The blocks of a reply, thinned one after the other. */
  function ThinAll(blocks: seq<Block>, timescale: nat, step: int, last: int): seq<Block> {
    if blocks == [] then []
    else
      var (dst, next) := Thin(blocks[0], timescale, step, last);
      (if dst.Some? then [dst.value] else []) + ThinAll(blocks[1..], timescale, step, next)
  }

  /** The instants of everything kept in a reply. */
  function MarksAll(blocks: seq<Block>, timescale: nat, step: int, last: int): seq<int> {
    if blocks == [] then []
    else
      Marks(blocks[0], Kept(blocks[0], timescale, step, last), TicksPerSecond(timescale))
      + MarksAll(blocks[1..], timescale, step, Thin(blocks[0], timescale, step, last).1)
  }

  /**
   Across all the blocks of a reply, any two kept keyframes are at least a step apart, given positive
   instants (an instant at or before 1970 would switch the spacing off).
   */
  lemma {:induction false} ReplySpaced(blocks: seq<Block>, timescale: nat, step: int, last: int)
    requires step >= 0 && last >= 0
    requires forall b :: 0 <= b < |blocks| ==> Positive(blocks[b], TicksPerSecond(timescale))
    ensures Spaced(MarksAll(blocks, timescale, step, last), step, last)
    decreases |blocks|
  {
    if blocks != [] {
      var ts, src := TicksPerSecond(timescale), blocks[0];
      PickSpaced(src, |src.samples|, ts, step, last);
      var m, next := Marks(src, Kept(src, timescale, step, last), ts), Thin(src, timescale, step, last).1;
      assert next == LastOf(m, last) && (m != [] ==> m[|m| - 1] > 0);
      hide PickFrom, Wall, Spaced, Thin, Kept, Marks, Positive;
      assert Positive(src, ts);
      ReplySpaced(blocks[1..], timescale, step, next) by {
        assert forall b :: 0 <= b < |blocks| - 1 ==> blocks[1..][b] == blocks[b + 1];
      }
      SpacedJoin(m, MarksAll(blocks[1..], timescale, step, next), step, last);
    }
  }

  // ------------------------------------------------------------ reading back

  predicate Rising(src: Block) {
    forall i, j :: 0 <= i < j < |src.samples| && IsVideo(src.samples[i]) && IsVideo(src.samples[j]) ==>
      src.samples[i].pts <= src.samples[j].pts
  }

  /** Re-anchoring at `p`: the instant read from the new anchor against the one read from the old. */
  lemma {:induction false} Reanchored(anchor: int, first: int, p: int, pts: int, ts: nat)
    requires ts > 0
    ensures var was, now := Instant(anchor, first, pts, ts), Instant(Instant(anchor, first, p, ts), p, pts, ts);
      -1 <= now - was <= 1 && (first <= p <= pts ==> now <= was)
  {
    TruncSum((p - first) * 1000, (pts - p) * 1000, ts);
    assert (p - first) * 1000 + (pts - p) * 1000 == (pts - first) * 1000;
    hide Trunc;
  }

  lemma {:induction false} FirstIsLeast(samples: seq<Sample>, i: nat)
    requires i < |samples| && IsVideo(samples[i])
    requires forall j, k :: 0 <= j < k < |samples| && IsVideo(samples[j]) && IsVideo(samples[k]) ==>
      samples[j].pts <= samples[k].pts
    ensures FirstPts(samples) <= samples[i].pts
    decreases i
  {
    if i > 0 && !IsVideo(samples[0]) {
      FirstIsLeast(samples[1..], i - 1);
    }
  }

  /** What is carried is the instant of the first kept and of the last kept. */
  lemma {:induction false} PickEnds(src: Block, n: nat, ts: nat, step: int, last: int)
    requires ts > 0 && n <= |src.samples|
    ensures var p := PickFrom(src, n, ts, step, last);
      Indices(p.keep, |src.samples|)
      && (if p.keep == [] then p.last == last
          else p.firstKept == Wall(src, p.keep[0], ts) && p.last == Wall(src, p.keep[|p.keep| - 1], ts))
    decreases n
  {
    if n > 0 {
      PickEnds(src, n - 1, ts, step, last);
      Greedy(src, n - 1, ts, step, last);
      hide PickFrom, Wall;
    }
  }

  lemma {:induction false} ThinShape(src: Block, timescale: nat, step: int, last: int)
    ensures var keep, dst := Kept(src, timescale, step, last), Thin(src, timescale, step, last).0;
      && (dst.None? <==> keep == [])
      && (dst.Some? ==>
        var r := Rebuild(src, keep);
        dst.value.samples == r.0 && dst.value.payload == r.1
        && dst.value.number == src.number && dst.value.audioAnchor == 0
        && dst.value.start == Wall(src, keep[0], TicksPerSecond(timescale)) == dst.value.videoAnchor)
  {
    PickEnds(src, |src.samples|, TicksPerSecond(timescale), step, last);
    hide PickFrom, Wall, Rebuild;
  }

  /**
   Every entry of a thinned block, up to 4 GiB of payload: it is the sample kept, with its bytes, and
   the instant read from the new anchor is within a millisecond of the original; at most one below it,
   and never above, when presentation times do not go back.
   */
  lemma {:induction false} ThinEntry(src: Block, timescale: nat, step: int, last: int, k: nat)
    requires k < |Kept(src, timescale, step, last)|
    requires |Rebuild(src, Kept(src, timescale, step, last)).1| < 0x1_0000_0000
    ensures Thin(src, timescale, step, last).0.Some?
    ensures var dst, i, ts := Thin(src, timescale, step, last).0.value, Kept(src, timescale, step, last)[k],
      TicksPerSecond(timescale);
      && |dst.samples| == |Kept(src, timescale, step, last)| && VideoKeyframe(src, i)
      && dst.samples[k].(offset := 0, size := 0) == src.samples[i].(offset := 0, size := 0)
      && SameBytes(dst.payload, dst.samples[k], src.payload, src.samples[i])
      && -1 <= InstantIn(dst, dst.samples[k], ts) - Wall(src, i, ts) <= (if Rising(src) then 0 else 1)
  {
    var keep, ts := Kept(src, timescale, step, last), TicksPerSecond(timescale);
    PickBounds(src, |src.samples|, ts, step, last);
    hide PickFrom, Thin, Kept, Instant, Data, Rebuild, TicksPerSecond, SameBytes;
    ThinShape(src, timescale, step, last);
    RebuildKeeps(src, keep, k);
    BytesAre(Rebuild(src, keep).1, Rebuild(src, keep).0[k], src.payload, src.samples[keep[k]]);
    RebuildKeeps(src, keep, 0);
    var dst := Thin(src, timescale, step, last).0.value;
    var first := src.samples[keep[0]].pts;
    FirstPtsAt(dst.samples, 0);
    Reanchored(Anchor(src), FirstPts(src.samples), first, src.samples[keep[k]].pts, ts);
    if Rising(src) {
      FirstIsLeast(src.samples, keep[0]);
      assert keep[0] <= keep[k];
    }
  }

  /** Whether sample `i` of a block is kept: exactly the greedy rule against the last one kept before it. */
  lemma {:induction false} KeptExactly(src: Block, timescale: nat, step: int, last: int, n: nat, i: nat)
    requires i < n <= |src.samples|
    ensures var ts := TicksPerSecond(timescale);
      i in PickFrom(src, n, ts, step, last).keep <==>
      (VideoKeyframe(src, i) && !TooSoon(Wall(src, i, ts), PickFrom(src, i, ts, step, last).last, step))
    decreases n
  {
    var ts := TicksPerSecond(timescale);
    Greedy(src, n - 1, ts, step, last);
    PickBounds(src, n - 1, ts, step, last);
    hide PickFrom, Wall, TooSoon;
    if i < n - 1 {
      KeptExactly(src, timescale, step, last, n - 1, i);
    }
  }

  // ------------------------------------------------------------ the loop of a reply

  predicate HasKeyframe(src: Block) {
    exists i :: 0 <= i < |src.samples| && VideoKeyframe(src, i)
  }

  lemma {:induction false} KeepingNeedsKeyframe(src: Block, timescale: nat, step: int, last: int)
    ensures Kept(src, timescale, step, last) != [] ==> HasKeyframe(src)
  {
    PickBounds(src, |src.samples|, TicksPerSecond(timescale), step, last);
    var keep := Kept(src, timescale, step, last);
    hide PickFrom;
    assert keep != [] ==> VideoKeyframe(src, keep[0]);
  }

  lemma {:induction false} NothingToKeep(src: Block, timescale: nat, step: int, last: int)
    requires !HasKeyframe(src)
    ensures Thin(src, timescale, step, last) == (None, last)
  {
    KeepingNeedsKeyframe(src, timescale, step, last);
    PickEnds(src, |src.samples|, TicksPerSecond(timescale), step, last);
    hide PickFrom, Wall;
  }

  /** How getting at a block of a reply goes: read, passed over, or an end to the reply. */
  datatype Access = Reads | Skips | Ends

  /**
   The blocks from the `i`-th on that a thinned reply is made of: those with a keyframe, as far as they can be
   read.
   */
  function ReadFrom(blocks: seq<Block>, disk: nat -> Access, i: nat): seq<Block>
    decreases |blocks| - i
  {
    if i >= |blocks| then []
    else if !HasKeyframe(blocks[i]) then ReadFrom(blocks, disk, i + 1)
    else match disk(i)
      case Ends => []
      case Skips => ReadFrom(blocks, disk, i + 1)
      case Reads => [blocks[i]] + ReadFrom(blocks, disk, i + 1)
  }

  lemma {:induction false} ThinHead(b: Block, rest: seq<Block>, timescale: nat, step: int, last: int)
    ensures var (dst, next) := Thin(b, timescale, step, last);
      ThinAll([b] + rest, timescale, step, last)
        == (if dst.Some? then [dst.value] else []) + ThinAll(rest, timescale, step, next)
  {
    hide Thin;
    assert ([b] + rest)[1..] == rest;
  }

  /** Where every block can be read, a reply is made of all the blocks: those without a keyframe add nothing. */
  lemma {:induction false} AllRead(blocks: seq<Block>, disk: nat -> Access, i: nat, timescale: nat, step: int,
      last: int)
    requires i <= |blocks| && forall k :: i <= k < |blocks| ==> disk(k).Reads?
    ensures ThinAll(ReadFrom(blocks, disk, i), timescale, step, last) == ThinAll(blocks[i..], timescale, step, last)
    decreases |blocks| - i
  {
    hide Thin, ThinAll, HasKeyframe;
    if i < |blocks| {
      var b, rest := blocks[i], blocks[i + 1..];
      assert blocks[i..] == [b] + rest;
      ThinHead(b, rest, timescale, step, last);
      AllRead(blocks, disk, i + 1, timescale, step, Thin(b, timescale, step, last).1);
      if HasKeyframe(b) {
        ThinHead(b, ReadFrom(blocks, disk, i + 1), timescale, step, last);
      } else {
        NothingToKeep(b, timescale, step, last);
        assert [] + ThinAll(rest, timescale, step, last) == ThinAll(rest, timescale, step, last);
      }
    } else {
      assert blocks[i..] == [];
    }
  }

  /** The loop of a reply after its first `n` blocks. */
  ghost predicate Replying(blocks: seq<Block>, disk: nat -> Access, n: nat, timescale: nat, step: int, body: seq<Block>,
      last: int) {
    ThinAll(ReadFrom(blocks, disk, 0), timescale, step, 0)
      == body + ThinAll(ReadFrom(blocks, disk, n), timescale, step, last)
  }

  lemma {:induction false} ReplyStep(blocks: seq<Block>, disk: nat -> Access, n: nat, timescale: nat, step: int,
      body: seq<Block>, last: int)
    requires n < |blocks| && Replying(blocks, disk, n, timescale, step, body, last)
    ensures !HasKeyframe(blocks[n]) || disk(n).Skips? ==> Replying(blocks, disk, n + 1, timescale, step, body, last)
    ensures HasKeyframe(blocks[n]) && disk(n).Ends? ==> body == ThinAll(ReadFrom(blocks, disk, 0), timescale, step, 0)
    ensures HasKeyframe(blocks[n]) && disk(n).Reads? ==>
      var (dst, next) := Thin(blocks[n], timescale, step, last);
      Replying(blocks, disk, n + 1, timescale, step, body + (if dst.Some? then [dst.value] else []), next)
  {
    hide Thin, HasKeyframe;
    assert ThinAll([], timescale, step, last) == [] && body + [] == body;
    var (dst, next) := Thin(blocks[n], timescale, step, last);
    var rest := ReadFrom(blocks, disk, n + 1);
    ThinHead(blocks[n], rest, timescale, step, last);
    ConcatAssociative(body, if dst.Some? then [dst.value] else [], ThinAll(rest, timescale, step, next));
    hide ThinAll;
  }

  lemma {:induction false} ReplyStarts(blocks: seq<Block>, disk: nat -> Access, timescale: nat, step: int)
    ensures Replying(blocks, disk, 0, timescale, step, [], 0)
  {
  }

  lemma {:induction false} ReplyEnds(blocks: seq<Block>, disk: nat -> Access, timescale: nat, step: int,
      body: seq<Block>, last: int)
    requires Replying(blocks, disk, |blocks|, timescale, step, body, last)
    ensures body == ThinAll(ReadFrom(blocks, disk, 0), timescale, step, 0)
  {
    hide Thin;
    assert body + [] == body;
  }

  method ThinReply(blocks: seq<Block>, disk: nat -> Access, timescale: nat, step: int) returns (body: seq<Block>)
    ensures body == ThinAll(ReadFrom(blocks, disk, 0), timescale, step, 0)
  {
    hide Thin, ThinAll, Replying, HasKeyframe, ReadFrom;
    body := [];
    var last := 0;
    ReplyStarts(blocks, disk, timescale, step);
    for i := 0 to |blocks|
      invariant Replying(blocks, disk, i, timescale, step, body, last)
    {
      ReplyStep(blocks, disk, i, timescale, step, body, last);
      if !HasKeyframe(blocks[i]) {
        continue;
      }
      match disk(i)
      case Ends => return;
      case Skips => continue;
      case Reads =>
        var dst, next := ThinBlock(blocks[i], timescale, step, last);
        body := body + (if dst.Some? then [dst.value] else []);
        last := next;
    }
    ReplyEnds(blocks, disk, timescale, step, body, last);
  }
}
