/**
 What a walk through recordings must give, told from what reading finds and what the decoder answers alone: every
 video sample from each file's first keyframe on is decoded, in order, up to the walk's end, and the frames handed
 out are the ones the pace picks. The walk itself is in the module of frame walks.
 */
module WalkCoverage {
  import opened Bytes
  import opened Blocks
  import opened FrameWalk

  /** A video sample that has bytes, its instant, and the file it is in. */
  datatype Item = Item(sample: Sample, ms: int, file: nat)

  // ------------------------------------------------------------ the specification

  /** At `p` a file is opened that gives no block. */
  predicate DeadEnd(input: seq<Read>, p: nat) {
    p < |input| && input[p].NextFile? && (p + 1 == |input| || input[p + 1].NextFile?)
  }

  /** How much can be read: up to the first file that gives no block. */
  function Readable(input: seq<Read>): (r: nat)
    ensures r <= |input| && (r < |input| ==> DeadEnd(input, r))
    ensures forall p :: 0 <= p < r ==> !DeadEnd(input, p)
  {
    if input == [] || DeadEnd(input, 0) then 0
    else
      assert forall p :: 0 < p < |input| ==> (DeadEnd(input, p) <==> DeadEnd(input[1..], p - 1));
      1 + Readable(input[1..])
  }

  /** The video samples of a stretch of a block. */
  function Video(samples: seq<Sample>, anchor: int, firstPts: int, ts: nat, file: nat): seq<Item>
    requires ts > 0
  {
    if samples == [] then []
    else
      var s, rest := samples[0], Video(samples[1..], anchor, firstPts, ts, file);
      if s.track == 0 && s.size > 0 then [Item(s, Instant(anchor, firstPts, s.pts, ts), file)] + rest else rest
  }

  /** All the video samples of all the blocks of all the files read. */
  function Recorded(ts: nat, file: nat, input: seq<Read>): seq<Item>
    requires ts > 0
    decreases |input|
  {
    if input == [] then []
    else
      match input[0]
      case Got(b) => Video(b.samples, Anchor(b), FirstPts(b.samples), ts, file) + Recorded(ts, file, input[1..])
      case NextFile(t) => Recorded(TicksPerSecond(t), file + 1, input[1..])
  }

  /** How many there are before the first that is past the end of the window. */
  function Within(all: seq<Item>, to: int): (n: nat)
    ensures n <= |all| && (n < |all| ==> all[n].ms > to)
    ensures forall i :: 0 <= i < n ==> all[i].ms <= to
  {
    if all == [] || all[0].ms > to then 0 else 1 + Within(all[1..], to)
  }

  /** A keyframe of its file is there by item `j`. */
  ghost predicate Started(all: seq<Item>, j: nat, file: nat)
    requires j <= |all|
  {
    exists i :: 0 <= i < j && all[i].file == file && IsKeyframe(all[i].sample)
  }

  /** Of the first `n` items, those that can be decoded: from the first keyframe of their file on. */
  ghost function Decodable(all: seq<Item>, n: nat): (d: seq<Item>)
    requires n <= |all|
    ensures |d| <= n
  {
    if n == 0 then []
    else Decodable(all, n - 1) + (if Started(all, n, all[n - 1].file) then [all[n - 1]] else [])
  }

  /** The last samples decoded gave no picture, one more of them than is borne. */
  ghost predicate Silenced(outputs: nat -> bool, n: nat) {
    n > MAX_SILENT && forall k :: n - MAX_SILENT - 1 <= k < n ==> !outputs(k)
  }

  /** How many of `n` samples are decoded: all, or up to the end of the first silence too long. */
  ghost function Heard(outputs: nat -> bool, n: nat): (h: nat)
    ensures h <= n && (h < n ==> Silenced(outputs, h)) && forall k :: 0 <= k < h ==> !Silenced(outputs, k)
  {
    if n == 0 then 0
    else
      var h := Heard(outputs, n - 1);
      if h < n - 1 || Silenced(outputs, h) then h else n
  }

  /** The instants of those the decoder answers with a picture. */
  function Answered(outputs: nat -> bool, items: seq<Item>): seq<int> {
    if items == [] then []
    else
      var n := |items| - 1;
      Answered(outputs, items[..n]) + (if outputs(n) then [items[n].ms] else [])
  }

  /** All the samples a walk should decode. */
  ghost function Due(outputs: nat -> bool, to: int, timescale: nat, input: seq<Read>): seq<Item> {
    var all := Recorded(TicksPerSecond(timescale), 0, input[..Readable(input)]);
    var d := Decodable(all, Within(all, to));
    d[..Heard(outputs, |d|)]
  }

  /** The samples decoded, file by file, in a row. */
  function InRow(fed: seq<seq<Sample>>): seq<(nat, Sample)> {
    if fed == [] then []
    else
      var n := |fed| - 1;
      InRow(fed[..n]) + seq(|fed[n]|, i requires 0 <= i < |fed[n]| => (n, fed[n][i]))
  }

  function OfFile(items: seq<Item>): seq<(nat, Sample)> {
    seq(|items|, i requires 0 <= i < |items| => (items[i].file, items[i].sample))
  }

  // ------------------------------------------------------------ the walk on the way

  /** What the walk has still before it. */
  function Rest(w: Walk): seq<Item>
    requires w.ts > 0 && w.fed != []
  {
    var file := |w.fed| - 1;
    (if AtBlockEnd(w) then [] else Video(w.block.value.samples[w.idx..], w.anchor, w.firstPts, w.ts, file))
    + Recorded(w.ts, file, w.input[..Readable(w.input)])
  }

  /** What was decoded and came out of it is what the first `c` items give. */
  ghost predicate Did(outputs: nat -> bool, w: Walk, all: seq<Item>, c: nat)
    requires c <= |all|
  {
    var d := Decodable(all, c);
    InRow(w.fed) == OfFile(d) && w.decoded == |d| && w.shown == Answered(outputs, d)
  }

  /** The silence so far. */
  ghost predicate Quiet(outputs: nat -> bool, decoded: nat, silent: nat) {
    silent <= decoded && silent <= MAX_SILENT
    && (forall k :: decoded - silent <= k < decoded ==> !outputs(k))
    && (silent < decoded ==> outputs(decoded - silent - 1))
    && forall n :: 0 <= n <= decoded ==> !Silenced(outputs, n)
  }

  /** The walk is under way, with the first `c` of all its items behind it. */
  ghost predicate Going(outputs: nat -> bool, w: Walk, all: seq<Item>, c: nat) {
    w.ts > 0 && w.fed != [] && c <= |all| && !w.done
    && all[c..] == Rest(w) && Did(outputs, w, all, c) && Quiet(outputs, w.decoded, w.silent)
    && (forall i :: 0 <= i < c ==> all[i].ms <= w.to && all[i].file < |w.fed|)
    && (w.waiting <==> !Started(all, c, |w.fed| - 1))
  }

  /** The walk is over: it decoded all that was due. */
  ghost predicate Finished(outputs: nat -> bool, w: Walk, all: seq<Item>) {
    w.done
    && var d := Decodable(all, Within(all, w.to));
      var due := d[..Heard(outputs, |d|)];
      InRow(w.fed) == OfFile(due) && w.shown == Answered(outputs, due)
  }

  // ------------------------------------------------------------ about the specification

  lemma {:induction false} WithinIs(all: seq<Item>, to: int, n: nat)
    requires n <= |all| && forall i :: 0 <= i < n ==> all[i].ms <= to
    ensures n <= Within(all, to) && (n == |all| || all[n].ms > to ==> Within(all, to) == n)
  {
  }

  lemma {:induction false} HeardIs(outputs: nat -> bool, n: nat, h: nat)
    requires h <= n && forall k :: 0 <= k < h ==> !Silenced(outputs, k)
    requires h == n || Silenced(outputs, h)
    ensures Heard(outputs, n) == h
  {
    hide Silenced;
  }

  lemma {:induction false} HeardAtLeast(outputs: nat -> bool, n: nat, h: nat)
    requires h <= n && forall k :: 0 <= k <= h ==> !Silenced(outputs, k)
    ensures Heard(outputs, n) >= h
  {
    hide Silenced;
  }

  lemma {:induction false} DecodableGrows(all: seq<Item>, c: nat, e: nat)
    requires c <= e <= |all|
    ensures Decodable(all, c) <= Decodable(all, e)
    decreases e
  {
    hide Started;
    if c < e {
      DecodableGrows(all, c, e - 1);
    }
  }

  lemma {:induction false} AnsweredGrows(outputs: nat -> bool, a: seq<Item>, b: seq<Item>)
    requires a <= b
    ensures Answered(outputs, a) <= Answered(outputs, b)
    decreases |b|
  {
    if |a| < |b| {
      var n := |b| - 1;
      AnsweredGrows(outputs, a, b[..n]);
    } else {
      assert a == b;
    }
  }

  lemma {:induction false} AnsweredMore(outputs: nat -> bool, items: seq<Item>, x: Item)
    ensures Answered(outputs, items + [x]) == Answered(outputs, items) + (if outputs(|items|) then [x.ms] else [])
  {
    assert (items + [x])[..|items|] == items;
  }

  lemma {:induction false} OfFileMore(items: seq<Item>, x: Item)
    ensures OfFile(items + [x]) == OfFile(items) + [(x.file, x.sample)]
  {
  }

  lemma {:induction false} InRowMore(fed: seq<seq<Sample>>, s: Sample)
    requires fed != []
    ensures var n := |fed| - 1; InRow(fed[n := fed[n] + [s]]) == InRow(fed) + [(n, s)]
  {
    var n := |fed| - 1;
    var r := fed[n := fed[n] + [s]];
    assert r[..n] == fed[..n];
    var a := seq(|fed[n]|, i requires 0 <= i < |fed[n]| => (n, fed[n][i]));
    assert seq(|r[n]|, i requires 0 <= i < |r[n]| => (n, r[n][i])) == a + [(n, s)];
    ConcatAssociative(InRow(fed[..n]), a, [(n, s)]);
  }

  lemma {:induction false} InRowNext(fed: seq<seq<Sample>>)
    ensures InRow(fed + [[]]) == InRow(fed)
  {
    assert (fed + [[]])[..|fed|] == fed;
  }

  lemma {:induction false} StartedMore(all: seq<Item>, c: nat, file: nat)
    requires c < |all|
    ensures Started(all, c + 1, file) <==> Started(all, c, file) || (all[c].file == file && IsKeyframe(all[c].sample))
  {
  }

  // ------------------------------------------------------------ one turn

  /** Entering the first block of what is read next. */
  lemma {:induction false} EnterRest(w: Walk, b: Block)
    requires w.ts > 0 && w.fed != [] && w.input != [] && w.input[0] == Got(b)
    ensures Rest(Enter(w, b)) == Recorded(w.ts, |w.fed| - 1, w.input[..Readable(w.input)])
  {
    hide Instant, Anchor, FirstPts, Readable, Recorded, Video;
    RecordedOne(w.ts, |w.fed| - 1, w.input);
    var e := Enter(w, b);
    assert b.samples[0..] == b.samples;
    assert AtBlockEnd(e) ==> Video(b.samples, Anchor(b), FirstPts(b.samples), w.ts, |w.fed| - 1) == [] by {
      NoVideo(Anchor(b), FirstPts(b.samples), w.ts, |w.fed| - 1);
    }
  }

  lemma {:induction false} NoVideo(anchor: int, firstPts: int, ts: nat, file: nat)
    requires ts > 0
    ensures Video([], anchor, firstPts, ts, file) == []
  {
  }

  /** The walk `n` follows `w` in the same file or in the next, and has the same left before it. */
  ghost predicate GoesOn(w: Walk, n: Walk)
    requires w.ts > 0 && w.fed != []
  {
    n.ts > 0 && n.fed != [] && Rest(n) == Rest(w)
    && ((n.fed == w.fed && n.waiting == w.waiting) || (n.fed == w.fed + [[]] && n.waiting))
    && n.done == w.done && n.decoded == w.decoded && n.shown == w.shown && n.silent == w.silent && n.to == w.to
  }

  lemma {:induction false} SameFile(w: Walk, b: Block)
    requires w.ts > 0 && w.fed != [] && AtBlockEnd(w) && w.input != [] && w.input[0] == Got(b)
    ensures GoesOn(w, Enter(w, b))
  {
    EnterRest(w, b);
    hide Recorded, Video, Readable, Anchor, FirstPts;
  }

  /** The walk at the start of the next file. */
  function Opened(w: Walk, t: nat): Walk
    requires w.input != []
  {
    w.(input := w.input[1..], ts := TicksPerSecond(t), waiting := true, fed := w.fed + [[]])
  }

  lemma {:induction false} OtherFile(w: Walk, t: nat, b: Block)
    requires w.ts > 0 && w.fed != [] && AtBlockEnd(w)
    requires |w.input| >= 2 && w.input[0] == NextFile(t) && w.input[1] == Got(b)
    ensures GoesOn(w, Enter(Opened(w, t), b))
  {
    EnterRest(Opened(w, t), b);
    RecordedOne(w.ts, |w.fed| - 1, w.input);
    hide Recorded, Video, Readable, Anchor, FirstPts;
  }

  lemma {:induction false} NothingLeft(w: Walk)
    requires w.ts > 0 && w.fed != [] && AtBlockEnd(w) && (w.input == [] || DeadEnd(w.input, 0))
    ensures Rest(w) == []
  {
    hide Video;
  }

  /** What is left does not change as the walk goes on to the next block. */
  lemma {:induction false} NextKeepsRest(w: Walk)
    requires w.ts > 0 && w.fed != [] && AtBlockEnd(w)
    ensures match NextBlock(w)
      case None => Rest(w) == []
      case Some(n) => GoesOn(w, n)
  {
    hide Rest, Enter, AtBlockEnd, GoesOn;
    if w.input == [] || DeadEnd(w.input, 0) {
      NothingLeft(w);
    } else {
      match w.input[0]
      case Got(b) => SameFile(w, b);
      case NextFile(t) =>
        OtherFile(w, t, w.input[1].block);
    }
  }

  lemma {:induction false} ReadOne(input: seq<Read>)
    requires input != []
    ensures Readable(input) == if DeadEnd(input, 0) then 0 else 1 + Readable(input[1..])
    ensures !DeadEnd(input, 0) ==> input[..Readable(input)] == [input[0]] + input[1..][..Readable(input[1..])]
  {
  }

  lemma {:induction false} RecordedOne(ts: nat, file: nat, input: seq<Read>)
    requires ts > 0 && input != [] && !DeadEnd(input, 0)
    ensures var rest := input[1..][..Readable(input[1..])];
      Recorded(ts, file, input[..Readable(input)]) == match input[0]
        case Got(b) => Video(b.samples, Anchor(b), FirstPts(b.samples), ts, file) + Recorded(ts, file, rest)
        case NextFile(t) => Recorded(TicksPerSecond(t), file + 1, rest)
  {
    ReadOne(input);
    hide Video, Anchor, FirstPts, Readable;
    var r := input[..Readable(input)];
    assert r[0] == input[0] && r[1..] == input[1..][..Readable(input[1..])];
  }

  /** What a turn leaves: the walk under way, now or at its next frame, or finished. */
  ghost predicate Onward(outputs: nat -> bool, t: Turn, all: seq<Item>) {
    match t
    case Over(n) => Finished(outputs, n, all)
    case Again(n) => exists c: nat :: Going(outputs, n, all, c)
    case Frame(_, n) => exists c: nat :: Going(outputs, n, all, c)
  }

  lemma {:induction false} EndsHere(outputs: nat -> bool, w: Walk, all: seq<Item>, c: nat)
    requires Going(outputs, w, all, c) && (c == |all| || all[c].ms > w.to)
    ensures Finished(outputs, w.(done := true), all)
    ensures forall idx: nat :: Finished(outputs, w.(done := true, idx := idx), all)
  {
    hide Rest, Decodable, Answered, InRow, OfFile, Within, Heard, Silenced, Started;
    WithinIs(all, w.to, c);
    var d := Decodable(all, c);
    HeardIs(outputs, |d|, |d|);
    assert d[..|d|] == d;
  }

  lemma {:induction false} NextGoing(outputs: nat -> bool, w: Walk, all: seq<Item>, c: nat)
    requires Going(outputs, w, all, c) && AtBlockEnd(w)
    ensures Onward(outputs, TakeTurn(outputs, w), all)
  {
    hide Rest, NextBlock, Decodable, Answered, InRow, OfFile, Silenced, Finished;
    NextKeepsRest(w);
    InRowNext(w.fed);
    if NextBlock(w).None? {
      EndsHere(outputs, w, all, c);
    } else {
      assert Going(outputs, NextBlock(w).value, all, c);
    }
  }

  /** The sample at hand, and what is left after it. */
  lemma {:induction false} RestOne(w: Walk)
    requires w.ts > 0 && w.fed != [] && !AtBlockEnd(w)
    ensures var s := w.block.value.samples[w.idx];
      var rest := Rest(w.(idx := w.idx + 1));
      Rest(w) == if s.track == 0 && s.size > 0
        then [Item(s, Instant(w.anchor, w.firstPts, s.pts, w.ts), |w.fed| - 1)] + rest else rest
  {
    hide Instant, Recorded, Readable;
    var samples := w.block.value.samples[w.idx..];
    assert samples[1..] == w.block.value.samples[w.idx + 1..];
    var file := |w.fed| - 1;
    var left := Video(samples[1..], w.anchor, w.firstPts, w.ts, file);
    assert w.idx + 1 == |w.block.value.samples| ==> left == [];
    var tail := Recorded(w.ts, file, w.input[..Readable(w.input)]);
    var item := Item(samples[0], Instant(w.anchor, w.firstPts, samples[0].pts, w.ts), file);
    ConcatAssociative([item], left, tail);
  }

  lemma {:induction false} SkipGoing(outputs: nat -> bool, w: Walk, all: seq<Item>, c: nat)
    requires Going(outputs, w, all, c) && !AtBlockEnd(w)
    requires w.block.value.samples[w.idx].track != 0 || w.block.value.samples[w.idx].size == 0
    ensures Going(outputs, w.(idx := w.idx + 1), all, c)
  {
    hide Rest, Decodable, Answered, InRow, OfFile, Silenced, Started;
    RestOne(w);
  }

  /** The item the sample at hand is. */
  lemma {:induction false} ItemHere(outputs: nat -> bool, w: Walk, all: seq<Item>, c: nat)
    requires Going(outputs, w, all, c) && !AtBlockEnd(w)
    requires w.block.value.samples[w.idx].track == 0 && w.block.value.samples[w.idx].size > 0
    ensures var s := w.block.value.samples[w.idx];
      c < |all| && all[c] == Item(s, Instant(w.anchor, w.firstPts, s.pts, w.ts), |w.fed| - 1)
      && all[c + 1..] == Rest(w.(idx := w.idx + 1))
  {
    hide Rest, Decodable, Answered, InRow, OfFile, Silenced, Started, Instant, Did, Quiet;
    RestOne(w);
    assert all[c..][0] == all[c] && all[c..][1..] == all[c + 1..];
  }

  lemma {:induction false} WaitGoing(outputs: nat -> bool, w: Walk, all: seq<Item>, c: nat)
    requires Going(outputs, w, all, c) && !AtBlockEnd(w) && w.waiting
    requires var s := w.block.value.samples[w.idx];
      s.track == 0 && s.size > 0 && Instant(w.anchor, w.firstPts, s.pts, w.ts) <= w.to && !IsKeyframe(s)
    ensures Going(outputs, w.(idx := w.idx + 1), all, c + 1)
  {
    hide Rest, Answered, InRow, OfFile, Silenced, Started, Instant;
    ItemHere(outputs, w, all, c);
    StartedMore(all, c, |w.fed| - 1);
    assert Decodable(all, c + 1) == Decodable(all, c);
  }

  lemma {:induction false} FedDid(outputs: nat -> bool, w: Walk, all: seq<Item>, c: nat)
    requires c < |all| && w.fed != [] && Did(outputs, w, all, c) && Started(all, c + 1, all[c].file)
    requires all[c].file == |w.fed| - 1
    ensures var f := Feed(w, all[c].sample);
      Did(outputs, f.(shown := f.shown + (if outputs(w.decoded) then [all[c].ms] else [])), all, c + 1)
  {
    hide Answered, InRow, OfFile, Started;
    var d := Decodable(all, c);
    assert Decodable(all, c + 1) == d + [all[c]];
    AnsweredMore(outputs, d, all[c]);
    OfFileMore(d, all[c]);
    InRowMore(w.fed, all[c].sample);
  }

  lemma {:induction false} DecodeGoing(outputs: nat -> bool, w: Walk, all: seq<Item>, c: nat)
    requires Going(outputs, w, all, c) && !AtBlockEnd(w)
    requires var s := w.block.value.samples[w.idx];
      s.track == 0 && s.size > 0 && Instant(w.anchor, w.firstPts, s.pts, w.ts) <= w.to && (w.waiting ==> IsKeyframe(s))
    ensures var s := w.block.value.samples[w.idx];
      Onward(outputs, Decode(outputs, w.(idx := w.idx + 1), s, Instant(w.anchor, w.firstPts, s.pts, w.ts)), all)
  {
    hide Rest, Decodable, Answered, InRow, OfFile, Silenced, Started, Instant, Within, Heard;
    var s := w.block.value.samples[w.idx];
    var ms := Instant(w.anchor, w.firstPts, s.pts, w.ts);
    ItemHere(outputs, w, all, c);
    StartedMore(all, c, |w.fed| - 1);
    FedDid(outputs, w, all, c);
    SilenceStep(outputs, w.decoded, w.silent);
    FedRest(w.(idx := w.idx + 1), s);
    var t := Decode(outputs, w.(idx := w.idx + 1), s, ms);
    if t.Over? {
      SilentEnd(outputs, all, c + 1, w.to);
    } else {
      assert Going(outputs, t.walk, all, c + 1);
    }
  }

  lemma {:induction false} FedRest(w: Walk, s: Sample)
    requires w.ts > 0 && w.fed != []
    ensures forall decoded, fed, silent, shown, target, given, waiting ::
      |fed| == |w.fed| ==> Rest(w.(decoded := decoded, fed := fed, silent := silent, shown := shown, target := target,
        given := given, waiting := waiting)) == Rest(w)
  {
    hide Video, Recorded, Readable;
  }

  lemma {:induction false} SilenceStep(outputs: nat -> bool, decoded: nat, silent: nat)
    requires Quiet(outputs, decoded, silent)
    ensures outputs(decoded) ==> Quiet(outputs, decoded + 1, 0)
    ensures !outputs(decoded) && silent + 1 <= MAX_SILENT ==> Quiet(outputs, decoded + 1, silent + 1)
    ensures !outputs(decoded) && silent + 1 > MAX_SILENT ==> Silenced(outputs, decoded + 1)
  {
  }

  lemma {:induction false} SilentEnd(outputs: nat -> bool, all: seq<Item>, c: nat, to: int)
    requires c <= |all| && (forall i :: 0 <= i < c ==> all[i].ms <= to)
    requires var h := |Decodable(all, c)|;
      Silenced(outputs, h) && forall n :: 0 <= n < h ==> !Silenced(outputs, n)
    ensures var d := Decodable(all, Within(all, to)); d[..Heard(outputs, |d|)] == Decodable(all, c)
  {
    hide Silenced, Decodable, Within, Heard;
    WithinIs(all, to, c);
    DecodableGrows(all, c, Within(all, to));
    HeardIs(outputs, |Decodable(all, Within(all, to))|, |Decodable(all, c)|);
  }

  lemma {:induction false} TurnGoing(outputs: nat -> bool, w: Walk, all: seq<Item>, c: nat)
    requires Going(outputs, w, all, c)
    ensures Onward(outputs, TakeTurn(outputs, w), all)
  {
    hide Going, Finished, Instant, Decode, Anchor, FirstPts, IsKeyframe, NextBlock;
    GoingScale(outputs, w, all, c);
    if AtBlockEnd(w) {
      NextGoing(outputs, w, all, c);
    } else {
      var s := w.block.value.samples[w.idx];
      var ms := Instant(w.anchor, w.firstPts, s.pts, w.ts);
      if s.track != 0 || s.size == 0 {
        SkipGoing(outputs, w, all, c);
      } else if ms > w.to {
        ItemHere(outputs, w, all, c);
        EndsHere(outputs, w, all, c);
      } else if w.waiting && !IsKeyframe(s) {
        WaitGoing(outputs, w, all, c);
      } else {
        DecodeGoing(outputs, w, all, c);
      }
    }
  }

  lemma {:induction false} GoingScale(outputs: nat -> bool, w: Walk, all: seq<Item>, c: nat)
    requires Going(outputs, w, all, c)
    ensures w.ts > 0 && !w.done && c <= |all| && w.fed != []
  {
    hide Rest, Did, Quiet, Started;
  }

  // ------------------------------------------------------------ whole walks

  /** A frame taken leaves the walk under way; with no frame it is finished. */
  ghost predicate Pulls(outputs: nat -> bool, r: Next, all: seq<Item>) {
    match r.frame
    case Some(_) => exists c: nat :: Going(outputs, r.walk, all, c)
    case None => Finished(outputs, r.walk, all)
  }

  lemma {:induction false} NextGoes(outputs: nat -> bool, w: Walk, all: seq<Item>, c: nat)
    requires w.ts > 0 && Going(outputs, w, all, c)
    ensures Pulls(outputs, NextFrame(outputs, w), all)
    decreases |w.input|, Left(w)
  {
    hide Going, Finished, TakeTurn, Left;
    GoingScale(outputs, w, all, c);
    TurnAdvances(outputs, w);
    TurnGoing(outputs, w, all, c);
    var t := TakeTurn(outputs, w);
    if t.Again? {
      var e: nat :| Going(outputs, t.walk, all, e);
      NextGoes(outputs, t.walk, all, e);
    }
  }

  /** After any number of pulls the walk is under way or finished. */
  ghost predicate Stage(outputs: nat -> bool, w: Walk, all: seq<Item>) {
    Finished(outputs, w, all) || exists c: nat :: Going(outputs, w, all, c)
  }

  lemma {:induction false} PulledStage(outputs: nat -> bool, w: Walk, all: seq<Item>, n: nat)
    requires w.ts > 0 && Going(outputs, w, all, 0)
    ensures var r := PullMany(outputs, w, n);
      Stage(outputs, r.walk, all) && |r.frames| <= n && (|r.frames| < n ==> r.walk.done)
    decreases n
  {
    hide Going, Finished, NextFrame;
    if n > 0 {
      PulledStage(outputs, w, all, n - 1);
      var before := PullMany(outputs, w, n - 1).walk;
      KeepsScale(outputs, before);
      PullStage(outputs, before, all);
    }
  }

  lemma {:induction false} PullStage(outputs: nat -> bool, w: Walk, all: seq<Item>)
    requires w.ts > 0 && Stage(outputs, w, all)
    ensures var r := NextFrame(outputs, w);
      Stage(outputs, r.walk, all) && (r.frame.None? ==> r.walk.done) && (w.done ==> r.frame.None?)
  {
    hide Going, NextFrame, Within, Heard, Decodable, Answered, InRow, OfFile;
    if w.done {
      DoneStays(outputs, w);
      assert Finished(outputs, w, all) || exists c: nat :: Going(outputs, w, all, c);
    } else {
      var c: nat :| Going(outputs, w, all, c);
      NextGoes(outputs, w, all, c);
    }
  }

  lemma {:induction false} DoneStays(outputs: nat -> bool, w: Walk)
    requires w.ts > 0 && w.done
    ensures NextFrame(outputs, w) == Next(None, w)
  {
  }

  lemma {:induction false} BeginGoing(outputs: nat -> bool, from: int, to: int, step: int, timescale: nat,
      input: seq<Read>)
    requires from < to && step > 0
    ensures var w := Begin(from, to, step, Some(timescale), input).value;
      w.ts > 0
      && Going(outputs, w, Recorded(TicksPerSecond(timescale), 0, input[..Readable(input)]), 0)
  {
    hide Recorded, Readable;
    var all := Recorded(TicksPerSecond(timescale), 0, input[..Readable(input)]);
    assert all[0..] == all;
    var w := Begin(from, to, step, Some(timescale), input).value;
    assert Rest(w) == [] + all;
    assert w.fed[..0] == [];
    assert InRow(w.fed) == [];
  }

  lemma {:induction false} PacedGrows(a: seq<int>, b: seq<int>, from: int, step: int)
    requires a <= b
    ensures Paced(a, from, step).given <= Paced(b, from, step).given
    decreases |b|
  {
    if |a| < |b| {
      PacedGrows(a, b[..|b| - 1], from, step);
    } else {
      assert a == b;
    }
  }

  /** What was decoded on the way is the first of what is due. */
  lemma {:induction false} GoingDue(outputs: nat -> bool, w: Walk, all: seq<Item>, c: nat)
    requires Going(outputs, w, all, c)
    ensures var d := Decodable(all, Within(all, w.to));
      w.shown <= Answered(outputs, d[..Heard(outputs, |d|)])
  {
    hide Rest, Decodable, Answered, InRow, OfFile, Silenced, Started, Within, Heard;
    WithinIs(all, w.to, c);
    DecodableGrows(all, c, Within(all, w.to));
    var d := Decodable(all, Within(all, w.to));
    HeardAtLeast(outputs, |d|, w.decoded);
    AnsweredGrows(outputs, Decodable(all, c), d[..Heard(outputs, |d|)]);
  }

  lemma {:induction false} StageShows(outputs: nat -> bool, w: Walk, all: seq<Item>)
    requires Stage(outputs, w, all)
    ensures var d := Decodable(all, Within(all, w.to));
      var due := d[..Heard(outputs, |d|)];
      w.shown <= Answered(outputs, due)
      && (w.done ==> w.shown == Answered(outputs, due) && InRow(w.fed) == OfFile(due))
  {
    hide Going, Decodable, Within, Heard, Answered, InRow, OfFile;
    if !Finished(outputs, w, all) {
      var c: nat :| Going(outputs, w, all, c);
      GoingScale(outputs, w, all, c);
      GoingDue(outputs, w, all, c);
    }
  }

  lemma {:induction false} InvPaced(w: Walk, from: int)
    requires Inv(w, from)
    ensures w.given == Paced(w.shown, from, w.step).given
  {
    hide Paced, FromKeyframes;
  }

  /**
   A whole walk misses nothing: asked `n` times, it gives the first `n` of the frames that the pace picks from all
   the samples due that the decoder answers; asked once more than there are, it is over and has decoded exactly the
   samples due, file by file: of all files and blocks in order, from each file's first keyframe, up to the first
   instant past the window, the first file that gives no block, or the first silence too long.
   */
  lemma {:induction false} WalkGivesAll(outputs: nat -> bool, from: int, to: int, step: int, timescale: nat,
      input: seq<Read>, n: nat)
    requires from < to && step > 0
    ensures var w := Begin(from, to, step, Some(timescale), input).value;
      var due := Due(outputs, to, timescale, input);
      var picked := Paced(Answered(outputs, due), from, step).given;
      w.ts > 0
      && var r := PullMany(outputs, w, n);
        r.frames == picked[..if n < |picked| then n else |picked|]
        && (n > |picked| ==> r.walk.done && InRow(r.walk.fed) == OfFile(due))
  {
    hide *;
    BeginTo(from, to, step, timescale, input);
    BeginInv(from, to, step, Some(timescale), input);
    BeginGoing(outputs, from, to, step, timescale, input);
    var w := Begin(from, to, step, Some(timescale), input).value;
    var all := Recorded(TicksPerSecond(timescale), 0, input[..Readable(input)]);
    var r := PullMany(outputs, w, n);
    PulledStage(outputs, w, all, n);
    PulledInv(outputs, w, n, from);
    InvPaced(r.walk, from);
    StageShows(outputs, r.walk, all);
    DueIs(outputs, to, timescale, input);
    var due := Due(outputs, to, timescale, input);
    PacedGrows(r.walk.shown, Answered(outputs, due), from, step);
  }

  lemma {:induction false} BeginTo(from: int, to: int, step: int, timescale: nat, input: seq<Read>)
    requires from < to && step > 0
    ensures var w := Begin(from, to, step, Some(timescale), input);
      w.Some? && w.value.to == to && w.value.step == step && w.value.given == [] && w.value.ts > 0
  {
  }

  lemma {:induction false} DueIs(outputs: nat -> bool, to: int, timescale: nat, input: seq<Read>)
    ensures var all := Recorded(TicksPerSecond(timescale), 0, input[..Readable(input)]);
      var d := Decodable(all, Within(all, to));
      Due(outputs, to, timescale, input) == d[..Heard(outputs, |d|)]
  {
  }
}
