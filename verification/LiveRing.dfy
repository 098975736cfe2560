/**
 The live picture in memory: a ring of samples with limits on count, bytes and age, and the cursors
 of the clients reading it. The ring is a window over the history of everything ever published.
 */
module LiveRing {
  import opened Bytes

  const CAPACITY: nat := 8192

  /** Track 0 is video, 1 is audio; `mono` is the arrival on the monotonic clock. */
  datatype Sample = Sample(track: nat, pts: int, keyframe: bool, mono: int, data: seq<byte>)
  datatype VideoFormat = VideoFormat(codec: nat, width: nat, height: nat, extra: seq<byte>)
  datatype AudioFormat = AudioFormat(codec: nat, rate: nat, channels: nat, extra: seq<byte>)

  /** A sample and the format epoch it was published in. */
  datatype Published = Published(sample: Sample, epoch: nat)

  /** What the ring stands for: the history, of which it still holds `first` on. */
  datatype Ring = Ring(history: seq<Published>, first: nat, epoch: nat, video: Option<VideoFormat>,
      audio: Option<AudioFormat>)

  datatype Limits = Limits(bufferMs: int, maxBytes: nat)

  const EMPTY: Ring := Ring([], 0, 1, None, None)

  function Size(p: Published): nat {
    |p.sample.data|
  }

  /** Bytes of the history from `from` on. */
  function Weight(h: seq<Published>, from: nat): nat
    decreases |h| - from
  {
    if from >= |h| then 0 else Size(h[from]) + Weight(h, from + 1)
  }

  predicate Within(h: seq<Published>, from: nat, l: Limits) {
    from >= |h|
    || (|h| - from <= CAPACITY && Weight(h, from) <= l.maxBytes
      && h[|h| - 1].sample.mono - h[from].sample.mono <= l.bufferMs)
  }

  /** Drops the oldest until the limits are met. */
  function Trimmed(h: seq<Published>, from: nat, l: Limits): nat
    requires from <= |h|
    decreases |h| - from
  {
    if Within(h, from, l) then from else Trimmed(h, from + 1, l)
  }

  function PublishTo(r: Ring, s: Sample, l: Limits): Ring
    requires r.first <= |r.history|
  {
    if s.data == [] then r
    else
      var h := r.history + [Published(s, r.epoch)];
      var from := if |r.history| - r.first >= CAPACITY then r.first + 1 else r.first;
      r.(history := h, first := Trimmed(h, from, l))
  }

  function Cleared(r: Ring): Ring {
    r.(first := |r.history|)
  }

  /** A new codec or size starts an epoch; announcing the same again does not disturb who is watching. */
  function VideoTo(r: Ring, f: VideoFormat): Ring {
    var changed := r.video.None? || r.video.value.codec != f.codec || r.video.value.width != f.width
      || r.video.value.height != f.height;
    var r1 := r.(video := Some(f));
    if changed then Cleared(r1.(epoch := r.epoch + 1)) else r1
  }

  function AudioTo(r: Ring, f: AudioFormat): Ring {
    var changed := r.audio.None? || r.audio.value.codec != f.codec || r.audio.value.rate != f.rate;
    var r1 := r.(audio := Some(f));
    if changed then Cleared(r1.(epoch := r.epoch + 1)) else r1
  }

  // ------------------------------------------------------------ cursors

  /** A client's place in the ring; the client hands it back as it was, so `next` is any number. */
  datatype Cursor = Cursor(next: int, epoch: nat, wait: bool)

  predicate IsVideo(p: Published) {
    p.sample.track == 0
  }

  predicate IsKey(p: Published) {
    IsVideo(p) && p.sample.keyframe
  }

  /** The last video keyframe at or after `first` and before `end`. */
  function LastKey(h: seq<Published>, first: nat, end: nat): (k: Option<nat>)
    requires end <= |h|
    ensures k.Some? ==> first <= k.value < end && IsKey(h[k.value]) && forall s :: k.value < s < end ==> !IsKey(h[s])
    ensures k.None? ==> forall s :: first <= s < end ==> !IsKey(h[s])
  {
    if end <= first then None
    else if IsKey(h[end - 1]) then Some(end - 1)
    else LastKey(h, first, end - 1)
  }

  /** At the last keyframe held; with none, after everything, holding video back until one comes. */
  function Position(r: Ring): Cursor {
    match LastKey(r.history, r.first, |r.history|)
    case Some(k) => Cursor(k, r.epoch, false)
    case None => Cursor(|r.history|, r.epoch, r.video.Some?)
  }

  function SubscribeTo(r: Ring): Option<Cursor> {
    if r.video.None? && r.audio.None? then None else Some(Position(r))
  }

  /** Sequence numbers delivered from `from` up to `end`: all, or from the first keyframe on for video. */
  function Seen(h: seq<Published>, from: nat, end: nat, wait: bool): seq<nat>
    requires end <= |h|
    decreases end - from
  {
    if from >= end then []
    else if wait && IsVideo(h[from]) then
      if IsKey(h[from]) then [from] + Seen(h, from + 1, end, false) else Seen(h, from + 1, end, true)
    else [from] + Seen(h, from + 1, end, wait)
  }

  /** Whether video is still held back after `end`. */
  predicate StillWaiting(h: seq<Published>, from: nat, end: nat, wait: bool)
    requires end <= |h|
  {
    wait && forall s :: from <= s < end ==> !IsKey(h[s])
  }

  datatype Fetched = Nothing | Samples(seqs: seq<nat>) | Resync(seqs: seq<nat>) | FormatChanged

  function FetchFrom(r: Ring, c: Cursor): (Fetched, Cursor) {
    var h, n := r.history, |r.history|;
    if c.epoch != r.epoch then (FormatChanged, c)
    else if c.next >= n then (Nothing, c)
    else
      var c1 := if c.next < r.first then Position(r) else c;
      var seqs := Seen(h, c1.next, n, c1.wait);
      var c2 := Cursor(n, c1.epoch, StillWaiting(h, c1.next, n, c1.wait));
      (if c.next < r.first then Resync(seqs) else Samples(seqs), c2)
  }

  // ------------------------------------------------------------ limits

  lemma {:induction false} WeightAppend(h: seq<Published>, p: Published, from: nat)
    requires from <= |h|
    ensures Weight(h + [p], from) == Weight(h, from) + Size(p)
    decreases |h| - from
  {
    if from == |h| {
      assert Weight(h + [p], |h| + 1) == 0;
    } else {
      assert (h + [p])[from] == h[from];
      WeightAppend(h, p, from + 1);
    }
  }

  /** Trimming stops at the first point within the limits: no more than needed is dropped. */
  lemma {:induction false} TrimmedIsLeast(h: seq<Published>, from: nat, l: Limits)
    requires from <= |h|
    ensures from <= Trimmed(h, from, l) <= |h|
    ensures Within(h, Trimmed(h, from, l), l)
    ensures forall f :: from <= f < Trimmed(h, from, l) ==> !Within(h, f, l)
    decreases |h| - from
  {
    hide Within;
    if !Within(h, from, l) {
      assert from < |h| by { EndWithin(h, l); }
      TrimmedIsLeast(h, from + 1, l);
    }
  }

  lemma {:induction false} EndWithin(h: seq<Published>, l: Limits)
    ensures Within(h, |h|, l)
  {
  }

  ghost predicate ClockForward(h: seq<Published>) {
    forall i, j :: 0 <= i <= j < |h| ==> h[i].sample.mono <= h[j].sample.mono
  }

  /**
   After every publish the ring is within its limits of count, bytes and age; it dropped only what it
   had to, and the new sample itself stays whenever it fits the byte limit alone.
   */
  lemma {:induction false} PublishKeepsLimits(r: Ring, s: Sample, l: Limits)
    requires r.first <= |r.history| <= r.first + CAPACITY && s.data != [] && l.bufferMs >= 0
    requires ClockForward(r.history + [Published(s, r.epoch)])
    ensures var q := PublishTo(r, s, l);
      && q.history == r.history + [Published(s, r.epoch)]
      && r.first <= q.first <= |q.history| <= q.first + CAPACITY
      && Weight(q.history, q.first) <= l.maxBytes
      && (forall i :: q.first <= i < |q.history| ==> s.mono - q.history[i].sample.mono <= l.bufferMs)
      && (forall f :: r.first <= f < q.first ==>
        |q.history| - f > CAPACITY || Weight(q.history, f) > l.maxBytes
        || s.mono - q.history[f].sample.mono > l.bufferMs)
      && (|s.data| <= l.maxBytes ==> q.first < |q.history|)
  {
    var h := r.history + [Published(s, r.epoch)];
    var from := if |r.history| - r.first >= CAPACITY then r.first + 1 else r.first;
    TrimmedIsLeast(h, from, l);
    var first := Trimmed(h, from, l);
    hide Trimmed;
    forall f | r.first <= f < first
      ensures |h| - f > CAPACITY || Weight(h, f) > l.maxBytes || s.mono - h[f].sample.mono > l.bufferMs
    {
      assert f < from || !Within(h, f, l);
    }
    if first < |h| {
      assert h[first].sample.mono <= s.mono;
    }
    if |s.data| <= l.maxBytes {
      var last := |r.history|;
      assert Weight(h, last + 1) == 0 && Weight(h, last) == |s.data|;
      assert Within(h, last, l);
    }
  }

  // ------------------------------------------------------------ what a fetch delivers

  /** The numbers from `a` up to `b`. */
  function Range(a: nat, b: nat): seq<nat>
    decreases b - a
  {
    if a >= b then [] else [a] + Range(a + 1, b)
  }

  lemma {:induction false} SeenWithoutWait(h: seq<Published>, from: nat, end: nat)
    requires end <= |h|
    ensures Seen(h, from, end, false) == Range(from, end)
    decreases end - from
  {
    if from < end {
      SeenWithoutWait(h, from + 1, end);
    }
  }

  /** Fetching up to `mid` and then up to `end` delivers what one fetch up to `end` would. */
  lemma {:induction false} SeenSplit(h: seq<Published>, from: nat, mid: nat, end: nat, wait: bool)
    requires from <= mid <= end <= |h|
    ensures Seen(h, from, end, wait) == Seen(h, from, mid, wait) + Seen(h, mid, end, StillWaiting(h, from, mid, wait))
    ensures StillWaiting(h, from, end, wait) == StillWaiting(h, mid, end, StillWaiting(h, from, mid, wait))
    decreases mid - from
  {
    if from < mid {
      var w := wait && !IsKey(h[from]);
      SeenSplit(h, from + 1, mid, end, w);
      var a, b := Seen(h, from + 1, mid, w), Seen(h, mid, end, StillWaiting(h, from + 1, mid, w));
      assert StillWaiting(h, from, mid, wait) == StillWaiting(h, from + 1, mid, w);
      assert StillWaiting(h, from, end, wait) == StillWaiting(h, from + 1, end, w);
      ConcatAssociative([from], a, b);
    }
  }

  lemma {:induction false} SeenOfLonger(h: seq<Published>, more: seq<Published>, from: nat, end: nat, wait: bool)
    requires end <= |h|
    ensures Seen(h + more, from, end, wait) == Seen(h, from, end, wait)
    decreases end - from
  {
    if from < end {
      assert (h + more)[from] == h[from];
      SeenOfLonger(h, more, from + 1, end, if wait && IsVideo(h[from]) && IsKey(h[from]) then false else wait);
    }
  }

  lemma {:induction false} WaitingOfLonger(h: seq<Published>, more: seq<Published>, from: nat, end: nat, wait: bool)
    requires end <= |h|
    ensures StillWaiting(h + more, from, end, wait) == StillWaiting(h, from, end, wait)
  {
    var all := h + more;
    assert forall s :: 0 <= s < |h| ==> all[s] == h[s];
    if StillWaiting(h, from, end, wait) {
      assert forall s :: from <= s < end ==> !IsKey(all[s]);
    }
    if StillWaiting(all, from, end, wait) {
      forall s | from <= s < end
        ensures !IsKey(h[s])
      {
        assert all[s] == h[s];
      }
    }
  }

  ghost predicate Bounded(seqs: seq<nat>, from: nat, end: nat) {
    forall i :: 0 <= i < |seqs| ==> from <= seqs[i] < end
  }

  lemma {:induction false} SeenBounded(h: seq<Published>, from: nat, end: nat, wait: bool)
    requires end <= |h|
    ensures Bounded(Seen(h, from, end, wait), from, end)
    decreases end - from
  {
    if from < end {
      SeenBounded(h, from + 1, end, wait);
      SeenBounded(h, from + 1, end, false);
    }
  }

  /** No video comes before the first keyframe. */
  ghost predicate OpensWithKey(h: seq<Published>, seqs: seq<nat>) {
    Bounded(seqs, 0, |h|)
    && forall i :: 0 <= i < |seqs| && IsVideo(h[seqs[i]]) && (forall j :: 0 <= j < i ==> !IsVideo(h[seqs[j]])) ==>
      h[seqs[i]].sample.keyframe
  }

  lemma {:induction false} WaitingOpensWithKey(h: seq<Published>, from: nat, end: nat)
    requires end <= |h|
    ensures OpensWithKey(h, Seen(h, from, end, true))
    decreases end - from
  {
    SeenBounded(h, from, end, true);
    if from < end {
      WaitingOpensWithKey(h, from + 1, end);
      SeenBounded(h, from + 1, end, true);
      if !IsVideo(h[from]) {
        PrependAudio(h, from, Seen(h, from + 1, end, true));
      } else if IsKey(h[from]) {
        assert Seen(h, from, end, true)[0] == from;
      }
    }
  }

  lemma {:induction false} PrependAudio(h: seq<Published>, s: nat, seqs: seq<nat>)
    requires s < |h| && !IsVideo(h[s]) && OpensWithKey(h, seqs)
    ensures OpensWithKey(h, [s] + seqs)
  {
    var all := [s] + seqs;
    forall i | 0 <= i < |all| && IsVideo(h[all[i]]) && (forall j :: 0 <= j < i ==> !IsVideo(h[all[j]]))
      ensures IsKey(h[all[i]])
    {
      assert all[i] == seqs[i - 1];
      forall j | 0 <= j < i - 1
        ensures !IsVideo(h[seqs[j]])
      {
        assert all[j + 1] == seqs[j];
      }
    }
  }

  // ------------------------------------------------------------ whole runs

  /**
   A client: its cursor, where its present stretch began (at a subscribe or a resync) and whether it
   began holding video back, and the sequence numbers delivered in that stretch.
   */
  datatype Client = Client(cursor: Cursor, start: nat, waited: bool, got: seq<nat>)

  datatype World = World(ring: Ring, client: Option<Client>)

  datatype Event =
    | Publishes(sample: Sample)
    | VideoChanges(video: VideoFormat)
    | AudioChanges(audio: AudioFormat)
    | Stops
    | Subscribes
    | Fetches

  /** A stretch that starts at a position just taken. */
  function Fresh(c: Cursor): Client {
    Client(c, if c.next >= 0 then c.next else 0, c.wait, [])
  }

  function After(w: World, e: Event, l: Limits): World
    requires w.ring.first <= |w.ring.history|
  {
    var r := w.ring;
    match e
    case Publishes(s) => w.(ring := PublishTo(r, s, l))
    case VideoChanges(f) => w.(ring := VideoTo(r, f))
    case AudioChanges(f) => w.(ring := AudioTo(r, f))
    case Stops => w.(ring := Cleared(r))
    case Subscribes => (match SubscribeTo(r) case None => w case Some(c) => w.(client := Some(Fresh(c))))
    case Fetches =>
      if w.client.None? then w
      else
        var k := w.client.value;
        match FetchFrom(r, k.cursor)
        case (Samples(seqs), c) => w.(client := Some(k.(cursor := c, got := k.got + seqs)))
        case (Resync(seqs), c) => w.(client := Some(Fresh(Position(r)).(cursor := c, got := seqs)))
        case (_, c) => w
  }

  /** Video is published only after its format. */
  predicate Legal(w: World, e: Event) {
    e.Publishes? && e.sample.track == 0 ==> w.ring.video.Some?
  }

  /** The ring holds only samples of its epoch; no video was ever published before a video format. */
  ghost predicate RingInv(r: Ring) {
    r.first <= |r.history| <= r.first + CAPACITY
    && (forall i :: r.first <= i < |r.history| ==> r.history[i].epoch == r.epoch)
    && (r.video.None? ==> forall i :: 0 <= i < |r.history| ==> !IsVideo(r.history[i]))
  }

  ghost predicate AllAudio(h: seq<Published>, from: nat, end: int) {
    forall i :: from <= i < end && i < |h| ==> !IsVideo(h[i])
  }

  ghost predicate Opening(r: Ring, k: Client) {
    k.waited
    || (k.start < |r.history| && IsKey(r.history[k.start]))
    || (AllAudio(r.history, k.start, k.cursor.next) && (k.cursor.epoch == r.epoch ==> r.video.None?))
  }

  ghost predicate OfEpoch(h: seq<Published>, seqs: seq<nat>, epoch: nat) {
    forall i :: 0 <= i < |seqs| ==> seqs[i] < |h| && h[seqs[i]].epoch == epoch
  }

  /** The client has exactly what its stretch allows, all of its own epoch. */
  ghost predicate ClientInv(r: Ring, k: Client) {
    var h, c := r.history, k.cursor;
    && k.start <= c.next <= |h| && c.epoch <= r.epoch
    && k.got == Seen(h, k.start, c.next, k.waited)
    && c.wait == StillWaiting(h, k.start, c.next, k.waited)
    && OfEpoch(h, k.got, c.epoch)
    && Opening(r, k)
  }

  ghost predicate Inv(w: World) {
    RingInv(w.ring) && (w.client.Some? ==> ClientInv(w.ring, w.client.value))
  }

  lemma {:induction false} PublishKeepsRing(r: Ring, s: Sample, l: Limits)
    requires RingInv(r) && (s.track == 0 ==> r.video.Some?)
    ensures RingInv(PublishTo(r, s, l))
  {
    if s.data != [] {
      var h := r.history + [Published(s, r.epoch)];
      var from := if |r.history| - r.first >= CAPACITY then r.first + 1 else r.first;
      TrimmedIsLeast(h, from, l);
      hide Trimmed;
    }
  }

  /** Publishing leaves a client's stretch as it was. */
  lemma {:induction false} GrowthKeepsClient(r: Ring, q: Ring, more: seq<Published>, k: Client)
    requires ClientInv(r, k) && q.history == r.history + more && r.epoch <= q.epoch
    requires k.cursor.epoch == q.epoch ==> r.epoch == q.epoch && (r.video.None? ==> q.video.None?)
    ensures ClientInv(q, k)
  {
    SeenOfLonger(r.history, more, k.start, k.cursor.next, k.waited);
    WaitingOfLonger(r.history, more, k.start, k.cursor.next, k.waited);
    hide Seen, StillWaiting;
  }

  lemma {:induction false} NoVideoStillWaiting(h: seq<Published>, from: nat, wait: bool)
    requires from <= |h|
    ensures StillWaiting(h, from, from, wait) == wait && Seen(h, from, from, wait) == []
  {
  }

  lemma {:induction false} FreshIsGood(r: Ring)
    requires RingInv(r)
    ensures ClientInv(r, Fresh(Position(r)))
  {
    var c := Position(r);
    NoVideoStillWaiting(r.history, c.next, c.wait);
    hide Seen, StillWaiting;
  }

  /** A fetch that continues a stretch extends it to the end of the history. */
  lemma {:induction false} FetchContinues(r: Ring, k: Client)
    requires RingInv(r) && ClientInv(r, k) && k.cursor.epoch == r.epoch && r.first <= k.cursor.next
    ensures var h, n, c := r.history, |r.history|, k.cursor;
      ClientInv(r, k.(cursor := Cursor(n, c.epoch, StillWaiting(h, c.next, n, c.wait)),
        got := k.got + Seen(h, c.next, n, c.wait)))
  {
    var h, n, c := r.history, |r.history|, k.cursor;
    var at: nat := c.next;
    SeenSplit(h, k.start, at, n, k.waited);
    WindowOfEpoch(r, at, c.wait);
    hide Seen, StillWaiting;
    var more := Seen(h, at, n, c.wait);
    OfEpochAppend(h, k.got, more, c.epoch);
    hide OfEpoch;
  }

  lemma {:induction false} WindowOfEpoch(r: Ring, at: nat, wait: bool)
    requires RingInv(r) && r.first <= at
    ensures OfEpoch(r.history, Seen(r.history, at, |r.history|, wait), r.epoch)
  {
    SeenBounded(r.history, at, |r.history|, wait);
    hide Seen;
  }

  lemma {:induction false} OfEpochAppend(h: seq<Published>, a: seq<nat>, b: seq<nat>, epoch: nat)
    requires OfEpoch(h, a, epoch) && OfEpoch(h, b, epoch)
    ensures OfEpoch(h, a + b, epoch)
  {
  }

  lemma {:induction false} StepKeepsInv(w: World, e: Event, l: Limits)
    requires Inv(w) && Legal(w, e)
    ensures Inv(After(w, e, l))
  {
    var r := w.ring;
    hide Seen, StillWaiting, Trimmed, LastKey;
    match e {
      case Publishes(s) =>
        PublishKeepsRing(r, s, l);
        if w.client.Some? && s.data != [] {
          GrowthKeepsClient(r, PublishTo(r, s, l), [Published(s, r.epoch)], w.client.value);
        }
      case VideoChanges(f) =>
        assert r.history + [] == r.history;
        if w.client.Some? {
          GrowthKeepsClient(r, VideoTo(r, f), [], w.client.value);
        }
      case AudioChanges(f) =>
        assert r.history + [] == r.history;
        if w.client.Some? {
          GrowthKeepsClient(r, AudioTo(r, f), [], w.client.value);
        }
      case Stops =>
        assert r.history + [] == r.history;
        if w.client.Some? {
          GrowthKeepsClient(r, Cleared(r), [], w.client.value);
        }
      case Subscribes => FreshIsGood(r);
      case Fetches =>
        if w.client.Some? {
          FetchKeepsInv(r, w.client.value, l);
        }
    }
  }

  lemma {:induction false} FetchKeepsInv(r: Ring, k: Client, l: Limits)
    requires RingInv(r) && ClientInv(r, k)
    ensures Inv(After(World(r, Some(k)), Fetches, l))
  {
    if k.cursor.epoch == r.epoch && k.cursor.next < |r.history| {
      if k.cursor.next < r.first {
        var f := Fresh(Position(r));
        FreshIsGood(r);
        FetchContinues(r, f);
        hide ClientInv, Seen, StillWaiting;
        assert [] + Seen(r.history, f.cursor.next, |r.history|, f.cursor.wait)
          == Seen(r.history, f.cursor.next, |r.history|, f.cursor.wait);
      } else {
        FetchContinues(r, k);
        hide ClientInv, Seen, StillWaiting;
      }
    }
  }

  /** What a run's client does: a fetch gets what the ring answers, added to its stretch or starting a new one. */
  lemma {:induction false} ClientFetches(r: Ring, k: Client, l: Limits)
    requires RingInv(r)
    ensures var (f, c) := FetchFrom(r, k.cursor);
      var q := After(World(r, Some(k)), Fetches, l);
      q.ring == r && q.client.Some? && q.client.value.cursor == c
      && q.client.value.got == (match f
        case Samples(seqs) => k.got + seqs
        case Resync(seqs) => seqs
        case Nothing => k.got
        case FormatChanged => k.got)
      && (f.Samples? ==> q.client.value.start == k.start && q.client.value.waited == k.waited)
      && (f.Resync? && (r.video.Some? || r.audio.Some?) ==>
        SubscribeTo(r) == Some(Cursor(q.client.value.start, r.epoch, q.client.value.waited)))
  {
    hide LastKey, Seen, StillWaiting;
  }

  function RunAll(w: World, es: seq<Event>, l: Limits): World
    requires w.ring.first <= |w.ring.history|
    decreases |es|
  {
    if es == [] then w
    else
      FirstInBounds(w, es[0], l);
      RunAll(After(w, es[0], l), es[1..], l)
  }

  lemma {:induction false} FirstInBounds(w: World, e: Event, l: Limits)
    requires w.ring.first <= |w.ring.history|
    ensures After(w, e, l).ring.first <= |After(w, e, l).ring.history|
  {
    if e.Publishes? && e.sample.data != [] {
      var h := w.ring.history + [Published(e.sample, w.ring.epoch)];
      TrimmedIsLeast(h, if |w.ring.history| - w.ring.first >= CAPACITY then w.ring.first + 1 else w.ring.first, l);
    }
  }

  predicate LegalRun(w: World, es: seq<Event>, l: Limits)
    requires w.ring.first <= |w.ring.history|
    decreases |es|
  {
    es == [] || (Legal(w, es[0]) && (FirstInBounds(w, es[0], l); LegalRun(After(w, es[0], l), es[1..], l)))
  }

  lemma {:induction false} RunKeepsInv(w: World, es: seq<Event>, l: Limits)
    requires Inv(w) && LegalRun(w, es, l)
    ensures Inv(RunAll(w, es, l))
    decreases |es|
  {
    if es != [] {
      FirstInBounds(w, es[0], l);
      StepKeepsInv(w, es[0], l);
      hide After, Inv;
      RunKeepsInv(After(w, es[0], l), es[1..], l);
    }
  }

  lemma {:induction false} KeyOpens(h: seq<Published>, from: nat, end: nat)
    requires from < end <= |h| && IsKey(h[from])
    ensures OpensWithKey(h, Seen(h, from, end, false))
  {
    SeenBounded(h, from, end, false);
    assert Seen(h, from, end, false)[0] == from;
  }

  lemma {:induction false} AudioOpens(h: seq<Published>, from: nat, end: nat, wait: bool)
    requires end <= |h| && AllAudio(h, from, end)
    ensures OpensWithKey(h, Seen(h, from, end, wait))
  {
    SeenBounded(h, from, end, wait);
  }

  /**
   Over every run: what a client has received since its last subscribe or resync was all published in
   its cursor's epoch, opens (for video) with a keyframe, and, unless it had to wait for one, is the
   unbroken stretch of the history from where it began.
   */
  lemma {:induction false} LiveSafety(es: seq<Event>, l: Limits)
    requires LegalRun(World(EMPTY, None), es, l)
    ensures var w := RunAll(World(EMPTY, None), es, l);
      && (forall i :: w.ring.first <= i < |w.ring.history| ==> w.ring.history[i].epoch == w.ring.epoch)
      && (w.client.Some? ==>
        var k := w.client.value;
        && OfEpoch(w.ring.history, k.got, k.cursor.epoch)
        && OpensWithKey(w.ring.history, k.got)
        && (!k.waited ==> k.cursor.next >= k.start && k.got == Range(k.start, k.cursor.next)))
  {
    var w := RunAll(World(EMPTY, None), es, l);
    RunKeepsInv(World(EMPTY, None), es, l);
    hide RunAll, LegalRun, Seen;
    if w.client.Some? {
      var k, h := w.client.value, w.ring.history;
      var n: nat := k.cursor.next;
      SeenWithoutWait(h, k.start, n);
      NoVideoStillWaiting(h, k.start, k.waited);
      if k.waited {
        WaitingOpensWithKey(h, k.start, n);
      } else if k.start < n && IsKey(h[k.start]) {
        KeyOpens(h, k.start, n);
      } else {
        AudioOpens(h, k.start, n, k.waited);
      }
    }
  }

  // ------------------------------------------------------------ the slots

  /** Each sequence number of the last `CAPACITY` has its slot: filled while the ring holds it, empty otherwise. */
  ghost predicate Slots(slots: seq<Option<Sample>>, h: seq<Published>, first: nat) {
    |slots| == CAPACITY
    && forall s: int :: |h| - CAPACITY <= s < |h| ==> slots[s % CAPACITY] == SlotContent(h, first, s)
  }

  ghost function SlotContent(h: seq<Published>, first: nat, s: int): Option<Sample>
    requires s < |h|
  {
    if s >= first then Some(h[s].sample) else None
  }

  lemma {:induction false} SlotsDiffer(a: int, b: int)
    requires a < b < a + 8192
    ensures a % 8192 != b % 8192
  {
    assert b - a == 8192 * (b / 8192 - a / 8192) + (b % 8192 - a % 8192);
  }

  lemma {:induction false} SlotDropped(slots: seq<Option<Sample>>, h: seq<Published>, first: nat)
    requires Slots(slots, h, first) && |h| - CAPACITY <= first < |h|
    ensures Slots(slots[first % CAPACITY := None], h, first + 1)
  {
    var after := slots[first % CAPACITY := None];
    forall s: int | |h| - CAPACITY <= s < |h|
      ensures after[s % CAPACITY] == SlotContent(h, first + 1, s)
    {
      if s < first {
        SlotsDiffer(s, first);
      } else if s > first {
        SlotsDiffer(first, s);
      }
      assert slots[s % CAPACITY] == SlotContent(h, first, s);
    }
  }

  lemma {:induction false} SlotWritten(slots: seq<Option<Sample>>, h: seq<Published>, first: nat, p: Published)
    requires Slots(slots, h, first) && first <= |h| < first + CAPACITY
    ensures Slots(slots[|h| % CAPACITY := Some(p.sample)], h + [p], first)
  {
    var after, q := slots[|h| % CAPACITY := Some(p.sample)], h + [p];
    forall s: int | |q| - CAPACITY <= s < |q|
      ensures after[s % CAPACITY] == SlotContent(q, first, s)
    {
      if s < |h| {
        SlotsDiffer(s, |h|);
        assert slots[s % CAPACITY] == SlotContent(h, first, s);
      }
    }
  }

  lemma {:induction false} NoSlots(slots: seq<Option<Sample>>)
    requires |slots| == CAPACITY && forall i :: 0 <= i < CAPACITY ==> slots[i] == None
    ensures Slots(slots, [], 0)
  {
  }

  /** Every slot of the ring belongs to one of the last `CAPACITY` sequence numbers: nothing else is stored. */
  lemma {:induction false} EverySlotAccounted(slots: seq<Option<Sample>>, h: seq<Published>, first: nat, i: nat)
    requires Slots(slots, h, first) && i < CAPACITY
    ensures exists s: int :: |h| - CAPACITY <= s < |h| && s % CAPACITY == i && slots[i] == SlotContent(h, first, s)
  {
    var d := (|h| - 1 - i) % 8192;
    var s: int := |h| - 1 - d;
    assert s - i == 8192 * ((|h| - 1 - i) / 8192);
    assert s % CAPACITY == i;
    assert slots[s % CAPACITY] == SlotContent(h, first, s);
  }

  function SamplesAt(h: seq<Published>, seqs: seq<nat>): seq<Sample>
    requires forall i :: 0 <= i < |seqs| ==> seqs[i] < |h|
  {
    seq(|seqs|, i requires 0 <= i < |seqs| => h[seqs[i]].sample)
  }

  datatype Reply = ReplyNone | ReplySamples(out: seq<Sample>) | ReplyResync(out: seq<Sample>) | ReplyFormatChanged

  /** The samples a fetch of the ring `r` stands for. */
  ghost predicate Answers(reply: Reply, f: Fetched, h: seq<Published>) {
    match f
    case Nothing => reply == ReplyNone
    case FormatChanged => reply == ReplyFormatChanged
    case Samples(seqs) => Bounded(seqs, 0, |h|) && reply == ReplySamples(SamplesAt(h, seqs))
    case Resync(seqs) => Bounded(seqs, 0, |h|) && reply == ReplyResync(SamplesAt(h, seqs))
  }

  class LiveStream {
    const limits: Limits
    const items: array<Option<Sample>>
    var first: nat
    var next: nat
    var bytes: nat
    var epoch: nat
    var video: Option<VideoFormat>
    var audio: Option<AudioFormat>
    ghost var history: seq<Published>

    ghost predicate Valid()
      reads this, items
    {
      items.Length == CAPACITY && next == |history| && first <= next <= first + CAPACITY
      && bytes == Weight(history, first) && Slots(items[..], history, first)
    }

    ghost function Abs(): Ring
      reads this
    {
      Ring(history, first, epoch, video, audio)
    }

    constructor (bufferMs: int, maxBytes: nat)
      ensures Valid() && fresh(items) && Abs() == EMPTY
      ensures limits == Limits(if bufferMs <= 0 then 4000 else bufferMs, if maxBytes == 0 then 32 * 1024 * 1024
        else maxBytes)
    {
      limits := Limits(if bufferMs <= 0 then 4000 else bufferMs, if maxBytes == 0 then 32 * 1024 * 1024 else maxBytes);
      items := new Option<Sample>[CAPACITY](_ => None);
      first, next, bytes, epoch, video, audio := 0, 0, 0, 1, None, None;
      history := [];
      new;
      NoSlots(items[..]);
    }

    method DropOldest()
      requires Valid() && first < next
      modifies this`first, this`bytes, items
      ensures Valid() && first == old(first) + 1
    {
      SlotDropped(items[..], history, first);
      var i := first % CAPACITY;
      assert items[..][i] == SlotContent(history, first, first);
      bytes := bytes - |items[i].value.data|;
      ghost var before := items[..];
      items[i] := None;
      assert items[..] == before[i := None];
      first := first + 1;
    }

    method Clear()
      requires Valid()
      modifies this`first, this`bytes, items
      ensures Valid() && first == next
    {
      while first < next
        invariant Valid()
      {
        DropOldest();
      }
      bytes := 0;
    }

    method Trim()
      requires Valid()
      modifies this`first, this`bytes, items
      ensures Valid() && first == Trimmed(history, old(first), limits)
    {
      TrimmedIsLeast(history, first, limits);
      hide Slots, Weight;
      if first >= next {
        return;
      }
      var newest := Stamp(next - 1);
      while first < next
        invariant Valid() && Trimmed(history, first, limits) == Trimmed(history, old(first), limits)
      {
        var oldest := Stamp(first);
        if next - first > CAPACITY || bytes > limits.maxBytes || newest - oldest > limits.bufferMs {
          DropOldest();
        } else {
          break;
        }
      }
    }

    /** The arrival stamp of a sample the ring holds. */
    method Stamp(s: nat) returns (mono: int)
      requires Valid() && first <= s < next
      ensures mono == history[s].sample.mono
    {
      assert items[..][s % CAPACITY] == SlotContent(history, first, s);
      mono := items[s % CAPACITY].value.mono;
    }

    method Publish(s: Sample)
      requires Valid()
      modifies this, items
      ensures Valid() && Abs() == PublishTo(old(Abs()), s, limits)
    {
      if s.data == [] {
        return;
      }
      if next - first >= CAPACITY {
        DropOldest();
      }
      SlotWritten(items[..], history, first, Published(s, epoch));
      WeightAppend(history, Published(s, epoch), first);
      ghost var before := items[..];
      var i := next % CAPACITY;
      items[i] := Some(s);
      assert items[..] == before[i := Some(s)];
      bytes := bytes + |s.data|;
      next := next + 1;
      history := history + [Published(s, epoch)];
      hide Slots, Weight;
      Trim();
    }

    method PublishVideo(f: VideoFormat)
      requires Valid()
      modifies this, items
      ensures Valid() && Abs() == VideoTo(old(Abs()), f)
    {
      var changed := video.None? || video.value.codec != f.codec || video.value.width != f.width
        || video.value.height != f.height;
      video := Some(f);
      if changed {
        epoch := epoch + 1;
        Clear();
      }
    }

    method PublishAudio(f: AudioFormat)
      requires Valid()
      modifies this, items
      ensures Valid() && Abs() == AudioTo(old(Abs()), f)
    {
      var changed := audio.None? || audio.value.codec != f.codec || audio.value.rate != f.rate;
      audio := Some(f);
      if changed {
        epoch := epoch + 1;
        Clear();
      }
    }

    /** The camera went away: the formats stay, the media goes. */
    method NotifyStopped()
      requires Valid()
      modifies this`first, this`bytes, items
      ensures Valid() && Abs() == Cleared(old(Abs()))
    {
      Clear();
    }

    method LastKeyframe() returns (k: Option<nat>)
      requires Valid()
      ensures k == LastKey(history, first, next)
    {
      var s := next;
      while s > first
        invariant first <= s <= next && LastKey(history, first, s) == LastKey(history, first, next)
      {
        assert items[..][(s - 1) % CAPACITY] == SlotContent(history, first, s - 1);
        var it := items[(s - 1) % CAPACITY].value;
        if it.track == 0 && it.keyframe {
          return Some(s - 1);
        }
        s := s - 1;
      }
      k := None;
    }

    method Reposition() returns (c: Cursor)
      requires Valid()
      ensures c == Position(Abs())
    {
      var k := LastKeyframe();
      match k
      case Some(s) => c := Cursor(s, epoch, false);
      case None => c := Cursor(next, epoch, video.Some?);
    }

    method Subscribe() returns (c: Option<Cursor>)
      requires Valid()
      ensures c == SubscribeTo(Abs())
    {
      if video.None? && audio.None? {
        return None;
      }
      var p := Reposition();
      c := Some(p);
    }

    /** The samples a cursor in the ring may see, and whether it still waits for a keyframe. */
    method Collect(from: nat, wait: bool) returns (out: seq<Sample>, waiting: bool)
      requires Valid() && first <= from <= next
      ensures Bounded(Seen(history, from, next, wait), 0, |history|)
      ensures out == SamplesAt(history, Seen(history, from, next, wait))
      ensures waiting == StillWaiting(history, from, next, wait)
    {
      ghost var seqs := [];
      out, waiting := [], wait;
      var s := from;
      NoVideoStillWaiting(history, from, wait);
      while s < next
        invariant from <= s <= next && seqs == Seen(history, from, s, wait)
        invariant Bounded(seqs, 0, |history|) && out == SamplesAt(history, seqs)
        invariant waiting == StillWaiting(history, from, s, wait)
      {
        SeenSplit(history, from, s, s + 1, wait);
        SeenOne(history, s, waiting);
        hide Seen, StillWaiting;
        assert items[..][s % CAPACITY] == SlotContent(history, first, s);
        var it := items[s % CAPACITY].value;
        s := s + 1;
        if waiting && it.track == 0 {
          if !it.keyframe {
            assert seqs + [] == seqs;
            continue;
          }
          waiting := false;
        }
        seqs := seqs + [s - 1];
        out := out + [it];
      }
    }

    method Fetch(c: Cursor) returns (reply: Reply, after: Cursor)
      requires Valid()
      ensures Answers(reply, FetchFrom(Abs(), c).0, history)
      ensures after == FetchFrom(Abs(), c).1
    {
      if c.epoch != epoch {
        return ReplyFormatChanged, c;
      }
      if c.next >= next {
        return ReplyNone, c;
      }
      var resynced, at := c.next < first, c;
      if resynced {
        at := Reposition();
      }
      var out, waiting := Collect(at.next, at.wait);
      after := Cursor(next, at.epoch, waiting);
      reply := if resynced then ReplyResync(out) else ReplySamples(out);
    }
  }

  /** One more number seen, or held back. */
  lemma {:induction false} SeenOne(h: seq<Published>, s: nat, wait: bool)
    requires s < |h|
    ensures Seen(h, s, s + 1, wait) == if wait && IsVideo(h[s]) && !IsKey(h[s]) then [] else [s]
    ensures StillWaiting(h, s, s + 1, wait) == (wait && !IsKey(h[s]))
  {
    assert Seen(h, s + 1, s + 1, wait) == [] && Seen(h, s + 1, s + 1, false) == [];
  }
}
