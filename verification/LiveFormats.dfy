/**
 Formats and the live ring: what the announcements of a run say is in force, told without the ring's epochs, against
 the samples the ring holds, the samples a client gets, and the answer that a format changed.
 */
module LiveFormats {
  import opened Bytes
  import opened LiveRing

  const START: World := World(EMPTY, None)

  // ------------------------------------------------------------ what a run announces

  /** The video format announced last in the first `n` events. */
  function LastVideo(es: seq<Event>, n: nat): Option<VideoFormat>
    requires n <= |es|
  {
    if n == 0 then None
    else if es[n - 1].VideoChanges? then Some(es[n - 1].video)
    else LastVideo(es, n - 1)
  }

  function LastAudio(es: seq<Event>, n: nat): Option<AudioFormat>
    requires n <= |es|
  {
    if n == 0 then None
    else if es[n - 1].AudioChanges? then Some(es[n - 1].audio)
    else LastAudio(es, n - 1)
  }

  /** What a decoder has to know: the codec and size of the video, the codec and rate of the audio. */
  datatype Kind = Kind(video: Option<(nat, nat, nat)>, audio: Option<(nat, nat)>)

  function KindOf(video: Option<VideoFormat>, audio: Option<AudioFormat>): Kind {
    Kind(if video.Some? then Some((video.value.codec, video.value.width, video.value.height)) else None,
         if audio.Some? then Some((audio.value.codec, audio.value.rate)) else None)
  }

  function KindAt(es: seq<Event>, n: nat): Kind
    requires n <= |es|
  {
    KindOf(LastVideo(es, n), LastAudio(es, n))
  }

  /** The kinds in force when each sample with bytes was published. */
  function Stamps(es: seq<Event>, n: nat): seq<Kind>
    requires n <= |es|
  {
    if n == 0 then []
    else
      Stamps(es, n - 1)
      + (if es[n - 1].Publishes? && es[n - 1].sample.data != [] then [KindAt(es, n - 1)] else [])
  }

  /** Event `m` changes the kind in force. */
  predicate ChangesKind(es: seq<Event>, m: nat)
    requires m < |es|
  {
    KindAt(es, m + 1) != KindAt(es, m)
  }

  function Changes(es: seq<Event>, n: nat): nat
    requires n <= |es|
  {
    if n == 0 then 0 else Changes(es, n - 1) + if ChangesKind(es, n - 1) then 1 else 0
  }

  lemma {:induction false} ChangesBetween(es: seq<Event>, g: nat, n: nat)
    requires g <= n <= |es|
    ensures Changes(es, g) <= Changes(es, n)
    ensures Changes(es, g) != Changes(es, n) <==> exists m :: g <= m < n && ChangesKind(es, m)
    decreases n
  {
    hide ChangesKind;
    if g < n {
      ChangesBetween(es, g, n - 1);
    }
  }

  // ------------------------------------------------------------ the ring along a run

  function WorldAt(es: seq<Event>, n: nat, l: Limits): (w: World)
    requires n <= |es|
    ensures w.ring.first <= |w.ring.history|
  {
    if n == 0 then START
    else
      FirstInBounds(WorldAt(es, n - 1, l), es[n - 1], l);
      After(WorldAt(es, n - 1, l), es[n - 1], l)
  }

  /** A sample's epoch tells the kind it was published under. */
  ghost predicate EpochTells(r: Ring, stamps: seq<Kind>, kind: Kind, changes: nat) {
    r.epoch == 1 + changes && KindOf(r.video, r.audio) == kind && |stamps| == |r.history|
    && (forall i :: 0 <= i < |stamps| ==> r.history[i].epoch <= r.epoch)
    && (forall i :: 0 <= i < |stamps| && r.history[i].epoch == r.epoch ==> stamps[i] == kind)
    && (forall i :: r.first <= i < |stamps| ==> r.history[i].epoch == r.epoch)
    && (forall i, j :: 0 <= i < j < |stamps| && r.history[i].epoch == r.history[j].epoch ==> stamps[i] == stamps[j])
  }

  lemma {:induction false} PublishTells(r: Ring, stamps: seq<Kind>, kind: Kind, changes: nat, s: Sample, l: Limits)
    requires r.first <= |r.history| && EpochTells(r, stamps, kind, changes)
    ensures EpochTells(PublishTo(r, s, l), stamps + (if s.data != [] then [kind] else []), kind, changes)
  {
    hide Trimmed, Within, KindOf;
    if s.data == [] {
      assert stamps + [] == stamps;
    } else {
      var h := r.history + [Published(s, r.epoch)];
      TrimmedIsLeast(h, if |r.history| - r.first >= CAPACITY then r.first + 1 else r.first, l);
    }
  }

  lemma {:induction false} VideoTells(r: Ring, stamps: seq<Kind>, kind: Kind, changes: nat, f: VideoFormat)
    requires EpochTells(r, stamps, kind, changes)
    ensures var now := KindOf(Some(f), r.audio);
      EpochTells(VideoTo(r, f), stamps, now, changes + if now != kind then 1 else 0)
  {
  }

  lemma {:induction false} AudioTells(r: Ring, stamps: seq<Kind>, kind: Kind, changes: nat, f: AudioFormat)
    requires EpochTells(r, stamps, kind, changes)
    ensures var now := KindOf(r.video, Some(f));
      EpochTells(AudioTo(r, f), stamps, now, changes + if now != kind then 1 else 0)
  {
  }

  lemma {:induction false} EventTells(es: seq<Event>, n: nat, w: World, l: Limits)
    requires 0 < n <= |es| && w.ring.first <= |w.ring.history|
    requires w.ring.video == LastVideo(es, n - 1) && w.ring.audio == LastAudio(es, n - 1)
    requires EpochTells(w.ring, Stamps(es, n - 1), KindAt(es, n - 1), Changes(es, n - 1))
    ensures var r := After(w, es[n - 1], l).ring;
      r.video == LastVideo(es, n) && r.audio == LastAudio(es, n)
      && EpochTells(r, Stamps(es, n), KindAt(es, n), Changes(es, n))
  {
    hide EpochTells, KindOf;
    var r, stamps, kind, changes := w.ring, Stamps(es, n - 1), KindAt(es, n - 1), Changes(es, n - 1);
    assert stamps + [] == stamps;
    match es[n - 1]
    case Publishes(s) => PublishTells(r, stamps, kind, changes, s, l);
    case VideoChanges(f) =>
      hide VideoTo;
      VideoTells(r, stamps, kind, changes, f);
      VideoIs(r, f);
    case AudioChanges(f) =>
      hide AudioTo;
      AudioTells(r, stamps, kind, changes, f);
      AudioIs(r, f);
    case Stops => ClearedTells(r, stamps, kind, changes);
    case Subscribes =>
    case Fetches =>
  }

  lemma {:induction false} VideoIs(r: Ring, f: VideoFormat)
    ensures VideoTo(r, f).video == Some(f) && VideoTo(r, f).audio == r.audio
  {
  }

  lemma {:induction false} AudioIs(r: Ring, f: AudioFormat)
    ensures AudioTo(r, f).audio == Some(f) && AudioTo(r, f).video == r.video
  {
  }

  lemma {:induction false} ClearedTells(r: Ring, stamps: seq<Kind>, kind: Kind, changes: nat)
    requires EpochTells(r, stamps, kind, changes)
    ensures EpochTells(Cleared(r), stamps, kind, changes)
  {
  }

  lemma {:induction false} RunTells(es: seq<Event>, n: nat, l: Limits)
    requires n <= |es|
    ensures var r := WorldAt(es, n, l).ring;
      r.video == LastVideo(es, n) && r.audio == LastAudio(es, n)
      && EpochTells(r, Stamps(es, n), KindAt(es, n), Changes(es, n))
    decreases n
  {
    hide After, LastVideo, LastAudio, Stamps, KindAt, Changes, EpochTells;
    if n > 0 {
      RunTells(es, n - 1, l);
      EventTells(es, n, WorldAt(es, n - 1, l), l);
    } else {
      StartTells(es);
    }
  }

  lemma {:induction false} StartTells(es: seq<Event>)
    ensures LastVideo(es, 0) == None && LastAudio(es, 0) == None
    ensures EpochTells(EMPTY, Stamps(es, 0), KindAt(es, 0), Changes(es, 0))
  {
  }

  lemma {:induction false} RunIsWorldAt(es: seq<Event>, k: nat, l: Limits)
    requires k <= |es|
    ensures RunAll(WorldAt(es, k, l), es[k..], l) == WorldAt(es, |es|, l)
    decreases |es| - k
  {
    hide After;
    if k < |es| {
      assert es[k..][0] == es[k] && es[k..][1..] == es[k + 1..];
      RunIsWorldAt(es, k + 1, l);
    }
  }

  /**
   Over every run: each sample the ring holds was published under the kind in force now, and all a client got since
   its last subscribe or resync was published under one kind: the one in force now, unless its cursor is out of date.
   */
  lemma {:induction false} OneKind(es: seq<Event>, l: Limits)
    requires LegalRun(START, es, l)
    ensures var w, n := RunAll(START, es, l), |es|;
      var stamps := Stamps(es, n);
      && |stamps| == |w.ring.history|
      && (forall i :: w.ring.first <= i < |stamps| ==> stamps[i] == KindAt(es, n))
      && (w.client.Some? ==>
        var k := w.client.value;
        && (forall i :: 0 <= i < |k.got| ==> k.got[i] < |stamps|)
        && (forall i, j :: 0 <= i < j < |k.got| ==> stamps[k.got[i]] == stamps[k.got[j]])
        && (k.cursor.epoch == w.ring.epoch ==> forall i :: 0 <= i < |k.got| ==> stamps[k.got[i]] == KindAt(es, n)))
  {
    hide LegalRun, RunAll, Stamps, KindAt, Changes, WorldAt;
    assert es[0..] == es;
    assert WorldAt(es, 0, l) == START by { WorldAtStart(es, l); }
    RunIsWorldAt(es, 0, l);
    RunTells(es, |es|, l);
    LiveSafety(es, l);
    var w := RunAll(START, es, l);
    if w.client.Some? {
      OneEpochOneKind(w.ring, Stamps(es, |es|), KindAt(es, |es|), Changes(es, |es|), w.client.value);
    }
  }

  lemma {:induction false} WorldAtStart(es: seq<Event>, l: Limits)
    ensures WorldAt(es, 0, l) == START
  {
  }

  lemma {:induction false} OneEpochOneKind(r: Ring, stamps: seq<Kind>, kind: Kind, changes: nat, k: Client)
    requires EpochTells(r, stamps, kind, changes) && OfEpoch(r.history, k.got, k.cursor.epoch)
    ensures forall i :: 0 <= i < |k.got| ==> k.got[i] < |stamps|
    ensures forall i, j :: 0 <= i < j < |k.got| ==> stamps[k.got[i]] == stamps[k.got[j]]
    ensures k.cursor.epoch == r.epoch ==> forall i :: 0 <= i < |k.got| ==> stamps[k.got[i]] == kind
  {
    hide KindOf;
    forall i, j | 0 <= i < j < |k.got|
      ensures stamps[k.got[i]] == stamps[k.got[j]]
    {
      var a, b := k.got[i], k.got[j];
      assert r.history[a].epoch == r.history[b].epoch;
    }
  }

  /** The ring gave the cursor: to a subscriber, or with the answer to a fetch that told of no change. */
  ghost predicate Gives(r: Ring, c: Cursor)
    requires r.first <= |r.history|
  {
    SubscribeTo(r) == Some(c)
    || exists c0: Cursor :: FetchFrom(r, c0).1 == c && FetchFrom(r, c0).0 != FormatChanged
  }

  /**
   Over every run: a fetch is told that the format changed exactly if the codec or size of the video, or the codec
   or rate of the audio, was changed since the ring gave the cursor, even if it was changed back.
   */
  lemma {:induction false} ChangeTold(es: seq<Event>, g: nat, n: nat, c: Cursor, l: Limits)
    requires g <= n <= |es| && Gives(WorldAt(es, g, l).ring, c)
    ensures FetchFrom(WorldAt(es, n, l).ring, c).0 == FormatChanged
      <==> exists m :: g <= m < n && ChangesKind(es, m)
  {
    hide WorldAt, Stamps, KindAt, Changes, ChangesKind, LastKey, Seen, StillWaiting, KindOf;
    RunTells(es, g, l);
    RunTells(es, n, l);
    ChangesBetween(es, g, n);
    GivenNow(WorldAt(es, g, l).ring, c);
  }

  lemma {:induction false} GivenNow(r: Ring, c: Cursor)
    requires r.first <= |r.history| && Gives(r, c)
    ensures c.epoch == r.epoch
  {
    hide LastKey, Seen, StillWaiting;
  }

  /**
   Over every run: a subscriber gets a cursor exactly if a format was ever announced. Its first fetch begins with the
   latest video keyframe held; with none held, it lets no video through before one is published, if video is announced.
   */
  lemma {:induction false} SubscribesOnceKnown(es: seq<Event>, n: nat, l: Limits)
    requires n <= |es|
    ensures var r := WorldAt(es, n, l).ring;
      (SubscribeTo(r).Some? <==> exists m :: 0 <= m < n && (es[m].VideoChanges? || es[m].AudioChanges?))
      && (SubscribeTo(r).Some? ==>
        var c := SubscribeTo(r).value;
        if exists k :: r.first <= k < |r.history| && IsVideo(r.history[k]) && r.history[k].sample.keyframe then
          r.first <= c.next < |r.history| && IsVideo(r.history[c.next]) && r.history[c.next].sample.keyframe
          && forall k :: c.next < k < |r.history| && IsVideo(r.history[k]) ==> !r.history[k].sample.keyframe
        else
          c.next == |r.history|
          && (c.wait <==> exists m :: 0 <= m < n && es[m].VideoChanges?))
  {
    hide WorldAt, After;
    RunTells(es, n, l);
    Announced(es, n);
    hide LastVideo, LastAudio, EpochTells;
  }

  lemma {:induction false} Announced(es: seq<Event>, n: nat)
    requires n <= |es|
    ensures LastVideo(es, n).Some? <==> exists m :: 0 <= m < n && es[m].VideoChanges?
    ensures LastAudio(es, n).Some? <==> exists m :: 0 <= m < n && es[m].AudioChanges?
    decreases n
  {
    if n > 0 {
      Announced(es, n - 1);
    }
  }

  /** A fetch in the present epoch that answers anything leaves the cursor at the end, and nothing is answered there. */
  lemma {:induction false} FetchReachesEnd(r: Ring, c: Cursor)
    requires r.first <= |r.history| && c.epoch == r.epoch && c.next <= |r.history|
    ensures var (f, c1) := FetchFrom(r, c);
      c1.next == |r.history| && c1.epoch == c.epoch && (f == Nothing <==> c.next == c1.next)
      && FetchFrom(r, c1) == (Nothing, c1)
  {
    hide LastKey, Seen, StillWaiting;
  }

  /** Announcing the codec, size and rate in force again leaves the samples held and every cursor as they were. */
  lemma {:induction false} AnnouncedAgain(es: seq<Event>, m: nat, c: Cursor, l: Limits)
    requires m < |es| && (es[m].VideoChanges? || es[m].AudioChanges?) && !ChangesKind(es, m)
    ensures var r, q := WorldAt(es, m, l).ring, WorldAt(es, m + 1, l).ring;
      q.history == r.history && q.first == r.first && q.epoch == r.epoch && FetchFrom(q, c) == FetchFrom(r, c)
  {
    hide LastKey, Seen, StillWaiting;
    RunTells(es, m, l);
  }
}
