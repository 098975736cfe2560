/**
 Whole walks through a camera's recordings: a client that asks again and again with the text of the
 last cursor, while the library grows between and during its requests.
 */
module MediaRuns {
  import opened Bytes
  import opened MediaCursor
  import opened MediaDelivery

  /** One request of the walk: what it asks for and what the moments of serving it find. */
  datatype Attempt = Attempt(camera: string, blocks: nat, thin: bool, s: Snap, disk: Disk, s2: Snap, disk2: Disk)

  /** The reply to a client that holds the cursor `text`. */
  function Ask(text: string, maxBlocks: nat, a: Attempt): Reply {
    match Decode(text)
    case None => Fail(400)
    case Some(c) => Fetch(Request(a.camera, None, Some(c), None, None, a.blocks, a.thin), maxBlocks, a.s, a.disk, a.s2,
      a.disk2)
  }

  /** The cursor the client holds afterwards. */
  function Kept(text: string, r: Reply): string {
    match r
    case Fail(_) => text
    case Empty(_, c) => Encode(c)
    case Part(_, _, _, next, _, _, _) => if next.Some? then Encode(next.value) else ""
  }

  /** All the blocks a client receives. */
  ghost function Walk(text: string, maxBlocks: nat, run: seq<Attempt>): seq<Block>
    decreases |run|
  {
    if run == [] then []
    else
      var r := Ask(text, maxBlocks, run[0]);
      Body(run[0].s2.list, r) + Walk(Kept(text, r), maxBlocks, run[1..])
  }

  ghost function LastText(text: string, maxBlocks: nat, run: seq<Attempt>): string
    decreases |run|
  {
    if run == [] then text else LastText(Kept(text, Ask(text, maxBlocks, run[0])), maxBlocks, run[1..])
  }

  /** The library never shrinks from one moment of the run to the next. */
  ghost predicate Timeline(lib: Library, run: seq<Attempt>)
    decreases |run|
  {
    run == []
    || (Passing(lib, run[0].s) && Passing(run[0].s.list, run[0].s2) && Timeline(run[0].s2.list, run[1..]))
  }

  ghost function LastLibrary(lib: Library, run: seq<Attempt>): Library {
    if run == [] then lib else run[|run| - 1].s2.list
  }

  /** No block was appended, after an index was read, to a file that is then listed with a successor. */
  predicate Unraced(s: Snap) {
    forall i :: 0 <= i < |s.index| && i + 1 < |s.list| ==> |s.index[i].blocks| == |s.list[i].blocks|
  }

  /** The client's text is a cursor that stands at place `p`. */
  ghost predicate Holds(lib: Library, text: string, p: nat) {
    exists c, i :: HoldsAt(lib, text, p, c, i)
  }

  ghost predicate HoldsAt(lib: Library, text: string, p: nat, c: Cursor, i: nat) {
    At(lib, c, i) && Place(lib, c, i) == p && text == Encode(c)
  }

  // ------------------------------------------------------------ one step

  /** Every cursor the server hands out survives its text. */
  lemma {:induction false} CursorSurvives(lib: Library, c: Cursor, i: nat)
    requires Valid(lib) && At(lib, c, i)
    ensures Encode(c) != "" && Decode(Encode(c)) == Some(c)
  {
    assert SafeName(lib[i].name);
    assert !c.tail ==> Instant(lib[i].blocks[c.block].start);
    assert IsI64(c.nextMs) && IsI64(c.block);
    hide Decode, Encode, Lower;
    CursorRoundTrip(c);
    InstantRead(c);
  }

  lemma {:induction false} PlaceInside(lib: Library, c: Cursor, i: nat)
    requires At(lib, c, i)
    ensures Place(lib, c, i) <= |Flat(lib)|
  {
    OffsetsOrdered(lib, i + 1, |lib|);
    FlatLength(lib);
  }

  lemma {:induction false} BodyLater(a: Library, b: Library, r: Reply)
    requires Grows(a, b) && Valid(a) && Valid(b) && Begins(a, r) >= 0 && Body(a, r) != []
    ensures Begins(b, r) == Begins(a, r) && Body(b, r) == Body(a, r)
  {
    var i := IndexFrom(a, r.file, 0).value;
    assert FileGrows(a[i], b[i], i + 1 < |a|);
    OffsetStable(a, b, i);
    hide Valid, Grows, Offset, NextFile, OpenByName, IndexFrom;
    FoundByName(b, i);
  }

  lemma {:induction false} SliceOfPrefix<T>(x: seq<T>, y: seq<T>, p: nat, n: nat)
    requires x <= y && p + n <= |x|
    ensures y[p..p + n] == x[p..p + n]
  {
  }

  /** What a reply shows stays true as the library grows. */
  lemma {:induction false} ContinuesLater(a: Library, b: Library, r: Reply, p: nat)
    requires Grows(a, b) && Valid(a) && Valid(b) && Continues(a, r, p)
    ensures p + r.count <= |Flat(b)| && Begins(b, r) == p && Body(b, r) == Flat(b)[p..p + r.count]
    ensures r.next.Some? ==> Stands(b, r.next, p + r.count)
  {
    hide Flat, Valid, Stands, Body, Begins, Grows;
    FlatGrows(a, b);
    SliceOfPrefix(Flat(a), Flat(b), p, r.count);
    BodyLater(a, b, r);
    if r.next.Some? {
      StandsLater(a, b, r.next.value, p + r.count);
    }
  }

  lemma {:induction false} StandsLater(a: Library, b: Library, c: Cursor, p: nat)
    requires Grows(a, b) && Stands(a, Some(c), p)
    ensures Stands(b, Some(c), p)
  {
    hide Grows, At, Place;
    var i :| At(a, c, i) && Place(a, c, i) == p;
    AtStable(a, b, c, i);
  }

  /** A reply moves the client from place `p`: it delivers from `q` on and leaves it right after. */
  ghost predicate Moves(lib: Library, text: string, r: Reply, p: nat, q: nat) {
    if r.Part? then
      r.count > 0 && q + r.count <= |Flat(lib)| && Begins(lib, r) == q && Body(lib, r) == Flat(lib)[q..q + r.count]
      && (Kept(text, r) != "" ==> Holds(lib, Kept(text, r), q + r.count))
    else Body(lib, r) == [] && Kept(text, r) == text && Holds(lib, text, p)
  }

  lemma {:induction false} PartMoves(a: Library, b: Library, text: string, r: Reply, p: nat, q: nat)
    requires Grows(a, b) && Valid(a) && Valid(b) && Continues(a, r, q)
    ensures Moves(b, text, r, p, q)
  {
    hide Grows, Valid, Flat, Stands, Begins, Body, Encode;
    ContinuesLater(a, b, r, q);
    if r.next.Some? {
      StandsIsHolds(b, r.next.value, q + r.count);
    }
  }

  lemma {:induction false} OtherMoves(a: Library, b: Library, text: string, r: Reply, p: nat, q: nat, c: Cursor, i: nat)
    requires Grows(a, b) && HoldsAt(a, text, p, c, i) && (r.Fail? || (r.Empty? && r.cursor == c))
    ensures Moves(b, text, r, p, q)
  {
    hide Grows, At, Place, Encode;
    AtStable(a, b, c, i);
    assert HoldsAt(b, text, p, c, i);
  }

  /** One attempt of a run: the client moves on by what it receives, and by what it misses. */
  lemma {:induction false} AskFollows(lib: Library, text: string, p: nat, c: Cursor, i: nat, maxBlocks: nat, a: Attempt)
    requires Valid(lib) && Passing(lib, a.s) && Passing(a.s.list, a.s2) && HoldsAt(lib, text, p, c, i)
    ensures i < |a.s.index| && i < |a.s.list| && Missed(a.s, c, i) >= 0
    ensures Moves(a.s2.list, text, Ask(text, maxBlocks, a), p, p + Missed(a.s, c, i))
  {
    hide Fetch, Passing, Grows, Valid, At, Place, Decode, Encode, Continues, Missed, Moves;
    AttemptGrows(lib, a);
    CursorSurvives(lib, c, i);
    FetchFollows(lib, Request(a.camera, None, Some(c), None, None, a.blocks, a.thin), i, maxBlocks, a.s, a.disk, a.s2,
      a.disk2);
    MissedNotNegative(lib, a.s, c, i);
    var r, q := Ask(text, maxBlocks, a), p + Missed(a.s, c, i);
    if Continues(Shown(a.s, a.s2, c, i), r, q) {
      PartMoves(Shown(a.s, a.s2, c, i), a.s2.list, text, r, p, q);
    } else {
      OtherMoves(lib, a.s2.list, text, r, p, q, c, i);
    }
  }

  lemma {:induction false} StandsIsHolds(lib: Library, c: Cursor, p: nat)
    requires Stands(lib, Some(c), p)
    ensures Holds(lib, Encode(c), p)
  {
    hide At, Place;
    var i :| At(lib, c, i) && Place(lib, c, i) == p;
    assert HoldsAt(lib, Encode(c), p, c, i);
  }

  lemma {:induction false} MissedNotNegative(lib: Library, s: Snap, c: Cursor, i: nat)
    requires Passing(lib, s) && At(lib, c, i) && i < |s.index| && i < |s.list|
    ensures Missed(s, c, i) >= 0
  {
    StandsThroughout(lib, c, i, s);
    FileThroughout(lib, s, i);
  }

  lemma {:induction false} AttemptGrows(lib: Library, a: Attempt)
    requires Passing(lib, a.s) && Passing(a.s.list, a.s2)
    ensures Grows(lib, a.s2.list) && Grows(a.s.list, a.s2.list) && Grows(a.s2.list, a.s2.list)
    ensures Valid(a.s.list) && Valid(a.s2.list)
  {
    hide Grows;
    GrowsTransitive(lib, a.s.info, a.s.index);
    GrowsTransitive(lib, a.s.index, a.s.list);
    GrowsTransitive(a.s.list, a.s2.info, a.s2.index);
    GrowsTransitive(a.s.list, a.s2.index, a.s2.list);
    GrowsTransitive(lib, a.s.list, a.s2.list);
    GrowsReflexive(a.s2.list);
  }

  // ------------------------------------------------------------ whole runs

  /** Nothing is missed when no file grows between its reading and the listing that shows a successor. */
  lemma {:induction false} UnracedMissesNothing(lib: Library, s: Snap, c: Cursor, i: nat)
    requires Passing(lib, s) && At(lib, c, i) && i < |s.index| && i < |s.list| && Unraced(s)
    ensures Past(s, c, i) && i + 1 < |s.list| ==> Missed(s, c, i) == 0
    ensures !Past(s, c, i) ==> Missed(s, c, i) == 0
  {
  }

  /** Without a successor, a cursor past its file gets no part, so that nothing is missed for good. */
  lemma {:induction false} LastFileWaits(lib: Library, text: string, p: nat, c: Cursor, i: nat, maxBlocks: nat,
      a: Attempt)
    requires Valid(lib) && Passing(lib, a.s) && Passing(a.s.list, a.s2) && HoldsAt(lib, text, p, c, i)
    requires i < |a.s.index| && Past(a.s, c, i) && i + 1 >= |a.s.list|
    ensures !Ask(text, maxBlocks, a).Part?
  {
    hide Fetch, Passing, Grows, Valid, At, Place, Decode, Encode;
    CursorSurvives(lib, c, i);
    FetchNext(lib, Request(a.camera, None, Some(c), None, None, a.blocks, a.thin), i, maxBlocks, a.s, a.disk, a.s2,
      a.disk2);
  }

  lemma {:induction false} AskUnraced(lib: Library, text: string, p: nat, c: Cursor, i: nat, maxBlocks: nat, a: Attempt)
    requires Valid(lib) && Passing(lib, a.s) && Passing(a.s.list, a.s2) && HoldsAt(lib, text, p, c, i) && Unraced(a.s)
    ensures Moves(a.s2.list, text, Ask(text, maxBlocks, a), p, p)
  {
    hide Fetch, Passing, Grows, Valid, At, Place, Decode, Encode, Missed, Ask, Body, Begins, Flat, Holds, Unraced;
    AskFollows(lib, text, p, c, i, maxBlocks, a);
    UnracedMissesNothing(lib, a.s, c, i);
    if Past(a.s, c, i) && i + 1 >= |a.s.list| {
      LastFileWaits(lib, text, p, c, i, maxBlocks, a);
    }
  }

  lemma {:induction false} WalkHead(text: string, maxBlocks: nat, run: seq<Attempt>)
    requires run != []
    ensures var r := Ask(text, maxBlocks, run[0]);
      Walk(text, maxBlocks, run) == Body(run[0].s2.list, r) + Walk(Kept(text, r), maxBlocks, run[1..])
      && LastText(text, maxBlocks, run) == LastText(Kept(text, r), maxBlocks, run[1..])
  {
  }

  lemma {:induction false} WalkEnded(maxBlocks: nat, run: seq<Attempt>)
    ensures Walk("", maxBlocks, run) == [] && LastText("", maxBlocks, run) == ""
    decreases |run|
  {
    hide Fetch;
    if run != [] {
      WalkEnded(maxBlocks, run[1..]);
    }
  }

  lemma {:induction false} LastLibraryGrows(lib: Library, run: seq<Attempt>)
    requires Valid(lib) && Timeline(lib, run)
    ensures Grows(lib, LastLibrary(lib, run)) && Valid(LastLibrary(lib, run))
    ensures run != [] ==> LastLibrary(lib, run) == LastLibrary(run[0].s2.list, run[1..])
    decreases |run|
  {
    hide Grows, Passing, Valid;
    if run == [] {
      GrowsReflexive(lib);
    } else {
      AttemptGrows(lib, run[0]);
      LastLibraryGrows(run[0].s2.list, run[1..]);
      GrowsTransitive(lib, run[0].s2.list, LastLibrary(lib, run));
    }
  }

  lemma {:induction false} HeldInside(lib: Library, text: string, p: nat)
    requires Holds(lib, text, p)
    ensures p <= |Flat(lib)|
  {
    hide At, Place, Flat;
    var c, i :| HoldsAt(lib, text, p, c, i);
    PlaceInside(lib, c, i);
  }

  lemma {:induction false} Joined(flat: seq<Block>, later: seq<Block>, body: seq<Block>, p: nat, m: nat, q: nat)
    requires flat <= later && p <= m <= |flat| && m <= q <= |later| && body == flat[p..m]
    ensures body + later[m..q] == later[p..q]
  {
  }

  /**
   Over every run, whatever appends, closes and new files come between and during the requests and
   whichever requests fail: what a client receives is one contiguous stretch of library order from the
   place of its first cursor on. No block twice, none left out, and its last cursor stands at the end.
   */
  lemma {:induction false} RunIsContiguous(lib: Library, text: string, p: nat, maxBlocks: nat,
      run: seq<Attempt>) returns (q: nat)
    requires Valid(lib) && Timeline(lib, run) && Holds(lib, text, p)
    requires forall k :: 0 <= k < |run| ==> Unraced(run[k].s)
    ensures p <= q <= |Flat(LastLibrary(lib, run))|
    ensures Walk(text, maxBlocks, run) == Flat(LastLibrary(lib, run))[p..q]
    ensures LastText(text, maxBlocks, run) != "" ==> Holds(LastLibrary(lib, run), LastText(text, maxBlocks, run), q)
    decreases |run|
  {
    hide Valid, Grows, Passing, At, Place, Ask, Body, Begins, Flat, Unraced, Walk, LastText, Kept, HoldsAt;
    LastLibraryGrows(lib, run);
    if run == [] {
      assert Walk(text, maxBlocks, run) == [] && LastText(text, maxBlocks, run)
        == text by { WalkEmpty(text, maxBlocks, run); }
      HeldInside(lib, text, p);
      return p;
    }
    var c, i :| HoldsAt(lib, text, p, c, i);
    var a, r, lib2, rest := run[0], Ask(text, maxBlocks, run[0]), run[0].s2.list, run[1..];
    AskUnraced(lib, text, p, c, i, maxBlocks, a) by { assert Unraced(run[0].s); }
    AttemptGrows(lib, a);
    WalkHead(text, maxBlocks, run);
    var flat, end := Flat(lib2), Flat(LastLibrary(lib, run));
    assert flat <= end by { LastLibraryGrows(lib2, rest); FlatGrows(lib2, LastLibrary(lib, run)); }
    var m := if r.Part? then p + r.count else p;
    assert Body(lib2, r) == flat[p..m] by { if !r.Part? { HeldInside(lib2, text, p); } }
    if Kept(text, r) == "" {
      q := m;
      WalkEnded(maxBlocks, rest);
    } else {
      q := RunIsContiguous(lib2, Kept(text, r), m, maxBlocks, rest);
    }
    Joined(flat, end, Body(lib2, r), p, m, q);
  }

  lemma {:induction false} WalkEmpty(text: string, maxBlocks: nat, run: seq<Attempt>)
    requires run == []
    ensures Walk(text, maxBlocks, run) == [] && LastText(text, maxBlocks, run) == text
  {
  }

  /** Every part of a run begins at or after the end of the one before, from place `p` on. */
  ghost predicate Onwards(p: nat, text: string, maxBlocks: nat, run: seq<Attempt>)
    decreases |run|
  {
    run == [] ||
    var lib, r := run[0].s2.list, Ask(text, maxBlocks, run[0]);
    if !r.Part? then Onwards(p, Kept(text, r), maxBlocks, run[1..])
    else
      p <= Begins(lib, r) && Begins(lib, r) + r.count <= |Flat(lib)|
      && Body(lib, r) == Flat(lib)[Begins(lib, r)..Begins(lib, r) + r.count]
      && Onwards(Begins(lib, r) + r.count, Kept(text, r), maxBlocks, run[1..])
  }

  lemma {:induction false} OnwardsEnded(p: nat, maxBlocks: nat, run: seq<Attempt>)
    ensures Onwards(p, "", maxBlocks, run)
    decreases |run|
  {
    hide Fetch, Begins, Body, Flat;
    if run != [] {
      OnwardsEnded(p, maxBlocks, run[1..]);
    }
  }

  /** Even when files do grow in between, no block is ever delivered twice or out of order. */
  lemma {:induction false} RunNeverRepeats(lib: Library, text: string, p: nat, maxBlocks: nat, run: seq<Attempt>)
    requires Valid(lib) && Timeline(lib, run) && Holds(lib, text, p)
    ensures Onwards(p, text, maxBlocks, run)
    decreases |run|
  {
    hide Valid, Grows, Passing, At, Place, Ask, Body, Begins, Flat, Missed, Kept, HoldsAt;
    if run == [] {
      return;
    }
    var c, i :| HoldsAt(lib, text, p, c, i);
    var r, lib2 := Ask(text, maxBlocks, run[0]), run[0].s2.list;
    AskFollows(lib, text, p, c, i, maxBlocks, run[0]);
    AttemptGrows(lib, run[0]);
    var m := if r.Part? then p + Missed(run[0].s, c, i) + r.count else p;
    if Kept(text, r) == "" {
      OnwardsEnded(m, maxBlocks, run[1..]);
    } else {
      RunNeverRepeats(lib2, Kept(text, r), m, maxBlocks, run[1..]);
    }
  }

  // ------------------------------------------------------------ a library at rest

  /** Nothing changes during the attempt and every block can be read. */
  ghost predicate AtRest(lib: Library, a: Attempt) {
    a.s == Snap(lib, lib, lib) && a.s2 == a.s && Readable(lib, a.disk) && Readable(lib, a.disk2)
  }

  ghost predicate Readable(lib: Library, disk: Disk) {
    disk.status == 200 && disk.bodyOk && forall i :: 0 <= i < |lib| ==> |lib[i].blocks| <= disk.avail
  }

  lemma {:induction false} RestPasses(lib: Library, a: Attempt)
    requires Valid(lib) && AtRest(lib, a)
    ensures Passing(lib, a.s) && Passing(lib, a.s2) && Unraced(a.s) && Timeline(lib, [a])
  {
    GrowsReflexive(lib);
  }

  lemma {:induction false} HereIsPart(lib: Library, rq: Request, i: nat, maxBlocks: nat, s: Snap, disk: Disk, s2: Snap,
      disk2: Disk)
    requires rq.file.None? && rq.cursor.Some? && Passing(lib, s) && At(lib, rq.cursor.value, i) && i < |s.index|
      && !Past(s, rq.cursor.value, i)
    requires Readable(s.index, disk)
    ensures Fetch(rq, maxBlocks, s, disk, s2, disk2).Part?
  {
    hide Fetch, Deliver, Passing, At;
    FetchHere(lib, rq, i, maxBlocks, s, disk, s2, disk2);
    DeliverShape(rq, maxBlocks, s, s.info[i], s.index[i].blocks, rq.cursor.value.block, disk);
  }

  lemma {:induction false} PlaceAtEnd(lib: Library, c: Cursor, i: nat)
    requires Valid(lib) && At(lib, c, i) && Place(lib, c, i) == |Flat(lib)|
    ensures i + 1 == |lib| && c.tail && c.block == |lib[i].blocks|
  {
    FlatLength(lib);
    OffsetsOrdered(lib, i + 1, |lib|);
    if i + 1 < |lib| {
      NotEmpty(lib, i + 1);
      OffsetsOrdered(lib, i + 2, |lib|);
    }
  }

  lemma {:induction false} PlaceBeforeEnd(lib: Library, c: Cursor, i: nat)
    requires At(lib, c, i) && Place(lib, c, i) < |Flat(lib)| && c.tail && c.block == |lib[i].blocks|
    ensures i + 1 < |lib|
  {
    FlatLength(lib);
  }

  /** While anything is left, a request brings some of it. */
  lemma {:induction false} RestBrings(lib: Library, text: string, p: nat, c: Cursor, i: nat, maxBlocks: nat, a: Attempt)
    requires Valid(lib) && AtRest(lib, a) && HoldsAt(lib, text, p, c, i) && p < |Flat(lib)|
    ensures Ask(text, maxBlocks, a).Part?
  {
    hide Fetch, Passing, Decode, Encode, Valid, Grows, Flat, Place, Offset;
    RestPasses(lib, a);
    CursorSurvives(lib, c, i);
    var rq := Request(a.camera, None, Some(c), None, None, a.blocks, a.thin);
    if Past(a.s, c, i) {
      FetchNext(lib, rq, i, maxBlocks, a.s, a.disk, a.s2, a.disk2);
      PlaceBeforeEnd(lib, c, i);
      var next := rq.(cursor := Some(Opening(lib[i + 1])));
      OpeningStands(lib, i + 1);
      HereIsPart(lib, next, i + 1, maxBlocks, a.s2, a.disk2, a.s2, a.disk2);
    } else {
      HereIsPart(lib, rq, i, maxBlocks, a.s, a.disk, a.s2, a.disk2);
    }
  }

  /** After the last block, requests bring nothing and say whether more may come. */
  lemma {:induction false} RestAtEnd(lib: Library, text: string, p: nat, c: Cursor, i: nat, maxBlocks: nat, a: Attempt)
    requires Valid(lib) && AtRest(lib, a) && HoldsAt(lib, text, p, c, i) && p == |Flat(lib)|
    ensures lib != []
    ensures var r := Ask(text, maxBlocks, a); r == Empty(!lib[|lib| - 1].closed, c) && Kept(text, r) == text
  {
    hide Fetch, Passing, Decode, Encode, Valid, Grows, Flat, Place, Offset;
    RestPasses(lib, a);
    CursorSurvives(lib, c, i);
    PlaceAtEnd(lib, c, i);
    FetchNext(lib, Request(a.camera, None, Some(c), None, None, a.blocks, a.thin), i, maxBlocks, a.s, a.disk, a.s2,
      a.disk2);
  }

  lemma {:induction false} RestReaches(lib: Library, text: string, p: nat, maxBlocks: nat,
      run: seq<Attempt>) returns (q: nat)
    requires Valid(lib) && Holds(lib, text, p) && p <= |Flat(lib)|
    requires forall k :: 0 <= k < |run| ==> AtRest(lib, run[k])
    ensures q == |Flat(lib)| || q - p >= |run|
    ensures p <= q <= |Flat(lib)| && Walk(text, maxBlocks, run) == Flat(lib)[p..q]
    decreases |run|
  {
    hide Valid, Grows, Passing, At, Place, Ask, Body, Begins, Flat, Unraced, Walk, LastText, Kept, HoldsAt, AtRest;
    if run == [] {
      WalkEmpty(text, maxBlocks, run);
      return p;
    }
    var c, i :| HoldsAt(lib, text, p, c, i);
    var a, r, rest := run[0], Ask(text, maxBlocks, run[0]), run[1..];
    assert AtRest(lib, a) && a.s.list == lib && a.s2.list == lib by { RestMoments(lib, a); }
    RestPasses(lib, a);
    AskUnraced(lib, text, p, c, i, maxBlocks, a);
    WalkHead(text, maxBlocks, run);
    if p < |Flat(lib)| {
      RestBrings(lib, text, p, c, i, maxBlocks, a);
    }
    var m := if r.Part? then p + r.count else p;
    if Kept(text, r) == "" {
      RestEnds(lib, text, p, c, i, maxBlocks, a);
      WalkEnded(maxBlocks, rest);
      q := m;
    } else {
      q := RestReaches(lib, Kept(text, r), m, maxBlocks, rest);
    }
    Joined(Flat(lib), Flat(lib), Body(lib, r), p, m, q);
  }

  /** The client is left without a cursor only when it has everything and the last file is closed. */
  lemma {:induction false} RestEnds(lib: Library, text: string, p: nat, c: Cursor, i: nat, maxBlocks: nat, a: Attempt)
    requires Valid(lib) && AtRest(lib, a) && HoldsAt(lib, text, p, c, i) && Kept(text, Ask(text, maxBlocks, a)) == ""
    ensures lib != [] && lib[|lib| - 1].closed
    ensures var r := Ask(text, maxBlocks, a); r.Part? && p + r.count == |Flat(lib)|
  {
    hide Fetch, Passing, Decode, Encode, Valid, Grows, Flat, At, Place, Body, Begins;
    RestPasses(lib, a);
    CursorSurvives(lib, c, i);
    FetchFollows(lib, Request(a.camera, None, Some(c), None, None, a.blocks, a.thin), i, maxBlocks, a.s, a.disk, a.s2,
      a.disk2);
    UnracedMissesNothing(lib, a.s, c, i);
    var r := Ask(text, maxBlocks, a);
    if r.Part? && r.next.Some? {
      NextHasText(lib, r, p);
    }
  }

  lemma {:induction false} NextHasText(lib: Library, r: Reply, p: nat)
    requires Valid(lib) && Continues(lib, r, p) && r.next.Some?
    ensures Encode(r.next.value) != ""
  {
    hide Valid, At, Place, Encode, Body, Begins, Flat;
    var i :| At(lib, r.next.value, i) && Place(lib, r.next.value, i) == p + r.count;
    CursorSurvives(lib, r.next.value, i);
  }

  /**
   A walk of a library at rest terminates: after no more requests than blocks are left it has received
   every one of them exactly once, in order, and nothing else ever.
   */
  lemma {:induction false} RestWalkFinishes(lib: Library, text: string, p: nat, maxBlocks: nat, run: seq<Attempt>)
    requires Valid(lib) && Holds(lib, text, p) && p <= |Flat(lib)|
    requires forall k :: 0 <= k < |run| ==> AtRest(lib, run[k])
    requires |run| >= |Flat(lib)| - p
    ensures Walk(text, maxBlocks, run) == Flat(lib)[p..]
  {
    hide Valid, Holds, Walk, Flat, AtRest;
    var q := RestReaches(lib, text, p, maxBlocks, run);
  }

  lemma {:induction false} RestMoments(lib: Library, a: Attempt)
    requires AtRest(lib, a)
    ensures a.s.list == lib && a.s2.list == lib
  {
  }

  // ------------------------------------------------------------ the race that does skip blocks

  /**
   Exactly when a cursor past its file goes on without a gap: if and only if the file did not grow
   between the reading of its index and the listing that showed the next one.
   */
  lemma {:induction false} RaceExactly(lib: Library, text: string, p: nat, c: Cursor, i: nat, maxBlocks: nat,
      a: Attempt)
    requires Valid(lib) && Passing(lib, a.s) && Passing(a.s.list, a.s2) && HoldsAt(lib, text, p, c, i)
    requires i < |a.s.index| && Past(a.s, c, i) && i + 1 < |a.s.list| && Readable(a.s2.index, a.disk2)
    ensures var r := Ask(text, maxBlocks, a);
      r.Part? && (Begins(a.s2.list, r) == p <==> |a.s.index[i].blocks| == |a.s.list[i].blocks|)
  {
    hide Fetch, Passing, Decode, Encode, Valid, Grows, Flat, At, Place, Body, Begins, Holds;
    CursorSurvives(lib, c, i);
    var rq := Request(a.camera, None, Some(c), None, None, a.blocks, a.thin);
    AskFollows(lib, text, p, c, i, maxBlocks, a);
    FetchNext(lib, rq, i, maxBlocks, a.s, a.disk, a.s2, a.disk2);
    AttemptGrows(lib, a);
    OpeningStands(a.s.list, i + 1);
    var c2 := Opening(a.s.list[i + 1]);
    Sought(a.s.list, c2, i + 1, a.s2);
    HereIsPart(a.s.list, rq.(cursor := Some(c2)), i + 1, maxBlocks, a.s2, a.disk2, a.s2, a.disk2);
  }

  lemma {:induction false} SafeNames()
    ensures SafeName("a.vms") && SafeName("b.vms") && Lower("a.vms") != Lower("b.vms")
  {
    assert Lower("a.vms") == "a.vms" && Lower("b.vms") == "b.vms";
    assert "a.vms"[1..] == ".vms" && "b.vms"[1..] == ".vms";
  }

  /**
   The gap happens: a client at the tail of a file with one block asks; after the index is read a
   second block and the next file arrive; the reply starts at the next file and leaves that block out.
   */
  lemma {:induction false} RaceSkips(maxBlocks: nat) returns (lib: Library, text: string, p: nat, a: Attempt)
    ensures Valid(lib) && Timeline(lib, [a]) && Holds(lib, text, p)
    ensures Ask(text, maxBlocks, a).Part? && Begins(a.s2.list, Ask(text, maxBlocks, a)) == p + 1
  {
    SafeNames();
    hide Fetch, Decode, Encode, Lower, SafeName;
    var b := Block(1000, true, []);
    var x, y, z := File("a.vms", [b], false, 3000), File("a.vms", [b, b], false, 3000), File("b.vms", [b], false, 3000);
    lib := [x];
    var later := [y, z];
    var disk := Disk(200, 9, true);
    a := Attempt("porch", 1, false, Snap(lib, lib, later), disk, Snap(later, later, later), disk);
    var c := Cursor(3000, "a.vms", 1, false, true);
    text, p := Encode(c), 1;
    assert FileGrows(x, y, false) && Grows(lib, later);
    assert HoldsAt(lib, text, p, c, 0);
    GrowsReflexive(lib);
    GrowsReflexive(later);
    assert Timeline(later, [a][1..]);
    AskFollows(lib, text, p, c, 0, maxBlocks, a);
    RaceExactly(lib, text, p, c, 0, maxBlocks, a);
    assert Missed(a.s, c, 0) == 1;
  }
}
