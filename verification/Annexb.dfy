/** Annex-B byte streams: NAL units separated by start codes. */
module Annexb {
  import opened Bytes

  predicate StartCode(d: seq<byte>, i: nat) {
    i + 3 <= |d| && d[i] == 0 && d[i + 1] == 0 && d[i + 2] == 1
  }

  /** Offsets (from `base`) of the start codes of `d`, scanning past each one found. */
  function Starts(d: seq<byte>, base: nat): seq<nat> {
    if |d| < 3 then []
    else if StartCode(d, 0) then [base] + Starts(d[3..], base + 3)
    else Starts(d[1..], base + 1)
  }

  /** `end` moved back over the zeros before it, not beyond `begin`. */
  function TrimZeros(d: seq<byte>, begin: nat, end: nat): (e: nat)
    requires begin <= end <= |d|
    ensures begin <= e <= end
    ensures e > begin ==> d[e - 1] != 0
    ensures forall i :: e <= i < end ==> d[i] == 0
  {
    if end > begin && d[end - 1] == 0 then TrimZeros(d, begin, end - 1) else end
  }

  predicate Ordered(starts: seq<nat>, len: nat) {
    (forall i :: 0 <= i < |starts| ==> starts[i] + 3 <= len)
    && forall i, j :: 0 <= i < j < |starts| ==> starts[i] + 3 <= starts[j]
  }

  /** The NAL after the first start code; zeros before a following start code are not part of it. */
  function FirstNal(d: seq<byte>, starts: seq<nat>): seq<byte>
    requires starts != [] && Ordered(starts, |d|)
  {
    var begin := starts[0] + 3;
    d[begin..if |starts| > 1 then TrimZeros(d, begin, starts[1]) else |d|]
  }

  function NonEmpty(nal: seq<byte>): seq<seq<byte>> {
    if nal == [] then [] else [nal]
  }

  function Cut(d: seq<byte>, starts: seq<nat>): seq<seq<byte>>
    requires Ordered(starts, |d|)
  {
    if starts == [] then [] else NonEmpty(FirstNal(d, starts)) + Cut(d, starts[1..])
  }

  lemma {:induction false} StartsOrdered(d: seq<byte>, base: nat)
    ensures Ordered(Starts(d, base), base + |d|)
    ensures Starts(d, base) != [] ==> base <= Starts(d, base)[0]
    decreases |d|
  {
    if |d| >= 3 {
      if StartCode(d, 0) {
        StartsOrdered(d[3..], base + 3);
      } else {
        StartsOrdered(d[1..], base + 1);
      }
    }
  }

  /** The NAL units of a buffer, without start codes. */
  function Nals(d: seq<byte>): seq<seq<byte>> {
    StartsOrdered(d, 0);
    Cut(d, Starts(d, 0))
  }

  /** A NAL with its four-byte start code. */
  function Unit(nal: seq<byte>): seq<byte> {
    [0, 0, 0, 1] + nal
  }

  function Join(nals: seq<seq<byte>>): seq<byte> {
    if nals == [] then [] else Unit(nals[0]) + Join(nals[1..])
  }

  ghost predicate NoStartCode(nal: seq<byte>) {
    forall i: nat :: !StartCode(nal, i)
  }

  /** NALs a byte stream can carry: not empty, no start code inside, no zero before the next one. */
  ghost predicate Clean(nals: seq<seq<byte>>) {
    (forall i :: 0 <= i < |nals| ==> nals[i] != [] && NoStartCode(nals[i]))
    && forall i :: 0 <= i < |nals| - 1 ==> nals[i] != [] && nals[i][|nals[i]| - 1] != 0
  }

  // ------------------------------------------------------------ splitting undoes joining

  lemma {:induction false} StartsSkip(d: seq<byte>, k: nat, base: nat)
    requires k <= |d| && forall i: nat :: i < k ==> !StartCode(d, i)
    ensures Starts(d, base) == Starts(d[k..], base + k)
    decreases k
  {
    if k == 0 {
      assert d[0..] == d;
    } else {
      assert !StartCode(d, 0);
      if |d| >= 3 {
        forall i: nat | i < k - 1
          ensures !StartCode(d[1..], i)
        {
          assert !StartCode(d, i + 1);
        }
        StartsSkip(d[1..], k - 1, base + 1);
        assert d[1..][k - 1..] == d[k..];
      }
    }
  }

  lemma {:induction false} NoStarts(d: seq<byte>, base: nat)
    requires NoStartCode(d)
    ensures Starts(d, base) == []
    decreases |d|
  {
    if |d| >= 3 {
      assert !StartCode(d, 0);
      forall i: nat
        ensures !StartCode(d[1..], i)
      {
        assert !StartCode(d, i + 1);
      }
      NoStarts(d[1..], base + 1);
    }
  }

  /** Where the start codes of `Join(nals)` are, counted from `base`. */
  function Offsets(nals: seq<seq<byte>>, base: nat): seq<nat> {
    if nals == [] then [] else [base + 1] + Offsets(nals[1..], base + 4 + |nals[0]|)
  }

  /** The scan that has just passed a start code finds the next one right after the NAL. */
  lemma {:induction false} StartsAfterNal(nals: seq<seq<byte>>, base: nat)
    requires nals != [] && forall i :: 0 <= i < |nals| ==> NoStartCode(nals[i])
    ensures Starts(nals[0] + Join(nals[1..]), base) == Offsets(nals[1..], base + |nals[0]|)
    decreases |nals|
  {
    var nal, more := nals[0], nals[1..];
    var d := nal + Join(more);
    if more == [] {
      assert d == nal;
      NoStarts(d, base);
    } else {
      var k := |nal| + 1;
      forall i: nat | i < k
        ensures !StartCode(d, i)
      {
        assert !StartCode(nal, i);
      }
      StartsSkip(d, k, base);
      assert StartCode(d[k..], 0);
      assert d[k..][3..] == more[0] + Join(more[1..]);
      StartsAfterNal(more, base + k + 3);
    }
  }

  lemma {:induction false} StartsAtUnit(rest: seq<byte>, base: nat)
    ensures Starts([0, 0, 0, 1] + rest, base) == [base + 1] + Starts(rest, base + 4)
  {
    var d := [0, 0, 0, 1] + rest;
    var d1 := d[1..];
    assert !StartCode(d, 0) && StartCode(d1, 0);
    assert d1[3..] == rest;
  }

  lemma {:induction false} JoinHead(nals: seq<seq<byte>>)
    requires nals != []
    ensures Join(nals) == [0, 0, 0, 1] + (nals[0] + Join(nals[1..]))
  {
    ConcatAssociative([0, 0, 0, 1], nals[0], Join(nals[1..]));
  }

  lemma {:induction false} StartsOfJoin(nals: seq<seq<byte>>, base: nat)
    requires forall i :: 0 <= i < |nals| ==> NoStartCode(nals[i])
    ensures Starts(Join(nals), base) == Offsets(nals, base)
  {
    if nals == [] {
      assert Join(nals) == [];
    } else {
      var rest := nals[0] + Join(nals[1..]);
      JoinHead(nals);
      StartsAtUnit(rest, base);
      StartsAfterNal(nals, base + 4);
    }
  }

  lemma {:induction false} OffsetsHead(nals: seq<seq<byte>>, base: nat)
    requires nals != []
    ensures Offsets(nals, base) != [] && Offsets(nals, base)[0] == base + 1
    ensures Offsets(nals, base)[1..] == Offsets(nals[1..], base + 4 + |nals[0]|)
    ensures |Offsets(nals, base)| == 1 <==> |nals| == 1
    ensures |nals| > 1 ==> Offsets(nals, base)[1] == base + 4 + |nals[0]| + 1
  {
  }

  lemma {:induction false} TrimOneZero(d: seq<byte>, begin: nat, end: nat)
    requires begin < end < |d| && d[end - 1] != 0 && d[end] == 0
    ensures TrimZeros(d, begin, end + 1) == end
  {
    assert TrimZeros(d, begin, end + 1) == TrimZeros(d, begin, end);
  }

  lemma {:induction false} FirstOfJoin(d: seq<byte>, nals: seq<seq<byte>>, base: nat)
    requires nals != [] && Clean(nals) && base <= |d| && d[base..] == Join(nals)
    requires Ordered(Offsets(nals, base), |d|)
    ensures var next := base + 4 + |nals[0]|; next <= |d| && d[next..] == Join(nals[1..])
    ensures FirstNal(d, Offsets(nals, base)) == nals[0]
  {
    hide *;
    var nal, more, at := nals[0], nals[1..], base + 4;
    var next := at + |nal|;
    JoinHead(nals);
    SlicesOfConcat([0, 0, 0, 1], nal, Join(more));
    SliceOfTail(d, base, 4, 4 + |nal|);
    OffsetsHead(nals, base);
    CleanHead(nals);
    assert d[at..next] == nal && d[next..] == Join(more);
    if more != [] {
      JoinStarts(more);
      assert d[next] == d[next..][0] && d[next - 1] == nal[|nal| - 1];
      TrimOneZero(d, at, next);
    } else {
      JoinNothing(more);
      assert |d[next..]| == 0;
    }
    FirstNalIs(d, Offsets(nals, base));
  }

  lemma {:induction false} CleanHead(nals: seq<seq<byte>>)
    requires Clean(nals) && nals != []
    ensures nals[0] != [] && (|nals| > 1 ==> nals[0][|nals[0]| - 1] != 0) && Clean(nals[1..])
  {
    hide NoStartCode;
  }

  lemma {:induction false} JoinNothing(nals: seq<seq<byte>>)
    requires nals == []
    ensures Join(nals) == []
  {
  }

  lemma {:induction false} JoinStarts(nals: seq<seq<byte>>)
    requires nals != []
    ensures Join(nals) != [] && Join(nals)[0] == 0
  {
    JoinHead(nals);
  }

  lemma {:induction false} FirstNalIs(d: seq<byte>, starts: seq<nat>)
    requires starts != [] && Ordered(starts, |d|)
    ensures starts[0] + 3 <= |d| && (|starts| > 1 ==> starts[0] + 3 <= starts[1] <= |d|)
    ensures FirstNal(d, starts) == d[starts[0] + 3..if |starts| > 1 then TrimZeros(d, starts[0] + 3, starts[1])
      else |d|]
  {
    hide TrimZeros;
  }

  lemma {:induction false} CutOffsets(d: seq<byte>, nals: seq<seq<byte>>, base: nat)
    requires Clean(nals) && base <= |d| && d[base..] == Join(nals)
    requires Ordered(Offsets(nals, base), |d|)
    ensures Cut(d, Offsets(nals, base)) == nals
    decreases |nals|
  {
    if nals != [] {
      FirstOfJoin(d, nals, base);
      hide FirstNal, Join;
      var more, next := nals[1..], base + 4 + |nals[0]|;
      assert Offsets(nals, base)[1..] == Offsets(more, next);
      CutOffsets(d, more, next);
    }
  }

  /** Splitting a stream of clean NALs gives back exactly those NALs. */
  lemma {:induction false} SplitUndoesJoin(nals: seq<seq<byte>>)
    requires Clean(nals)
    ensures Nals(Join(nals)) == nals
  {
    StartsOfJoin(nals, 0);
    StartsOrdered(Join(nals), 0);
    assert Join(nals)[0..] == Join(nals);
    CutOffsets(Join(nals), nals, 0);
  }

  // ------------------------------------------------------------ what splitting any bytes gives

  /** No start code is missed: two cannot begin within three bytes of each other. */
  lemma {:induction false} StartsComplete(d: seq<byte>, base: nat, i: nat)
    requires StartCode(d, i)
    ensures base + i in Starts(d, base)
    decreases |d|
  {
    var step := if StartCode(d, 0) then 3 else 1;
    if i >= step {
      assert StartCode(d[step..], i - step);
      StartsComplete(d[step..], base + step, i - step);
    } else {
      assert i == 0;
    }
  }

  /** `starts` are all the start codes of `d` from its first element on. */
  ghost predicate AllStarts(d: seq<byte>, starts: seq<nat>) {
    Ordered(starts, |d|)
    && forall i: nat :: starts != [] && starts[0] <= i && StartCode(d, i) ==> i in starts
  }

  lemma {:induction false} FirstNalClean(d: seq<byte>, starts: seq<nat>)
    requires starts != [] && AllStarts(d, starts)
    ensures NoStartCode(FirstNal(d, starts))
    ensures |starts| > 1 && FirstNal(d, starts) != [] ==>
      var n := FirstNal(d, starts); n[|n| - 1] != 0
  {
    var n, begin := FirstNal(d, starts), starts[0] + 3;
    forall i: nat
      ensures !StartCode(n, i)
    {
      assert StartCode(n, i) ==> StartCode(d, begin + i) && begin + i + 3 <= begin + |n|;
      NotListed(starts, |d|, begin + i);
    }
  }

  lemma {:induction false} NotListed(starts: seq<nat>, len: nat, x: nat)
    requires starts != [] && Ordered(starts, len) && starts[0] < x
    ensures |starts| == 1 || x < starts[1] ==> x !in starts
  {
    assert forall k :: 1 <= k < |starts| ==> starts[1] <= starts[k];
  }

  /** The last start code's NAL may be empty: then an earlier one ends the list. */
  lemma {:induction false} CutClean(d: seq<byte>, starts: seq<nat>)
    requires AllStarts(d, starts)
    ensures Clean(Cut(d, starts))
    decreases |starts|
  {
    if starts != [] {
      var more := starts[1..];
      if more != [] {
        forall i: nat | more[0] <= i && StartCode(d, i)
          ensures i in more
        {
          assert starts[0] <= starts[1];
          assert i in starts && i != starts[0];
        }
      }
      FirstNalClean(d, starts);
      CutNext(d, starts);
      hide FirstNal, Cut, Clean, NoStartCode, StartCode;
      CutClean(d, more);
      CleanPrepend(FirstNal(d, starts), Cut(d, more));
    } else {
      hide StartCode;
    }
  }

  lemma {:induction false} CutNext(d: seq<byte>, starts: seq<nat>)
    requires starts != [] && Ordered(starts, |d|)
    ensures Cut(d, starts) == NonEmpty(FirstNal(d, starts)) + Cut(d, starts[1..])
    ensures |starts| == 1 ==> Cut(d, starts[1..]) == []
  {
    hide FirstNal;
  }

  lemma {:induction false} CleanPrepend(nal: seq<byte>, nals: seq<seq<byte>>)
    requires Clean(nals) && NoStartCode(nal) && (nal != [] && nals != [] ==> nal[|nal| - 1] != 0)
    ensures Clean(NonEmpty(nal) + nals)
  {
    hide NoStartCode;
  }

  /**
   Whatever the bytes, the NALs split from them are clean; so `Clean` is exactly when a split gives back what
   was joined.
   */
  lemma {:induction false} SplitIsClean(d: seq<byte>)
    ensures Clean(Nals(d))
  {
    StartsOrdered(d, 0);
    forall i: nat | StartCode(d, i)
      ensures i in Starts(d, 0)
    {
      StartsComplete(d, 0, i);
    }
    hide Starts;
    CutClean(d, Starts(d, 0));
  }

  lemma {:induction false} SplitUndoesJoinExactly(nals: seq<seq<byte>>)
    ensures Nals(Join(nals)) == nals <==> Clean(nals)
  {
    if Clean(nals) {
      SplitUndoesJoin(nals);
    }
    SplitIsClean(Join(nals));
  }

  // ------------------------------------------------------------ the two loops

  lemma {:induction false} StartsAt(d: seq<byte>, i: nat, found: seq<nat>)
    requires i + 3 <= |d|
    ensures found + Starts(d[i..], i) ==
      if StartCode(d, i) then (found + [i]) + Starts(d[i + 3..], i + 3) else found + Starts(d[i + 1..], i + 1)
  {
    assert StartCode(d[i..], 0) == StartCode(d, i);
    assert d[i..][3..] == d[i + 3..] && d[i..][1..] == d[i + 1..];
  }

  /** The cutting loop has produced `out` from the start codes before `k`. */
  ghost predicate CutSoFar(d: seq<byte>, starts: seq<nat>, k: nat, out: seq<seq<byte>>) {
    Ordered(starts, |d|) && k <= |starts| && out + Cut(d, starts[k..]) == Cut(d, starts)
  }

  lemma {:induction false} CutBegins(d: seq<byte>, starts: seq<nat>)
    requires Ordered(starts, |d|)
    ensures CutSoFar(d, starts, 0, [])
  {
    assert starts[0..] == starts;
  }

  lemma {:induction false} CutEnds(d: seq<byte>, starts: seq<nat>, out: seq<seq<byte>>)
    requires CutSoFar(d, starts, |starts|, out)
    ensures out == Cut(d, starts)
  {
  }

  lemma {:induction false} SoFarOrdered(d: seq<byte>, starts: seq<nat>, k: nat, out: seq<seq<byte>>)
    requires CutSoFar(d, starts, k, out)
    ensures Ordered(starts, |d|)
  {
  }

  lemma {:induction false} NalsAre(d: seq<byte>)
    ensures Ordered(Starts(d, 0), |d|) && Nals(d) == Cut(d, Starts(d, 0))
  {
    StartsOrdered(d, 0);
    hide Ordered, Starts, Cut;
  }

  lemma {:induction false} CutHead(d: seq<byte>, starts: seq<nat>, k: nat, end: nat)
    requires k < |starts| && Ordered(starts, |d|)
    requires starts[k] + 3 <= end <= |d|
    requires end == if k + 1 < |starts| then TrimZeros(d, starts[k] + 3, starts[k + 1]) else |d|
    ensures Cut(d, starts[k..]) == NonEmpty(d[starts[k] + 3..end]) + Cut(d, starts[k + 1..])
  {
    hide TrimZeros, NonEmpty;
    assert starts[k..][1..] == starts[k + 1..];
  }

  lemma {:induction false} CutStep(d: seq<byte>, starts: seq<nat>, k: nat, out: seq<seq<byte>>, end: nat)
    requires k < |starts| && CutSoFar(d, starts, k, out)
    requires starts[k] + 3 <= end <= |d|
    requires end == if k + 1 < |starts| then TrimZeros(d, starts[k] + 3, starts[k + 1]) else |d|
    ensures end > starts[k] + 3 ==> CutSoFar(d, starts, k + 1, out + [d[starts[k] + 3..end]])
    ensures end == starts[k] + 3 ==> CutSoFar(d, starts, k + 1, out)
  {
    hide TrimZeros, Cut;
    CutHead(d, starts, k, end);
    assert out + [] == out;
    ConcatAssociative(out, NonEmpty(d[starts[k] + 3..end]), Cut(d, starts[k + 1..]));
  }

  /** Where the NAL after start code `k` ends. */
  method NalEnd(data: seq<byte>, starts: seq<nat>, k: nat) returns (end: nat)
    requires k < |starts| && Ordered(starts, |data|)
    ensures starts[k] + 3 <= end <= |data|
    ensures end == if k + 1 < |starts| then TrimZeros(data, starts[k] + 3, starts[k + 1]) else |data|
  {
    var begin := starts[k] + 3;
    end := if k + 1 < |starts| then starts[k + 1] else |data|;
    ghost var stop := end;
    while end > begin && data[end - 1] == 0 && k + 1 < |starts|
      invariant begin <= end <= stop && (k + 1 == |starts| ==> end == stop)
      invariant TrimZeros(data, begin, end) == TrimZeros(data, begin, stop)
    {
      end := end - 1;
    }
  }

  /** Finds every start code, then cuts the buffer at them. */
  method SplitNals(data: seq<byte>) returns (out: seq<seq<byte>>)
    ensures out == Nals(data)
  {
    hide *;
    var starts := FindStarts(data);
    CutBegins(data, starts);
    NalsAre(data);
    out := [];
    var k := 0;
    while k < |starts|
      invariant 0 <= k <= |starts| && CutSoFar(data, starts, k, out)
    {
      SoFarOrdered(data, starts, k, out);
      var begin := starts[k] + 3;
      var end := NalEnd(data, starts, k);
      CutStep(data, starts, k, out, end);
      if end > begin {
        out := out + [data[begin..end]];
      }
      k := k + 1;
    }
    CutEnds(data, starts, out);
  }

  method FindStarts(data: seq<byte>) returns (starts: seq<nat>)
    ensures starts == Starts(data, 0) && Ordered(starts, |data|)
  {
    StartsOrdered(data, 0);
    hide Ordered;
    starts := [];
    var i := 0;
    assert data[0..] == data;
    while i + 3 <= |data|
      invariant 0 <= i <= |data|
      invariant starts + Starts(data[i..], i) == Starts(data, 0)
    {
      StartsAt(data, i, starts);
      if data[i] == 0 && data[i + 1] == 0 && data[i + 2] == 1 {
        starts := starts + [i];
        i := i + 3;
      } else {
        i := i + 1;
      }
    }
  }
}
