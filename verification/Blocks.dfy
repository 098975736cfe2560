/** Blocks of a recording as they are read back: samples, their bytes and their instants. */
module Blocks {
  import opened Bytes

  /** Track 0 is video; bit 0 of the flags marks a keyframe. */
  datatype Sample = Sample(track: nat, flags: nat, pts: int, offset: nat, size: nat)

  datatype Block = Block(number: nat, start: int, samples: seq<Sample>, payload: seq<byte>, videoAnchor: int,
      audioAnchor: int)

  predicate IsKeyframe(s: Sample) {
    s.flags % 2 == 1
  }

  predicate IsVideo(s: Sample) {
    s.track == 0
  }

  /** The bytes of a sample, or none when they do not lie inside the payload. */
  function Data(payload: seq<byte>, s: Sample): seq<byte> {
    if s.offset + s.size <= |payload| then payload[s.offset..s.offset + s.size] else []
  }

  function TicksPerSecond(timescale: nat): (ts: nat)
    ensures ts > 0
  {
    if timescale == 0 then 90000 else timescale
  }

  function Anchor(b: Block): int {
    if b.videoAnchor != 0 then b.videoAnchor else b.start
  }

  /** The presentation time of the first video sample; 0 when there is none. */
  function FirstPts(samples: seq<Sample>): int {
    if samples == [] then 0 else if IsVideo(samples[0]) then samples[0].pts else FirstPts(samples[1..])
  }

  /** The wall-clock instant at which a reader places a sample. */
  function Instant(anchor: int, first: int, pts: int, ts: nat): int
    requires ts > 0
  {
    anchor + Trunc((pts - first) * 1000, ts)
  }

  function InstantIn(b: Block, s: Sample, ts: nat): int
    requires ts > 0
  {
    Instant(Anchor(b), FirstPts(b.samples), s.pts, ts)
  }

  lemma {:induction false} TruncNear(a: int, d: int)
    requires d > 0
    ensures a >= 0 ==> Trunc(a, d) * d <= a < (Trunc(a, d) + 1) * d
    ensures a < 0 ==> (Trunc(a, d) - 1) * d < a <= Trunc(a, d) * d
  {
  }

  /** Truncating twice differs by at most one from truncating once, and only downward on non-negative parts. */
  lemma {:induction false} TruncSum(a: int, b: int, d: int)
    requires d > 0
    ensures -1 <= Trunc(a, d) + Trunc(b, d) - Trunc(a + b, d) <= 1
    ensures a >= 0 && b >= 0 ==> Trunc(a, d) + Trunc(b, d) <= Trunc(a + b, d)
  {
    hide Trunc;
    var x, y, z := Trunc(a, d), Trunc(b, d), Trunc(a + b, d);
    TruncNear(a, d);
    TruncNear(b, d);
    TruncNear(a + b, d);
    assert (x + 1) * d == x * d + d && (y + 1) * d == y * d + d && (z + 1) * d == z * d + d;
    assert (x - 1) * d == x * d - d && (y - 1) * d == y * d - d && (z - 1) * d == z * d - d;
    var xd, yd, zd := x * d, y * d, z * d;
    assert (x + y - z) * d == xd + yd - zd;
    if a >= 0 && b >= 0 {
      Between(x + y - z, 1, d);
      Between(-2, x + y - z, d);
    } else if a < 0 && b < 0 {
      Between(-1, x + y - z, d);
      Between(x + y - z, 2, d);
    } else {
      Between(-2, x + y - z, d);
      Between(x + y - z, 2, d);
    }
  }
}
