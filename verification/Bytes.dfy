/** Bytes, optional values and the fixed-width integer encodings the wire formats share. */
module Bytes {

  datatype Option<+T> = None | Some(value: T) {
    predicate IsFailure() {
      None?
    }

    function PropagateFailure<U>(): Option<U>
      requires None?
    {
      None
    }

    function Extract(): T
      requires Some?
    {
      value
    }
  }

  newtype byte = x: int | 0 <= x < 256

  function Le16(n: nat): (b: seq<byte>)
    ensures |b| == 2
  {
    [(n % 256) as byte, (n / 256 % 256) as byte]
  }

  function Le32(n: nat): (b: seq<byte>)
    ensures |b| == 4
  {
    [(n % 256) as byte, (n / 256 % 256) as byte, (n / 256 / 256 % 256) as byte, (n / 256 / 256 / 256 % 256) as byte]
  }

  function FromLe16(b: seq<byte>, at: nat): nat
    requires at + 2 <= |b|
  {
    (b[at] as int) + 256 * (b[at + 1] as int)
  }

  function FromLe32(b: seq<byte>, at: nat): nat
    requires at + 4 <= |b|
  {
    (b[at] as int) + 256 * (b[at + 1] as int) + 0x1_0000 * (b[at + 2] as int) + 0x100_0000 * (b[at + 3] as int)
  }

  function Be16(n: nat): (b: seq<byte>)
    ensures |b| == 2
  {
    [(n / 256 % 256) as byte, (n % 256) as byte]
  }

  function FromBe16(b: seq<byte>, at: nat): nat
    requires at + 2 <= |b|
  {
    256 * (b[at] as int) + (b[at + 1] as int)
  }

  lemma {:induction false} Peel16(n: nat, q: nat, r: nat)
    requires n == 256 * q + r && r < 256
    ensures n % 0x1_0000 == r + 256 * (q % 256)
  {
    var a, b := q / 256, q % 256;
    assert n == 0x1_0000 * a + (r + 256 * b);
  }

  lemma {:induction false} Peel24(n: nat, q: nat, r: nat)
    requires n == 256 * q + r && r < 256
    ensures n % 0x100_0000 == r + 256 * (q % 0x1_0000)
  {
    var a, b := q / 0x1_0000, q % 0x1_0000;
    assert n == 0x100_0000 * a + (r + 256 * b);
  }

  lemma {:induction false} Peel32(n: nat, q: nat, r: nat)
    requires n == 256 * q + r && r < 256
    ensures n % 0x1_0000_0000 == r + 256 * (q % 0x100_0000)
  {
    var a, b := q / 0x100_0000, q % 0x100_0000;
    assert n == 0x1_0000_0000 * a + (r + 256 * b);
  }

  lemma {:induction false} ByteDigits(n: nat)
    ensures var n1, n2, n3 := n / 256, n / 256 / 256, n / 256 / 256 / 256;
      n % 256 + 256 * (n1 % 256) + 0x1_0000 * (n2 % 256) + 0x100_0000 * (n3 % 256) == n % 0x1_0000_0000
  {
    var n1, n2, n3 := n / 256, n / 256 / 256, n / 256 / 256 / 256;
    Peel32(n, n1, n % 256);
    Peel24(n1, n2, n1 % 256);
    Peel16(n2, n3, n2 % 256);
  }

  /** Little-endian fields read back what was written, modulo the field's width. */
  lemma {:induction false} Le32RoundTrip(n: nat, pre: seq<byte>, post: seq<byte>)
    ensures FromLe32(pre + Le32(n) + post, |pre|) == n % 0x1_0000_0000
  {
    var b := pre + Le32(n) + post;
    var k := |pre|;
    assert b[k] == Le32(n)[0] && b[k + 1] == Le32(n)[1] && b[k + 2] == Le32(n)[2] && b[k + 3] == Le32(n)[3];
    ByteDigits(n);
  }

  lemma {:induction false} Le16RoundTrip(n: nat, pre: seq<byte>, post: seq<byte>)
    ensures FromLe16(pre + Le16(n) + post, |pre|) == n % 0x1_0000
  {
    var b := pre + Le16(n) + post;
    assert b[|pre|] as int == n % 256 && b[|pre| + 1] as int == n / 256 % 256;
  }

  lemma {:induction false} ConcatAssociative<T>(a: seq<T>, b: seq<T>, c: seq<T>)
    ensures (a + b) + c == a + (b + c)
  {
  }

  lemma {:induction false} SliceOfTail<T>(s: seq<T>, base: nat, i: nat, j: nat)
    requires base <= |s| && i <= j <= |s| - base
    ensures s[base..][i..j] == s[base + i..base + j]
    ensures s[base..][j..] == s[base + j..]
  {
  }

  lemma {:induction false} TakeMore<T>(s: seq<T>, i: nat, j: nat)
    requires i <= j <= |s|
    ensures s[..i] + s[i..j] == s[..j]
    ensures j == |s| ==> s[..j] == s
  {
  }

  lemma {:induction false} SlicesOfConcat<T>(a: seq<T>, b: seq<T>, c: seq<T>)
    ensures (a + (b + c))[|a|..|a| + |b|] == b
    ensures (a + (b + c))[|a| + |b|..] == c
  {
  }

  /** The bytes of a list of chunks, in order. */
  function Flatten<T>(chunks: seq<seq<T>>): seq<T>
  {
    if chunks == [] then [] else chunks[0] + Flatten(chunks[1..])
  }

  lemma {:induction false} FlattenAppend<T>(a: seq<seq<T>>, b: seq<seq<T>>)
    ensures Flatten(a + b) == Flatten(a) + Flatten(b)
  {
    if a == [] {
      assert a + b == b;
    } else {
      assert (a + b)[1..] == a[1..] + b;
      FlattenAppend(a[1..], b);
    }
  }

  // ------------------------------------------------------------ products and quotients

  /** Division that truncates toward zero, as the machine does it. */
  function Trunc(a: int, b: int): int
    requires b > 0
  {
    if a >= 0 then a / b else -((-a) / b)
  }

  lemma {:induction false} Between(x: int, y: int, d: int)
    requires d > 0 && x * d < y * d
    ensures x < y
  {
    assert (y - x) * d > 0;
  }

  lemma {:induction false} ProductAtMost(x: int, y: int, d: int)
    requires d >= 0 && x <= y
    ensures x * d <= y * d
  {
    assert (y - x) * d >= 0;
  }

  lemma {:induction false} Divided(x: int, n: int, q: int, r: int)
    requires n > 0 && x == q * n + r && 0 <= r < n
    ensures x / n == q && x % n == r
  {
    assert x == (x / n) * n + x % n;
    assert (x / n - q) * n == r - x % n;
    Between(x / n - q, 1, n);
    Between(-1, x / n - q, n);
  }

  // ------------------------------------------------------------ subsequences

  /** `a` is `b` with some elements left out. */
  predicate Subsequence<T(==)>(a: seq<T>, b: seq<T>)
    decreases |b|
  {
    if a == [] then true
    else if b == [] then false
    else if a[0] == b[0] then Subsequence(a[1..], b[1..])
    else Subsequence(a, b[1..])
  }

  lemma {:induction false} SubsequenceSkip<T>(a: seq<T>, b: seq<T>)
    requires b != [] && Subsequence(a, b[1..])
    ensures Subsequence(a, b)
    decreases |b|, 0
  {
    if a != [] && a[0] == b[0] {
      SubsequenceTail(a, b[1..]);
    }
  }

  lemma {:induction false} SubsequenceTail<T>(a: seq<T>, b: seq<T>)
    requires a != [] && Subsequence(a, b)
    ensures Subsequence(a[1..], b)
    decreases |b|, 1
  {
    if b != [] {
      if a[0] == b[0] {
        SubsequenceSkip(a[1..], b);
      } else {
        SubsequenceTail(a, b[1..]);
        SubsequenceSkip(a[1..], b);
      }
    }
  }

  lemma {:induction false} SubsequenceTransitive<T>(a: seq<T>, b: seq<T>, c: seq<T>)
    requires Subsequence(a, b) && Subsequence(b, c)
    ensures Subsequence(a, c)
    decreases |c|
  {
    if a != [] && b != [] && c != [] {
      if b[0] != c[0] {
        SubsequenceTransitive(a, b, c[1..]);
        SubsequenceSkip(a, c);
      } else if a[0] == b[0] {
        SubsequenceTransitive(a[1..], b[1..], c[1..]);
      } else {
        SubsequenceTransitive(a, b[1..], c[1..]);
        SubsequenceSkip(a, c);
      }
    }
  }

  lemma {:induction false} SubsequenceReflexive<T>(a: seq<T>)
    ensures Subsequence(a, a)
    decreases |a|
  {
    if a != [] {
      SubsequenceReflexive(a[1..]);
    }
  }

  /** Leaving out of both ends of a join. */
  lemma {:induction false} SubsequenceJoin<T>(a: seq<T>, b: seq<T>, c: seq<T>, d: seq<T>)
    requires Subsequence(a, b) && Subsequence(c, d)
    ensures Subsequence(a + c, b + d)
    decreases |b|
  {
    if b == [] {
      assert a + c == c && b + d == d;
    } else {
      assert (b + d)[1..] == b[1..] + d && (b + d)[0] == b[0];
      if a != [] && a[0] == b[0] {
        SubsequenceJoin(a[1..], b[1..], c, d);
        assert (a + c)[1..] == a[1..] + c;
      } else {
        SubsequenceJoin(a, b[1..], c, d);
        SubsequenceSkip(a + c, b + d);
      }
    }
  }
}
