/**
 The sweep that keeps recordings within limits of age, size and free space, deleting the oldest first.
 Whether the system lets a file go, and how much space is free, are inputs.
 */
module Retention {
  const GRACE_MS: int := 60000

  datatype RecFile = RecFile(size: nat, written: int, deleted: bool, skip: bool)

  /** Zero or less switches a limit off. */
  datatype Policy = Policy(maxDays: int, maxTotal: nat, minFree: nat)

  datatype State = State(files: seq<RecFile>, total: nat, avail: nat, deleted: nat, freed: nat, locked: nat)

  /** Sizes of the files still there, and of those deleted. */
  function Kept(files: seq<RecFile>): nat {
    if files == [] then 0 else Kept(files[..|files| - 1]) + (if files[|files| - 1].deleted then 0
      else files[|files| - 1].size)
  }

  function Gone(files: seq<RecFile>): nat {
    if files == [] then 0 else Gone(files[..|files| - 1]) + (if files[|files| - 1].deleted then files[|files| - 1].size
      else 0)
  }

  function CountGone(files: seq<RecFile>): nat {
    if files == [] then 0 else CountGone(files[..|files| - 1]) + (if files[|files| - 1].deleted then 1 else 0)
  }

  function Total(files: seq<RecFile>): nat {
    if files == [] then 0 else Total(files[..|files| - 1]) + files[|files| - 1].size
  }

  /** May be deleted: not already, not in its grace period, not found locked. */
  predicate Eligible(f: RecFile) {
    !f.deleted && !f.skip
  }

  function Listed(size: nat, written: int, now: int): RecFile {
    RecFile(size, written, false, written > now - GRACE_MS)
  }

  /** What is found on disk. */
  datatype Found = Found(size: nat, written: int)

  function Start(found: seq<Found>, now: int, free: nat): (st: State)
    ensures |st.files| == |found|
  {
    var files := seq(|found|, i requires 0 <= i < |found| => Listed(found[i].size, found[i].written, now));
    State(files, Total(files), free, 0, 0, 0)
  }

  /** Tries to delete file `i`; `locks(i)` says that the system refuses. */
  function Drop(locks: nat -> bool, st: State, i: nat): (r: State)
    ensures |r.files| == |st.files|
  {
    if i >= |st.files| || !Eligible(st.files[i]) then st
    else
      var f := st.files[i];
      if locks(i) then st.(files := st.files[i := f.(skip := true)], locked := st.locked + 1)
      else
        st.(files := st.files[i := f.(deleted := true)], deleted := st.deleted + 1, freed := st.freed + f.size,
            total := if st.total >= f.size then st.total - f.size else 0, avail := st.avail + f.size)
  }

  /** Everything among the first `n` written before the cutoff. */
  function AgePhase(locks: nat -> bool, st: State, cutoff: int, n: nat): (r: State)
    requires n <= |st.files|
    ensures |r.files| == |st.files|
  {
    if n == 0 then st
    else
      var before := AgePhase(locks, st, cutoff, n - 1);
      if before.files[n - 1].written < cutoff then Drop(locks, before, n - 1) else before
  }

  datatype Limit = AtMost(bytes: nat) | FreeAtLeast(bytes: nat)

  predicate Met(l: Limit, st: State) {
    match l case AtMost(b) => st.total <= b case FreeAtLeast(b) => st.avail >= b
  }

  /** From file `i` on, oldest first, until the limit is met. */
  function LimitPhase(locks: nat -> bool, l: Limit, st: State, i: nat): (r: State)
    requires i <= |st.files|
    ensures |r.files| == |st.files|
    decreases |st.files| - i
  {
    if i >= |st.files| || Met(l, st) then st else LimitPhase(locks, l, Drop(locks, st, i), i + 1)
  }

  function AfterAge(locks: nat -> bool, p: Policy, now: int, st: State): State {
    if p.maxDays > 0 then AgePhase(locks, st, now - p.maxDays * 86400000, |st.files|) else st
  }

  function AfterSize(locks: nat -> bool, p: Policy, st: State): State {
    if p.maxTotal > 0 then LimitPhase(locks, AtMost(p.maxTotal), st, 0) else st
  }

  function AfterSpace(locks: nat -> bool, p: Policy, st: State): State {
    if p.minFree > 0 && st.avail > 0 then LimitPhase(locks, FreeAtLeast(p.minFree), st, 0) else st
  }

  function Sweep(locks: nat -> bool, p: Policy, now: int, found: seq<Found>, free: nat): State {
    AfterSpace(locks, p, AfterSize(locks, p, AfterAge(locks, p, now, Start(found, now, free))))
  }

  // ------------------------------------------------------------ conservation

  /** The running totals tell the truth about the files. */
  ghost predicate Sound(locks: nat -> bool, st: State, found: seq<Found>, now: int, free: nat) {
    |st.files| == |found|
    && (forall i :: 0 <= i < |found| ==> Same(locks, st.files[i], found[i], now, i))
    && st.total == Kept(st.files) && st.freed == Gone(st.files) && st.deleted == CountGone(st.files)
    && st.avail == free + st.freed
  }

  /** Only its marks change; what is in its grace period or refused by the system is never deleted. */
  predicate Same(locks: nat -> bool, f: RecFile, g: Found, now: int, i: nat) {
    f.size == g.size && f.written == g.written
    && (g.written > now - GRACE_MS ==> f.skip) && (f.deleted ==> !f.skip && !locks(i))
    && (f.skip ==> g.written > now - GRACE_MS || locks(i))
  }

  lemma {:induction false} SumsOfUpdate(files: seq<RecFile>, i: nat, f: RecFile)
    requires i < |files| && f.size == files[i].size && !files[i].deleted
    ensures var r := files[i := f];
      var s := if f.deleted then f.size else 0;
      Kept(r) == Kept(files) - s && Gone(r) == Gone(files) + s
        && CountGone(r) == CountGone(files) + (if f.deleted then 1 else 0)
      && Kept(files) >= files[i].size
    decreases |files|
  {
    var n, r := |files| - 1, files[i := f];
    if i < n {
      SumsOfUpdate(files[..n], i, f);
      assert r[..n] == files[..n][i := f];
    } else {
      assert r[..n] == files[..n];
    }
  }

  lemma {:induction false} SumsAdd(files: seq<RecFile>)
    ensures Kept(files) + Gone(files) == Total(files) && CountGone(files) <= |files|
    decreases |files|
  {
    if files != [] {
      SumsAdd(files[..|files| - 1]);
    }
  }

  lemma {:induction false} DropSound(locks: nat -> bool, st: State, i: nat, found: seq<Found>, now: int, free: nat)
    requires Sound(locks, st, found, now, free)
    ensures Sound(locks, Drop(locks, st, i), found, now, free)
  {
    if i < |st.files| && Eligible(st.files[i]) {
      var f := Drop(locks, st, i).files[i];
      SumsOfUpdate(st.files, i, f);
      assert Same(locks, st.files[i], found[i], now, i);
      hide Kept, Gone, CountGone;
    }
  }

  lemma {:induction false} AgeSound(locks: nat -> bool, st: State, cutoff: int, n: nat, found: seq<Found>, now: int,
      free: nat)
    requires Sound(locks, st, found, now, free) && n <= |st.files|
    ensures Sound(locks, AgePhase(locks, st, cutoff, n), found, now, free)
    decreases n
  {
    hide Sound, Drop;
    if n > 0 {
      AgeSound(locks, st, cutoff, n - 1, found, now, free);
      DropSound(locks, AgePhase(locks, st, cutoff, n - 1), n - 1, found, now, free);
    }
  }

  lemma {:induction false} LimitSound(locks: nat -> bool, l: Limit, st: State, i: nat, found: seq<Found>, now: int,
      free: nat)
    requires Sound(locks, st, found, now, free) && i <= |st.files|
    ensures Sound(locks, LimitPhase(locks, l, st, i), found, now, free)
    decreases |st.files| - i
  {
    hide Sound, Drop, Met;
    if i < |st.files| && !Met(l, st) {
      DropSound(locks, st, i, found, now, free);
      LimitSound(locks, l, Drop(locks, st, i), i + 1, found, now, free);
    }
  }

  lemma {:induction false} StartSound(locks: nat -> bool, found: seq<Found>, now: int, free: nat)
    ensures Sound(locks, Start(found, now, free), found, now, free)
  {
    var files := Start(found, now, free).files;
    NoneGone(files);
    SumsAdd(files);
    hide Kept, Gone, CountGone, Total;
  }

  lemma {:induction false} NoneGone(files: seq<RecFile>)
    requires forall i :: 0 <= i < |files| ==> !files[i].deleted
    ensures Gone(files) == 0 && CountGone(files) == 0
    decreases |files|
  {
    if files != [] {
      NoneGone(files[..|files| - 1]);
    }
  }

  /**
   Whatever the files, the policy, the refusals and the free space: what is deleted and what is kept add
   up to what was there, in bytes and in files; nothing in its grace period or refused is deleted.
   */
  lemma {:induction false} SweepConserves(locks: nat -> bool, p: Policy, now: int, found: seq<Found>, free: nat)
    ensures var r := Sweep(locks, p, now, found, free);
      Sound(locks, r, found, now, free) && r.freed + Kept(r.files) == Total(r.files)
      && Total(r.files) == Total(Start(found, now, free).files)
  {
    hide Sound, AgePhase, LimitPhase, Start, Kept, Total;
    StartSound(locks, found, now, free);
    var a := Start(found, now, free);
    AgeSound(locks, a, now - p.maxDays * 86400000, |a.files|, found, now, free);
    var b := AfterAge(locks, p, now, a);
    LimitSound(locks, AtMost(p.maxTotal), b, 0, found, now, free);
    var c := AfterSize(locks, p, b);
    LimitSound(locks, FreeAtLeast(p.minFree), c, 0, found, now, free);
    var r := AfterSpace(locks, p, c);
    SoundTotal(locks, r, a, found, now, free);
  }

  /** Files the system refused to delete: passed over, though not in their grace period. */
  function Refused(files: seq<RecFile>, now: int): nat {
    if files == [] then 0
    else
      var n := |files| - 1;
      Refused(files[..n], now) + if files[n].skip && files[n].written <= now - GRACE_MS then 1 else 0
  }

  ghost predicate CountsRefused(st: State, now: int) {
    st.locked == Refused(st.files, now)
    && forall i :: 0 <= i < |st.files| ==> (st.files[i].written > now - GRACE_MS ==> st.files[i].skip)
  }

  lemma {:induction false} RefusedOfUpdate(files: seq<RecFile>, i: nat, f: RecFile, now: int)
    requires i < |files| && f.written == files[i].written <= now - GRACE_MS && !files[i].skip
    ensures Refused(files[i := f], now) == Refused(files, now) + if f.skip then 1 else 0
    decreases |files|
  {
    var n, r := |files| - 1, files[i := f];
    if i < n {
      RefusedOfUpdate(files[..n], i, f, now);
      assert r[..n] == files[..n][i := f];
    } else {
      assert r[..n] == files[..n];
    }
  }

  lemma {:induction false} DropCounts(locks: nat -> bool, st: State, i: nat, now: int)
    requires CountsRefused(st, now)
    ensures CountsRefused(Drop(locks, st, i), now)
  {
    hide Refused;
    if i < |st.files| && Eligible(st.files[i]) {
      RefusedOfUpdate(st.files, i, Drop(locks, st, i).files[i], now);
    }
  }

  lemma {:induction false} AgeCounts(locks: nat -> bool, st: State, cutoff: int, n: nat, now: int)
    requires CountsRefused(st, now) && n <= |st.files|
    ensures CountsRefused(AgePhase(locks, st, cutoff, n), now)
    decreases n
  {
    hide CountsRefused, Drop;
    if n > 0 {
      AgeCounts(locks, st, cutoff, n - 1, now);
      DropCounts(locks, AgePhase(locks, st, cutoff, n - 1), n - 1, now);
    }
  }

  lemma {:induction false} LimitCounts(locks: nat -> bool, l: Limit, st: State, i: nat, now: int)
    requires CountsRefused(st, now) && i <= |st.files|
    ensures CountsRefused(LimitPhase(locks, l, st, i), now)
    decreases |st.files| - i
  {
    hide CountsRefused, Drop, Met;
    if i < |st.files| && !Met(l, st) {
      DropCounts(locks, st, i, now);
      LimitCounts(locks, l, Drop(locks, st, i), i + 1, now);
    }
  }

  lemma {:induction false} NoneRefused(files: seq<RecFile>, now: int)
    requires forall i :: 0 <= i < |files| ==> (files[i].skip <==> files[i].written > now - GRACE_MS)
    ensures Refused(files, now) == 0
    decreases |files|
  {
    if files != [] {
      NoneRefused(files[..|files| - 1], now);
    }
  }

  /** A sweep reports as locked exactly the files that the system refused to delete. */
  lemma {:induction false} SweepCountsRefused(locks: nat -> bool, p: Policy, now: int, found: seq<Found>, free: nat)
    ensures var r := Sweep(locks, p, now, found, free); r.locked == Refused(r.files, now)
  {
    var a := Start(found, now, free);
    NoneRefused(a.files, now);
    assert CountsRefused(a, now);
    hide Start, AgePhase, LimitPhase;
    AgeCounts(locks, a, now - p.maxDays * 86400000, |a.files|, now);
    var b := AfterAge(locks, p, now, a);
    LimitCounts(locks, AtMost(p.maxTotal), b, 0, now);
    var c := AfterSize(locks, p, b);
    LimitCounts(locks, FreeAtLeast(p.minFree), c, 0, now);
  }

  lemma {:induction false} SoundTotal(locks: nat -> bool, r: State, a: State, found: seq<Found>, now: int, free: nat)
    requires Sound(locks, r, found, now, free) && Sound(locks, a, found, now, free)
    ensures r.freed + Kept(r.files) == Total(r.files) && Total(r.files) == Total(a.files)
  {
    SumsAdd(r.files);
    SameTotal(r.files, a.files) by {
      forall i | 0 <= i < |r.files| ensures r.files[i].size == a.files[i].size {
        assert Same(locks, r.files[i], found[i], now, i) && Same(locks, a.files[i], found[i], now, i);
      }
    }
    hide Kept, Gone, CountGone, Total;
  }

  lemma {:induction false} SameTotal(a: seq<RecFile>, b: seq<RecFile>)
    requires |a| == |b| && forall i :: 0 <= i < |a| ==> a[i].size == b[i].size
    ensures Total(a) == Total(b)
    decreases |a|
  {
    if a != [] {
      SameTotal(a[..|a| - 1], b[..|b| - 1]);
    }
  }

  // ------------------------------------------------------------ the shortest prefix, oldest first

  /** What deleting the eligible files from `i` up to `k` that the system lets go frees. */
  function Freeable(locks: nat -> bool, files: seq<RecFile>, i: nat, k: nat): nat
    requires k <= |files|
    decreases k
  {
    if k <= i then 0
    else Freeable(locks, files, i, k - 1) + (if Eligible(files[k - 1]) && !locks(k - 1) then files[k - 1].size else 0)
  }

  /** Whether the limit is met once `freed` more bytes are gone. */
  predicate MetWith(l: Limit, st: State, freed: nat) {
    match l case AtMost(b) => st.total - freed <= b case FreeAtLeast(b) => st.avail + freed >= b
  }

  lemma {:induction false} FreeableNext(locks: nat -> bool, a: seq<RecFile>, b: seq<RecFile>, i: nat, k: nat)
    requires i < k <= |a| && |a| == |b| && forall j :: i < j < |a| ==> a[j] == b[j]
    ensures Freeable(locks, a, i, k) == (if Eligible(a[i]) && !locks(i) then a[i].size
      else 0) + Freeable(locks, b, i + 1, k)
    decreases k
  {
    if k > i + 1 {
      FreeableNext(locks, a, b, i, k - 1);
    }
  }

  /** What a phase does to file `j` when it tries the files from `i` up to `k`. */
  predicate Tried(locks: nat -> bool, f: RecFile, r: RecFile, i: nat, k: nat, j: nat) {
    if i <= j < k && Eligible(f) then r == (if locks(j) then f.(skip := true) else f.(deleted := true)) else r == f
  }

  /** The phase stops at the first file before which enough was freed, or after the last. */
  ghost predicate Least(locks: nat -> bool, l: Limit, st: State, i: nat, k: nat)
    requires i <= k <= |st.files|
  {
    (forall j :: i <= j < k ==> !MetWith(l, st, Freeable(locks, st.files, i, j)))
    && (k < |st.files| ==> MetWith(l, st, Freeable(locks, st.files, i, k)))
  }

  lemma {:induction false} DropShape(locks: nat -> bool, st: State, i: nat)
    requires i < |st.files| && st.total == Kept(st.files)
    ensures var r := Drop(locks, st, i);
      var x := if Eligible(st.files[i]) && !locks(i) then st.files[i].size else 0;
      x <= st.total && r.total == st.total - x && r.avail == st.avail + x && r.total == Kept(r.files)
      && (forall j :: 0 <= j < |st.files| ==> Tried(locks, st.files[j], r.files[j], i, i + 1, j))
  {
    if Eligible(st.files[i]) {
      SumsOfUpdate(st.files, i, Drop(locks, st, i).files[i]);
    }
    hide Kept;
  }

  /**
   A phase by size or by space tries exactly the shortest oldest-first stretch of files whose eligible
   members, less those refused, free enough; and when even all of them do not, it tries all.
   */
  lemma {:induction false} PhaseIsShortest(locks: nat -> bool, l: Limit, st: State, i: nat) returns (k: nat)
    requires i <= |st.files| && st.total == Kept(st.files)
    ensures i <= k <= |st.files| && Least(locks, l, st, i, k)
    ensures var r := LimitPhase(locks, l, st, i);
      (forall j :: 0 <= j < |st.files| ==> Tried(locks, st.files[j], r.files[j], i, k, j))
      && Freeable(locks, st.files, i, k) <= st.total && r.total == st.total - Freeable(locks, st.files, i, k)
      && r.avail == st.avail + Freeable(locks, st.files, i, k) && r.total == Kept(r.files)
    decreases |st.files| - i
  {
    if i >= |st.files| || Met(l, st) {
      return i;
    }
    var d := Drop(locks, st, i);
    DropShape(locks, st, i);
    hide Drop, Kept, Eligible;
    k := PhaseIsShortest(locks, l, d, i + 1);
    hide LimitPhase;
    forall j | i < j <= |st.files|
      ensures Freeable(locks, st.files, i, j) == (if Eligible(st.files[i]) && !locks(i) then st.files[i].size
        else 0) + Freeable(locks, d.files, i + 1, j)
    {
      FreeableNext(locks, st.files, d.files, i, j);
    }
    LeastNext(locks, l, st, d, i, k);
  }

  lemma {:induction false} LeastNext(locks: nat -> bool, l: Limit, st: State, d: State, i: nat, k: nat)
    requires |d.files| == |st.files| && i < k <= |st.files| && !Met(l, st) && Least(locks, l, d, i + 1, k)
    requires var x := if Eligible(st.files[i]) && !locks(i) then st.files[i].size else 0;
      x <= st.total && d.total == st.total - x && d.avail == st.avail + x
      && forall j :: i < j <= |st.files| ==> Freeable(locks, st.files, i, j) == x + Freeable(locks, d.files, i + 1, j)
    ensures Least(locks, l, st, i, k)
  {
    assert Freeable(locks, st.files, i, i) == 0;
    hide Freeable, Eligible;
    forall j | i <= j < k
      ensures !MetWith(l, st, Freeable(locks, st.files, i, j))
    {
      if j > i {
        assert !MetWith(l, d, Freeable(locks, d.files, i + 1, j));
      }
    }
  }

  ghost predicate NoneEligible(files: seq<RecFile>) {
    forall i :: 0 <= i < |files| ==> !Eligible(files[i])
  }

  /** If the limit is still violated after its phase, nothing that may be deleted is left. */
  lemma {:induction false} ViolatedMeansNoneLeft(locks: nat -> bool, l: Limit, st: State)
    requires st.total == Kept(st.files) && !Met(l, LimitPhase(locks, l, st, 0))
    ensures NoneEligible(LimitPhase(locks, l, st, 0).files)
  {
    hide LimitPhase, Kept, Freeable;
    var k := PhaseIsShortest(locks, l, st, 0);
    var r := LimitPhase(locks, l, st, 0);
    assert k == |st.files|;
    forall i | 0 <= i < |r.files|
      ensures !Eligible(r.files[i])
    {
      assert Tried(locks, st.files[i], r.files[i], 0, k, i);
    }
  }

  /** The age phase tries exactly the files written before the cutoff. */
  lemma {:induction false} AgeIsExact(locks: nat -> bool, st: State, cutoff: int, n: nat)
    requires n <= |st.files| && st.total == Kept(st.files)
    ensures var r := AgePhase(locks, st, cutoff, n);
      r.total == Kept(r.files)
      && forall j :: 0 <= j < |st.files| ==> Tried(locks, st.files[j], r.files[j], j, if st.files[j].written < cutoff
        && j < n then j + 1 else j, j)
    decreases n
  {
    hide Drop, Kept, Tried, Eligible;
    forall f, j | 0 <= j < |st.files|
      ensures Tried(locks, f, f, j, j, j)
    {
      NotTried(locks, f, j);
    }
    if n > 0 {
      AgeIsExact(locks, st, cutoff, n - 1);
      var before := AgePhase(locks, st, cutoff, n - 1);
      DropShape(locks, before, n - 1);
      forall j | 0 <= j < |st.files|
        ensures Tried(locks, st.files[j], AgePhase(locks, st, cutoff, n).files[j], j, if st.files[j].written < cutoff
          && j < n then j + 1 else j, j)
      {
        OneTry(locks, st.files[j], before.files[j], Drop(locks, before, n - 1).files[j], cutoff, n, j);
      }
    }
  }

  lemma {:induction false} NotTried(locks: nat -> bool, f: RecFile, j: nat)
    ensures Tried(locks, f, f, j, j, j)
  {
  }

  /**
   File `j` after the first `n` files, from what it is after the first `n - 1` and what trying the next makes
   of it.
   */
  lemma {:induction false} OneTry(locks: nat -> bool, f: RecFile, b: RecFile, d: RecFile, cutoff: int, n: nat, j: nat)
    requires n > 0 && Tried(locks, f, b, j, if f.written < cutoff && j < n - 1 then j + 1 else j, j)
    requires Tried(locks, b, d, n - 1, n, j)
    ensures b.written == f.written
    ensures Tried(locks, f, if j == n - 1 && f.written >= cutoff then b else d, j, if f.written < cutoff
      && j < n then j + 1 else j, j)
  {
  }

  /** With nothing eligible, a phase changes nothing. */
  lemma {:induction false} NothingToDo(locks: nat -> bool, l: Limit, st: State, i: nat)
    requires i <= |st.files| && NoneEligible(st.files)
    ensures LimitPhase(locks, l, st, i) == st
    decreases |st.files| - i
  {
    if i < |st.files| && !Met(l, st) {
      assert !Eligible(st.files[i]);
      NothingToDo(locks, l, st, i + 1);
    }
  }

  lemma {:induction false} PhaseOnlyFrees(locks: nat -> bool, l: Limit, st: State)
    requires st.total == Kept(st.files)
    ensures var r := LimitPhase(locks, l, st, 0); r.total == Kept(r.files) && r.total <= st.total && r.avail >= st.avail
  {
    hide LimitPhase, Kept, Freeable;
    var k := PhaseIsShortest(locks, l, st, 0);
  }

  // ------------------------------------------------------------ what a sweep does, told on what it finds

  /** Out of its grace period, and the system lets it go. */
  predicate Deletable(locks: nat -> bool, now: int, found: seq<Found>, i: nat) {
    i < |found| && found[i].written <= now - GRACE_MS && !locks(i)
  }

  predicate Expired(p: Policy, now: int, f: Found) {
    p.maxDays > 0 && f.written < now - p.maxDays * 86400000
  }

  function FoundTotal(found: seq<Found>): nat {
    if found == [] then 0 else FoundTotal(found[..|found| - 1]) + found[|found| - 1].size
  }

  predicate OverSize(p: Policy, found: seq<Found>) {
    p.maxTotal > 0 && FoundTotal(found) > p.maxTotal
  }

  /** Its deletion by age or by size would give space back before the phase by space. */
  predicate FreesEarly(locks: nat -> bool, p: Policy, now: int, found: seq<Found>, i: nat) {
    Deletable(locks, now, found, i) && found[i].size > 0 && (Expired(p, now, found[i]) || OverSize(p, found))
  }

  /** Some space is known to be free, or is given back early. */
  ghost predicate SpaceKnown(locks: nat -> bool, p: Policy, now: int, found: seq<Found>, free: nat) {
    free > 0 || exists i: nat :: FreesEarly(locks, p, now, found, i)
  }

  function BeforeSpace(locks: nat -> bool, p: Policy, now: int, found: seq<Found>, free: nat): State {
    AfterSize(locks, p, AfterAge(locks, p, now, Start(found, now, free)))
  }

  lemma {:induction false} StartTotal(found: seq<Found>, files: seq<RecFile>)
    requires |files| == |found| && forall i :: 0 <= i < |found| ==> files[i].size == found[i].size
    ensures Total(files) == FoundTotal(found)
    decreases |found|
  {
    if found != [] {
      StartTotal(found[..|found| - 1], files[..|files| - 1]);
    }
  }

  lemma {:induction false} GoneIsSome(files: seq<RecFile>)
    ensures Gone(files) > 0 <==> exists i :: 0 <= i < |files| && files[i].deleted && files[i].size > 0
    decreases |files|
  {
    if files != [] {
      var n := |files| - 1;
      GoneIsSome(files[..n]);
      assert forall i :: 0 <= i < n ==> files[..n][i] == files[i];
    }
  }

  /** After the age phase, file by file: exactly the expired are deleted or, if the system refuses, passed over. */
  lemma {:induction false} AgeTells(locks: nat -> bool, p: Policy, now: int, found: seq<Found>, free: nat)
    ensures var b := AfterAge(locks, p, now, Start(found, now, free));
      Sound(locks, b, found, now, free)
      && forall i :: 0 <= i < |found| ==>
        (b.files[i].deleted <==> Deletable(locks, now, found, i) && Expired(p, now, found[i]))
        && (Eligible(b.files[i]) <==> found[i].written <= now - GRACE_MS && !Expired(p, now, found[i]))
  {
    var a := Start(found, now, free);
    StartSound(locks, found, now, free);
    SoundHas(locks, a, found, now, free);
    var cutoff := now - p.maxDays * 86400000;
    AgeSound(locks, a, cutoff, |a.files|, found, now, free);
    AgeIsExact(locks, a, cutoff, |a.files|);
    hide Sound, AgePhase, Kept;
  }

  /** What the phase by size does to what the age phase left. */
  lemma {:induction false} SizeTells(locks: nat -> bool, p: Policy, b: State, found: seq<Found>, now: int,
      free: nat) returns (k: nat)
    requires Sound(locks, b, found, now, free)
    ensures var c := AfterSize(locks, p, b);
      Sound(locks, c, found, now, free) && k <= |found|
      && (forall i :: 0 <= i < |found| ==> Tried(locks, b.files[i], c.files[i], 0, k, i))
      && c.total <= b.total && (k > 0 ==> p.maxTotal > 0 && b.total > p.maxTotal)
      && (k < |found| && p.maxTotal > 0 ==> c.total <= p.maxTotal)
  {
    SoundHas(locks, b, found, now, free);
    k := 0;
    if p.maxTotal > 0 {
      LimitSound(locks, AtMost(p.maxTotal), b, 0, found, now, free);
      k := PhaseIsShortest(locks, AtMost(p.maxTotal), b, 0);
      assert k > 0 ==> !MetWith(AtMost(p.maxTotal), b, Freeable(locks, b.files, 0, 0));
    }
    hide LimitPhase, Kept, Gone, CountGone;
  }

  /** Kept and gone make up what was found, whatever the phase. */
  lemma {:induction false} SoundSums(locks: nat -> bool, st: State, found: seq<Found>, now: int, free: nat)
    requires Sound(locks, st, found, now, free)
    ensures st.total + st.freed == FoundTotal(found) && st.avail == free + st.freed
    ensures st.freed > 0 <==> exists i :: 0 <= i < |st.files| && st.files[i].deleted && st.files[i].size > 0
    ensures forall i :: 0 <= i < |found| ==> st.files[i].size == found[i].size
  {
    assert forall i :: 0 <= i < |found| ==> Same(locks, st.files[i], found[i], now, i);
    SumsAdd(st.files);
    StartTotal(found, st.files);
    GoneIsSome(st.files);
    hide Kept, Gone, CountGone, Total, FoundTotal;
  }

  /**
   Exactly when the phase by space runs, told before the sweep: if and only if the free space was read as
   more than zero, or some file with bytes in it will go by age or by size. A full disk, and one whose free
   space cannot be read, count as zero; the test comes after the bytes freed so far were added.
   */
  lemma {:induction false} SpacePhaseRuns(locks: nat -> bool, p: Policy, now: int, found: seq<Found>, free: nat)
    ensures BeforeSpace(locks, p, now, found, free).avail > 0 <==> SpaceKnown(locks, p, now, found, free)
  {
    var b := AfterAge(locks, p, now, Start(found, now, free));
    AgeTells(locks, p, now, found, free);
    var k := SizeTells(locks, p, b, found, now, free);
    var c := AfterSize(locks, p, b);
    SoundSums(locks, b, found, now, free);
    SoundSums(locks, c, found, now, free);
    hide Sound, AfterAge, AfterSize, FoundTotal;
    if free == 0 && c.freed > 0 {
      var i :| 0 <= i < |c.files| && c.files[i].deleted && c.files[i].size > 0;
      assert Tried(locks, b.files[i], c.files[i], 0, k, i);
      assert FreesEarly(locks, p, now, found, i);
    }
    if i: nat :| FreesEarly(locks, p, now, found, i) {
      assert Tried(locks, b.files[i], c.files[i], 0, k, i);
      assert b.files[i].deleted || Eligible(b.files[i]);
      assert c.freed > 0;
    }
  }

  /**
   Exactly when the free space stays below its limit although files that may be deleted are left: if and
   only if nothing is known to be free, no early phase gives space back, the size is within its limit, and
   some file out of its grace period has not expired. Only a reading of zero does it.
   */
  lemma {:induction false} SpaceStaysShort(locks: nat -> bool, p: Policy, now: int, found: seq<Found>, free: nat)
    requires p.minFree > 0
    ensures var r := Sweep(locks, p, now, found, free);
      r.avail < p.minFree && !NoneEligible(r.files) <==>
      !SpaceKnown(locks, p, now, found, free) && !OverSize(p, found)
      && exists i :: 0 <= i < |found| && found[i].written <= now - GRACE_MS && !Expired(p, now, found[i])
  {
    var b := AfterAge(locks, p, now, Start(found, now, free));
    AgeTells(locks, p, now, found, free);
    var k := SizeTells(locks, p, b, found, now, free);
    var c := AfterSize(locks, p, b);
    SoundSums(locks, b, found, now, free);
    SoundSums(locks, c, found, now, free);
    SoundHas(locks, c, found, now, free);
    SpacePhaseRuns(locks, p, now, found, free);
    if c.avail > 0 && Sweep(locks, p, now, found, free).avail < p.minFree {
      ViolatedMeansNoneLeft(locks, FreeAtLeast(p.minFree), c);
    }
    hide Sound, AfterAge, AfterSize, FoundTotal, LimitPhase, SpaceKnown, Kept;
    if c.avail == 0 {
      forall i | 0 <= i < |found|
        ensures Eligible(c.files[i])
          <==> !OverSize(p, found) && found[i].written <= now - GRACE_MS && !Expired(p, now, found[i])
      {
        assert Tried(locks, b.files[i], c.files[i], 0, k, i);
      }
    }
  }

  /**
   After a sweep: if what is kept is still over the size limit, or the free space still short although some
   was known to be free, then everything kept is in its grace period or refused by the system.
   */
  lemma {:induction false} SweepDoesAllItMay(locks: nat -> bool, p: Policy, now: int, found: seq<Found>, free: nat)
    ensures var r := Sweep(locks, p, now, found, free);
      (p.maxTotal > 0 && Kept(r.files) > p.maxTotal ==> NoneEligible(r.files))
      && (p.minFree > 0 && SpaceKnown(locks, p, now, found, free) && r.avail < p.minFree ==> NoneEligible(r.files))
  {
    if p.minFree > 0 {
      SpaceStaysShort(locks, p, now, found, free);
    }
    hide Sound, AgePhase, LimitPhase, Start, Kept, SpaceKnown;
    var a := Start(found, now, free);
    assert a.total == Kept(a.files) by { StartSound(locks, found, now, free); SoundHas(locks, a, found, now, free); }
    AgeIsExact(locks, a, now - p.maxDays * 86400000, |a.files|);
    var b := AfterAge(locks, p, now, a);
    PhaseOnlyFrees(locks, AtMost(p.maxTotal), b);
    var c := AfterSize(locks, p, b);
    PhaseOnlyFrees(locks, FreeAtLeast(p.minFree), c);
    var r := AfterSpace(locks, p, c);
    if p.maxTotal > 0 && Kept(r.files) > p.maxTotal {
      ViolatedMeansNoneLeft(locks, AtMost(p.maxTotal), b);
      NothingToDo(locks, FreeAtLeast(p.minFree), c, 0);
    }
  }

  predicate OldestFirst(found: seq<Found>) {
    forall i, j :: 0 <= i < j < |found| ==> found[i].written <= found[j].written
  }

  /** What went is no newer than anything that could still go. */
  ghost predicate OldestGone(files: seq<RecFile>) {
    forall i, j :: 0 <= i < |files| && 0 <= j < |files| && files[i].deleted && Eligible(files[j])
      ==> files[i].written <= files[j].written
  }

  lemma {:induction false} TriedOldest(locks: nat -> bool, a: seq<RecFile>, b: seq<RecFile>, k: nat)
    requires |a| == |b| && OldestGone(a) && forall j :: 0 <= j < |a| ==> Tried(locks, a[j], b[j], 0, k, j)
    requires forall i, j :: 0 <= i < j < |a| ==> a[i].written <= a[j].written
    ensures OldestGone(b) && forall j :: 0 <= j < |a| ==> b[j].written == a[j].written
  {
    forall i, j | 0 <= i < |b| && 0 <= j < |b| && b[i].deleted && Eligible(b[j])
      ensures b[i].written <= b[j].written
    {
      assert Tried(locks, a[i], b[i], 0, k, i) && Tried(locks, a[j], b[j], 0, k, j);
    }
  }

  /**
   A whole sweep of files listed from the oldest on: whatever went is no newer than any file kept that could
   have gone.
   */
  lemma {:induction false} SweepTakesOldest(locks: nat -> bool, p: Policy, now: int, found: seq<Found>, free: nat)
    requires OldestFirst(found)
    ensures OldestGone(Sweep(locks, p, now, found, free).files)
  {
    var b := AfterAge(locks, p, now, Start(found, now, free));
    AgeTells(locks, p, now, found, free);
    forall i | 0 <= i < |found| ensures b.files[i].written == found[i].written {
      assert Same(locks, b.files[i], found[i], now, i);
    }
    var k := SizeTells(locks, p, b, found, now, free);
    var c := AfterSize(locks, p, b);
    SoundHas(locks, c, found, now, free);
    hide Sound, AfterAge, AfterSize, LimitPhase, Kept, Tried;
    TriedOldest(locks, b.files, c.files, k);
    if p.minFree > 0 && c.avail > 0 {
      var n := PhaseIsShortest(locks, FreeAtLeast(p.minFree), c, 0);
      TriedOldest(locks, c.files, LimitPhase(locks, FreeAtLeast(p.minFree), c, 0).files, n);
    }
  }

  lemma {:induction false} SoundHas(locks: nat -> bool, st: State, found: seq<Found>, now: int, free: nat)
    requires Sound(locks, st, found, now, free)
    ensures st.total == Kept(st.files)
  {
  }

  // ------------------------------------------------------------ an unknown free space

  /** A full disk: with nothing free and no other limit, a sweep meant to free space deletes nothing. */
  lemma {:induction false} FullDiskKept(locks: nat -> bool, p: Policy, now: int, found: seq<Found>)
    requires p.minFree > 0 && p.maxDays <= 0 && p.maxTotal == 0
    ensures Sweep(locks, p, now, found, 0) == Start(found, now, 0)
  {
  }

  /** So with an unknown free space, one expired file makes a recording that no limit touches go as well. */
  lemma {:induction false} UnknownSpaceDeletes()
    ensures var p, now := Policy(1, 0, 1000), 200_000_000;
      var found := [Found(1, 0), Found(500, 150_000_000)];
      var r := Sweep(_ => false, p, now, found, 0);
      r.deleted == 2 && Sweep(_ => false, p, now, [found[1]], 0).deleted == 0
  {
    var locks: nat -> bool := _ => false;
    var p, now := Policy(1, 0, 1000), 200_000_000;
    var one, two := RecFile(1, 0, false, false), RecFile(500, 150_000_000, false, false);
    var found := [Found(1, 0), Found(500, 150_000_000)];
    var a := Start(found, now, 0);
    assert a.files == [one, two];
    TwoFiles(locks, one, two);
    OneFile(locks, two);
    assert Start([found[1]], now, 0).files == [two];
  }

  lemma {:induction false} TwoFiles(locks: nat -> bool, one: RecFile, two: RecFile)
    requires one == RecFile(1, 0, false, false) && two == RecFile(500, 150_000_000, false, false) && !locks(0)
      && !locks(1)
    ensures Total([one, two]) == 501
    ensures AfterAge(locks, Policy(1, 0, 1000), 200_000_000, State([one, two], 501, 0, 0, 0, 0))
      == State([one.(deleted := true), two], 500, 1, 1, 1, 0)
    ensures LimitPhase(locks, FreeAtLeast(1000), State([one.(deleted := true), two], 500, 1, 1, 1, 0), 0).deleted == 2
  {
    assert [one, two][..1] == [one] && [one][..0] == [];
    assert Total([one]) == 1;
    var st := State([one, two], 501, 0, 0, 0, 0);
    assert AgePhase(locks, st, 113_600_000, 0) == st;
    assert AgePhase(locks, st, 113_600_000, 1) == State([one.(deleted := true), two], 500, 1, 1, 1, 0);
    var s := State([one.(deleted := true), two], 500, 1, 1, 1, 0);
    assert Drop(locks, s, 0) == s;
    assert Drop(locks, s, 1).deleted == 2;
    assert LimitPhase(locks, FreeAtLeast(1000), Drop(locks, s, 1), 2).deleted == 2;
    assert LimitPhase(locks, FreeAtLeast(1000), s, 1).deleted == 2;
  }

  lemma {:induction false} OneFile(locks: nat -> bool, two: RecFile)
    requires two == RecFile(500, 150_000_000, false, false)
    ensures Total([two]) == 500
    ensures AfterAge(locks, Policy(1, 0, 1000), 200_000_000, State([two], 500, 0, 0, 0, 0))
      == State([two], 500, 0, 0, 0, 0)
  {
    assert [two][..0] == [];
    var st := State([two], 500, 0, 0, 0, 0);
    assert AgePhase(locks, st, 113_600_000, 0) == st;
  }

  // ------------------------------------------------------------ the sweep itself

  datatype Result = Result(deleted: nat, freed: nat, keptFiles: nat, keptBytes: nat, locked: nat, short: bool,
      oldestKept: int)

  /** The first file kept whose instant is known. */
  function OldestKept(files: seq<RecFile>, n: nat): int
    requires n <= |files|
  {
    if n == 0 then 0
    else
      var before := OldestKept(files, n - 1);
      if before == 0 && !files[n - 1].deleted then files[n - 1].written else before
  }

  /** The first file kept whose instant is known: what was pruned may go up to it. */
  lemma {:induction false} OldestKeptTells(files: seq<RecFile>, n: nat)
    requires n <= |files|
    ensures var oldest := OldestKept(files, n);
      if oldest == 0 then forall k :: 0 <= k < n && !files[k].deleted ==> files[k].written == 0
      else
        exists k :: 0 <= k < n && !files[k].deleted && files[k].written == oldest
          && forall j :: 0 <= j < k && !files[j].deleted ==> files[j].written == 0
    decreases n
  {
    if n > 0 {
      OldestKeptTells(files, n - 1);
    }
  }

  lemma {:induction false} CountKept(files: seq<RecFile>, n: nat)
    requires n < |files|
    ensures var f := files[n];
      Kept(files[..n + 1]) == Kept(files[..n]) + (if f.deleted then 0 else f.size)
      && CountGone(files[..n + 1]) == CountGone(files[..n]) + (if f.deleted then 1 else 0)
  {
    assert files[..n + 1][..n] == files[..n];
  }

  class Sweeper {
    const locks: nat -> bool
    var files: seq<RecFile>
    var total: nat
    var avail: nat
    var deleted: nat
    var freed: nat
    var locked: nat

    ghost function Now(): State
      reads this
    {
      State(files, total, avail, deleted, freed, locked)
    }

    constructor (found: seq<Found>, now: int, free: nat, refused: nat -> bool)
      ensures Now() == Start(found, now, free) && locks == refused
    {
      locks := refused;
      files := seq(|found|, i requires 0 <= i < |found| => Listed(found[i].size, found[i].written, now));
      total := Total(seq(|found|, i requires 0 <= i < |found| => Listed(found[i].size, found[i].written, now)));
      avail, deleted, freed, locked := free, 0, 0, 0;
    }

    method Remove(i: nat)
      requires i < |files|
      modifies this
      ensures Now() == Drop(locks, old(Now()), i)
    {
      var f := files[i];
      if f.deleted || f.skip {
        return;
      }
      if locks(i) {
        files := files[i := f.(skip := true)];
        locked := locked + 1;
        return;
      }
      files := files[i := f.(deleted := true)];
      deleted := deleted + 1;
      freed := freed + f.size;
      total := if total >= f.size then total - f.size else 0;
      avail := avail + f.size;
    }

    method ByAge(cutoff: int)
      modifies this
      ensures Now() == AgePhase(locks, old(Now()), cutoff, |old(files)|)
    {
      hide Drop;
      for i := 0 to |files|
        invariant Now() == AgePhase(locks, old(Now()), cutoff, i) && |files| == |old(files)|
      {
        if files[i].written < cutoff {
          Remove(i);
        }
      }
    }

    method ByLimit(l: Limit)
      modifies this
      ensures Now() == LimitPhase(locks, l, old(Now()), 0)
    {
      hide Drop;
      for i := 0 to |files|
        invariant |files| == |old(files)| && LimitPhase(locks, l, Now(), i) == LimitPhase(locks, l, old(Now()), 0)
      {
        var met := match l case AtMost(b) => total <= b case FreeAtLeast(b) => avail >= b;
        if met {
          break;
        }
        Remove(i);
      }
    }

    /** One sweep of freshly listed files; with every limit off, or no file, nothing happens and nothing is counted. */
    method Run(p: Policy, now: int) returns (r: Result)
      modifies this
      ensures (p.maxDays <= 0 && p.maxTotal == 0 && p.minFree == 0) || old(files) == [] ==>
        Now() == old(Now()) && r == Result(0, 0, 0, 0, 0, false, 0)
      ensures (p.maxDays > 0 || p.maxTotal > 0 || p.minFree > 0) && old(files) != [] ==>
        var end := AfterSpace(locks, p, AfterSize(locks, p, AfterAge(locks, p, now, old(Now()))));
        Now() == end
        && r.deleted == end.deleted && r.freed == end.freed && r.locked == end.locked
        && r.keptBytes == Kept(end.files) && r.keptFiles + CountGone(end.files) == |end.files|
        && r.oldestKept == OldestKept(end.files, |end.files|)
        && (r.short
          <==> p.minFree > 0 && AfterSize(locks, p, AfterAge(locks, p, now, old(Now()))).avail > 0
               && end.avail < p.minFree)
    {
      hide AgePhase, LimitPhase, Kept, CountGone, OldestKept;
      if !(p.maxDays > 0 || p.maxTotal > 0 || p.minFree > 0) {
        return Result(0, 0, 0, 0, 0, false, 0);
      }
      if files == [] {
        return Result(0, 0, 0, 0, 0, false, 0);
      }
      if p.maxDays > 0 {
        ByAge(now - p.maxDays * 86400000);
      }
      if p.maxTotal > 0 {
        ByLimit(AtMost(p.maxTotal));
      }
      var short := false;
      if p.minFree > 0 && avail > 0 {
        ByLimit(FreeAtLeast(p.minFree));
        short := avail < p.minFree;
      }
      var keptFiles, keptBytes, oldest := CountUp();
      r := Result(deleted, freed, keptFiles, keptBytes, locked, short, oldest);
    }

    method CountUp() returns (keptFiles: nat, keptBytes: nat, oldest: int)
      ensures keptBytes == Kept(files) && keptFiles + CountGone(files) == |files|
        && oldest == OldestKept(files, |files|)
    {
      hide Kept, CountGone;
      keptFiles, keptBytes, oldest := 0, 0, 0;
      assert Kept(files[..0]) == 0 && CountGone(files[..0]) == 0 by { NothingKept(); }
      for i := 0 to |files|
        invariant keptBytes == Kept(files[..i]) && keptFiles + CountGone(files[..i]) == i
          && oldest == OldestKept(files, i)
      {
        CountKept(files, i);
        if !files[i].deleted {
          keptFiles := keptFiles + 1;
          keptBytes := keptBytes + files[i].size;
          if oldest == 0 {
            oldest := files[i].written;
          }
        }
      }
      assert files[..|files|] == files;
    }
  }

  lemma {:induction false} NothingKept()
    ensures Kept([]) == 0 && CountGone([]) == 0
  {
  }
}
