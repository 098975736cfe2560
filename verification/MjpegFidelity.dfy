/** Whether a picture sent over RTP is, when it comes back, the picture it was: both read in the same way. */
module MjpegFidelity {
  import opened Bytes
  import opened JpegHeader
  import opened Mjpeg
  import Rtp

  // ------------------------------------------------------------ what the sender reads is what the picture says

  /** Size and kind are those of the frame; the kind tells one sampling from all others. */
  predicate Agrees(m: Meta, f: Frame) {
    m.width == f.width && m.height == f.height && f.width < 65536 && f.height < 65536
    && (f.count >= 1 && |f.parts| >= 2 ==> m.kind % 64 == (if f.parts[1] == 0x22 then 1 else 0))
  }

  lemma {:induction false} TablesAreEntries(d: seq<byte>, t: nat, n: nat, end: nat)
    requires TablesOf(d, t, n).Some? && t + 65 * n <= end < t + 65 * n + 65 && end <= |d|
    ensures TablesOf(d, t, n).value == Joined(Entries(d[t..end]))
    decreases n
  {
    var body := d[t..end];
    if n > 0 {
      InSlice(d, t, end, 1, 65);
      TablesAreEntries(d, t + 65, n - 1, end);
      EntriesHead(body);
      hide Entries;
    }
  }

  lemma {:induction false} InSlice(d: seq<byte>, from: nat, to: nat, i: nat, j: nat)
    requires from + j <= to <= |d| && i <= j
    ensures d[from..to][i..j] == d[from + i..from + j] && d[from..to][j..] == d[from + j..to]
  {
    var s := d[from..to];
    assert forall k :: i <= k < j ==> s[k] == d[from + k];
    assert s[i..j] == d[from + i..from + j];
    assert s[j..] == d[from + j..to];
  }

  lemma {:induction false} EntriesHead(body: seq<byte>)
    requires |body| >= 65
    ensures Joined(Entries(body)) == body[1..65] + Joined(Entries(body[65..]))
  {
    var es := Entries(body);
    assert es[1..] == Entries(body[65..]);
  }

  lemma {:induction false} JoinedAppend(a: seq<Table>, b: seq<Table>)
    ensures Joined(a + b) == Joined(a) + Joined(b)
    decreases |a|
  {
    if a == [] {
      assert a + b == b;
    } else {
      assert (a + b)[1..] == a[1..] + b;
      JoinedAppend(a[1..], b);
      ConcatAssociative(a[0].values, Joined(a[1..]), Joined(b));
    }
  }

  /** The body of a segment, once its place is known. */
  function BodyAt(d: seq<byte>, g: Seg): seq<byte>
    requires g.at + g.len <= |d| && g.len >= 2
  {
    d[g.at + 2..g.at + g.len]
  }

  /** What one segment adds to what the sender knows. */
  lemma {:induction false} SegmentTells(d: seq<byte>, g: Seg, m: Meta, f: Frame)
    requires g.at + g.len <= |d| && g.len >= 2 && Segment(d, g.code, g.at, g.len, m).Some? && Agrees(m, f)
      && m.kind <= 1
    ensures var n, body := Segment(d, g.code, g.at, g.len, m).value, BodyAt(d, g);
      n.kind <= 1 && n.tables == m.tables + (if g.code == 0xDB then Joined(Entries(body)) else [])
      && n.restart == (if g.code == 0xDD && |body| == 2 then FromBe16(body, 0) else m.restart)
      && Agrees(n, if g.code == 0xC0 && |body| >= 6 then FrameIn(body) else f)
  {
    var body, n := BodyAt(d, g), Segment(d, g.code, g.at, g.len, m).value;
    if g.code == 0xC0 {
      FrameTells(d, g, m, n);
      assert m.tables + [] == m.tables;
    } else {
      OtherTells(d, g, m, n);
    }
    hide *;
  }

  /** Segments other than frame headers leave size and kind. */
  lemma {:induction false} OtherTells(d: seq<byte>, g: Seg, m: Meta, n: Meta)
    requires g.at + g.len <= |d| && g.len >= 2 && g.code != 0xC0 && Segment(d, g.code, g.at, g.len, m) == Some(n)
    ensures n.width == m.width && n.height == m.height && n.kind == m.kind
    ensures n.tables == m.tables + (if g.code == 0xDB then Joined(Entries(BodyAt(d, g))) else [])
    ensures n.restart == (if g.code == 0xDD && |BodyAt(d, g)| == 2 then FromBe16(BodyAt(d, g), 0) else m.restart)
  {
    var body := BodyAt(d, g);
    if g.code == 0xDB {
      TablesAreEntries(d, g.at + 2, (g.len - 2) / 65, g.at + g.len);
    } else {
      assert m.tables + [] == m.tables;
      if g.code == 0xDD {
        assert body[0] == d[g.at + 2] && body[1] == d[g.at + 3];
      }
    }
    hide TablesOf, Entries, Joined;
  }

  lemma {:induction false} FrameTells(d: seq<byte>, g: Seg, m: Meta, n: Meta)
    requires g.at + g.len <= |d| && g.len >= 2 && g.code == 0xC0 && Segment(d, g.code, g.at, g.len, m) == Some(n)
    ensures var body := BodyAt(d, g);
      n.kind <= 1 && n.tables == m.tables && n.restart == m.restart && |body| >= 6 && Agrees(n, FrameIn(body))
  {
    var body := BodyAt(d, g);
    assert body[1] == d[g.at + 3] && body[2] == d[g.at + 4] && body[3] == d[g.at + 5] && body[4] == d[g.at + 6];
    assert body[5] == d[g.at + 7] && (|body| >= 8 ==> body[6..][1] == d[g.at + 9]);
    hide TablesOf;
  }

  /** The sender has read all that the segments `ps` say, after what it knew. */
  ghost predicate ReadAs(n: Meta, m: Meta, f: Frame, ps: seq<Part>) {
    n.tables == m.tables + Joined(TableList(ps)) && n.restart == RestartOf(ps, m.restart) && Agrees(n, FrameOf(ps, f))
  }

  lemma {:induction false} ReadLast(n: Meta, m: Meta, f: Frame, p: Part)
    requires Agrees(m, f) && m.kind <= 1 && p.code == 0xDA
    requires n.width == m.width && n.height == m.height && n.tables == m.tables && n.restart == m.restart
    requires n.kind == m.kind || n.kind == m.kind % 64 + 64
    ensures ReadAs(n, m, f, [p])
  {
    assert [p][1..] == [] && TableList([p]) == [] + TableList([]);
    assert m.tables + [] == m.tables;
  }

  lemma {:induction false} ReadNext(k: Meta, n: Meta, m: Meta, f: Frame, p: Part, more: seq<Part>)
    requires var e := if p.code == 0xC0 && |p.body| >= 6 then FrameIn(p.body) else f; ReadAs(k, n, e, more)
    requires n.tables == m.tables + (if p.code == 0xDB then Joined(Entries(p.body)) else [])
    requires n.restart == (if p.code == 0xDD && |p.body| == 2 then FromBe16(p.body, 0) else m.restart)
    ensures ReadAs(k, m, f, [p] + more)
  {
    var ps := [p] + more;
    assert ps[1..] == more;
    var here := if p.code == 0xDB then Entries(p.body) else [];
    assert TableList(ps) == here + TableList(more);
    JoinedAppend(here, TableList(more));
    ConcatAssociative(m.tables, Joined(here), Joined(TableList(more)));
    hide Entries, TableList, Agrees;
  }

  lemma {:induction false} ScanTells(d: seq<byte>, p: nat, m: Meta, f: Frame)
    requires p <= |d| && Agrees(m, f) && m.kind <= 1 && Scan(d, p, m).Some?
    ensures var n, ss := Scan(d, p, m).value, Segments(d, p);
      ReadAs(n, m, f, Bodies(d, ss)) && ss != [] && n.from == ScanStart(d, ss) && n.to == EndOfScan(d, n.from, |d| - 1)
    decreases |d| - p
  {
    hide Segment, NextMarker, Standalone, EndOfScan, FromBe16, Agrees, ReadAs, Bodies, ScanStart;
    var k := NextMarker(d, d[p + 1] as nat, p + 2);
    if Standalone(k.code) {
      ScanTells(d, k.at, m, f);
    } else {
      var len := FromBe16(d, k.at);
      var g := Seg(k.code, k.at, len);
      var part := Part(g.code, BodyAt(d, g));
      if k.code == 0xDA {
        assert [g] + [] == [g];
        BodiesHead(d, g, []);
        BodiesNothing(d);
        assert [part] + [] == [part];
        ReadLast(Scan(d, p, m).value, m, f, part);
      } else {
        var n, more := Segment(d, k.code, k.at, len, m).value, Segments(d, k.at + len);
        SegmentTells(d, g, m, f);
        ScanTells(d, k.at + len, n, if g.code == 0xC0 && |part.body| >= 6 then FrameIn(part.body) else f);
        BodiesHead(d, g, more);
        ReadNext(Scan(d, p, m).value, n, m, f, part, Bodies(d, more));
      }
    }
  }

  /**
   What the sender reads of a picture is what the picture says of itself: its tables in their order, and the
   rest as it stands at the scan.
   */
  lemma {:induction false} ParsedAgrees(d: seq<byte>)
    requires ParseJpeg(d).Some?
    ensures var m, own := ParseJpeg(d).value, Describe(d);
      m.tables == Joined(TableList(Parts(d))) && m.restart == own.restart && Agrees(m, own.frame)
      && m.from <= m.to <= |d| && d[m.from..m.to] == own.scan
  {
    ParsedSound(d);
    ScanTells(d, 2, NONE, NO_FRAME);
    DescribeIs(d);
    hide Scan, Segments, Bodies, EndOfScan, ScanStart, FrameOf, RestartOf, TableList, Joined, Agrees;
    assert [] + Joined(TableList(Parts(d))) == Joined(TableList(Parts(d)));
  }

  // ------------------------------------------------------------ what a receiver's picture says

  /** The two tables of a receiver's picture. */
  function TwoTables(tables: seq<byte>): map<nat, seq<byte>>
    requires |tables| == 128
  {
    map[0 := tables[..64], 1 := tables[64..]]
  }

  function Received(s: Standard, kind: nat, w: nat, h: nat, tables: seq<byte>, restart: nat, scan: seq<byte>): Picture
    requires |tables| == 128
  {
    Picture(TwoTables(tables), Frame(8, w, h, 3, YuvParts(if kind % 2 == 1 then 0x22 else 0x21)), true,
            CodesIn(s.codes, map[]), restart, SCAN_HEAD, scan)
  }

  lemma {:induction false} HeaderWritable(s: Standard, kind: nat, w: nat, h: nat, tables: seq<byte>, restart: nat)
    requires Complete(s) && |tables| == 128
    ensures var ps := HeaderParts(s, kind, w, h, tables, restart);
      ps != [] && forall i :: 0 <= i < |ps| ==> Writable(ps[i]) && (ps[i].code == 0xDA <==> i == |ps| - 1)
  {
    hide FrameBody, TableBody, Be16;
    assert |TableBody(tables)| == 130 by { TableBodySize(tables); }
  }

  lemma {:induction false} TableBodySize(tables: seq<byte>)
    requires |tables| == 128
    ensures |TableBody(tables)| == 130
  {
  }

  lemma {:induction false} TwoEntries(tables: seq<byte>)
    requires |tables| == 128
    ensures Entries(TableBody(tables)) == [Table(0, tables[..64]), Table(1, tables[64..])]
  {
    PairEntries(0, tables[..64], 1, tables[64..]);
    hide Entries;
  }

  /** A segment of two tables, under any identifiers. */
  lemma {:induction false} PairEntries(i: byte, a: seq<byte>, j: byte, b: seq<byte>)
    requires |a| == |b| == 64 && i < 16 && j < 16
    ensures Entries([i] + a + [j] + b) == [Table(i as nat, a), Table(j as nat, b)]
  {
    var body := [i] + a + [j] + b;
    var rest := body[65..];
    assert body[0] == i && body[1..65] == a && rest == [j] + b;
    assert rest[0] == j && rest[1..65] == b && rest[65..] == [];
    assert Entries([]) == [];
    assert Entries(rest) == [Table(j as nat, b)];
  }

  lemma {:induction false} PairMap(i: nat, a: seq<byte>, j: nat, b: seq<byte>)
    ensures TableMap([Table(i, a), Table(j, b)]) == map[i := a][j := b]
  {
    var x, y := Table(i, a), Table(j, b);
    assert [x, y][..1] == [x] && [x][..0] == [];
    assert TableMap([x]) == map[i := a];
  }

  lemma {:induction false} FrameRead(kind: nat, w: nat, h: nat)
    requires w < 65536 && h < 65536
    ensures FrameIn(FrameBody(kind, w, h)) == Frame(8, w, h, 3, YuvParts(if kind % 2 == 1 then 0x22 else 0x21))
  {
    var b := FrameBody(kind, w, h);
    assert b[1..3] == Be16(h) && b[3..5] == Be16(w) && b[0] == 8 && b[5] == 3;
    assert b[6..] == YuvParts(if kind % 2 == 1 then 0x22 else 0x21);
    WordAt(b, 1, h);
    WordAt(b, 3, w);
    hide Be16, FromBe16, YuvParts, FrameBody;
  }

  /** What four segments say: tables, a frame, codes and a scan, with or without a restart interval after the tables. */
  lemma {:induction false} SaidByFour(t: seq<byte>, r: Option<seq<byte>>, f: seq<byte>, c: seq<byte>, z: seq<byte>,
      scan: seq<byte>)
    requires |f| >= 6
    ensures var ps := [Part(0xDB, t)] + (if r.Some? then [Part(0xDD, r.value)]
      else []) + [Part(0xC0, f), Part(0xC4, c), Part(0xDA, z)];
      Said(ps, scan) == Picture(TableMap(Entries(t)), FrameIn(f), true, CodesIn(c, map[]),
                                if r.Some? && |r.value| == 2 then FromBe16(r.value, 0) else 0, z, scan)
      && TableList(ps) == Entries(t)
  {
    hide Entries, TableMap, FrameIn, CodesIn, FromBe16;
    var p4, p3, p2 := [Part(0xDA, z)], [Part(0xC4, c), Part(0xDA, z)], [Part(0xC0, f), Part(0xC4, c), Part(0xDA, z)];
    var p1 := (if r.Some? then [Part(0xDD, r.value)] else []) + p2;
    var ps := [Part(0xDB, t)] + p1;
    assert p4[1..] == [] && p3[1..] == p4 && p2[1..] == p3 && ps[1..] == p1 && (r.Some? ==> p1[1..] == p2);
    assert r.None? ==> p1 == p2;
    assert ps == [Part(0xDB, t)] + (if r.Some? then [Part(0xDD, r.value)] else []) + p2;
    SaidFrom(p4, p3, p2, p1, ps);
    NoTables(p4);
    NoTables(p3);
    NoTables(p2);
    if r.Some? {
      NoTables(p1);
    }
    TablesFirst(ps);
    hide TableList;
  }

  lemma {:induction false} NoTables(ps: seq<Part>)
    requires ps != [] && ps[0].code != 0xDB
    ensures TableList(ps) == TableList(ps[1..]) && TableList([]) == []
  {
    assert [] + TableList(ps[1..]) == TableList(ps[1..]);
  }

  lemma {:induction false} TablesFirst(ps: seq<Part>)
    requires ps != [] && ps[0].code == 0xDB && TableList(ps[1..]) == []
    ensures TableList(ps) == Entries(ps[0].body)
  {
    assert Entries(ps[0].body) + [] == Entries(ps[0].body);
    hide Entries;
  }

  lemma {:induction false} Folds(ps: seq<Part>, f: Frame, codes: map<byte, seq<byte>>, restart: nat)
    requires ps != []
    ensures FrameOf(ps, f) == FrameOf(ps[1..], if ps[0].code == 0xC0 && |ps[0].body| >= 6 then FrameIn(ps[0].body)
      else f)
    ensures CodesOf(ps, codes) == CodesOf(ps[1..], if ps[0].code == 0xC4 then CodesIn(ps[0].body, codes) else codes)
    ensures RestartOf(ps, restart)
      == RestartOf(ps[1..], if ps[0].code == 0xDD && |ps[0].body| == 2 then FromBe16(ps[0].body, 0) else restart)
  {
    hide FrameIn, CodesIn, FromBe16;
  }

  lemma {:induction false} FoldsEnd(f: Frame, codes: map<byte, seq<byte>>, restart: nat)
    ensures FrameOf([], f) == f && CodesOf([], codes) == codes && RestartOf([], restart) == restart
  {
  }

  lemma {:induction false} SaidFrom(p4: seq<Part>, p3: seq<Part>, p2: seq<Part>, p1: seq<Part>, ps: seq<Part>)
    requires |p4| == 1 && |p3| == 2 && |p2| == 3 && p3[1..] == p4 && p2[1..] == p3 && p2[0].code == 0xC0
      && p3[0].code == 0xC4 && p4[0].code == 0xDA
    requires |p2[0].body| >= 6 && ps != [] && ps[0].code == 0xDB && ps[1..] == p1
    requires p1 == p2 || (p1 != [] && p1[1..] == p2 && p1[0].code == 0xDD)
    ensures FrameOf(ps, NO_FRAME) == FrameIn(p2[0].body) && CodesOf(ps, map[]) == CodesIn(p3[0].body, map[])
    ensures RestartOf(ps, 0) == if p1 != p2 && |p1[0].body| == 2 then FromBe16(p1[0].body, 0) else 0
    ensures ScanHead(ps) == p4[0].body && Baseline(ps)
  {
    var f, c := FrameIn(p2[0].body), CodesIn(p3[0].body, map[]);
    var n := if p1 != p2 && |p1[0].body| == 2 then FromBe16(p1[0].body, 0) else 0;
    Folds(ps, NO_FRAME, map[], 0);
    Folds(p1, NO_FRAME, map[], 0);
    Folds(p2, NO_FRAME, map[], n);
    Folds(p3, f, map[], n);
    Folds(p4, f, c, n);
    assert p4[1..] == [];
    FoldsEnd(f, c, n);
    hide FrameIn, CodesIn, FromBe16, FrameOf, CodesOf, RestartOf;
    assert p2[2] == p4[0] && p2[1] == p3[0];
    assert ps[|ps| - 1] == p1[|p1| - 1] == p2[2];
    assert forall p :: p in ps ==> p == ps[0] || p in p1;
    assert forall p :: p in p1 ==> p in p2 || p == p1[0];
    assert forall p :: p in p2 ==> p == p2[0] || p == p2[1] || p == p2[2];
  }

  /** A receiver's header, any scan and the end marker: what such a picture says. */
  lemma {:induction false} HeaderDescribed(s: Standard, kind: nat, w: nat, h: nat, tables: seq<byte>, restart: nat,
      scan: seq<byte>)
    requires Complete(s) && |tables| == 128 && w < 65536 && h < 65536 && restart < 65536
    ensures Describe(Header(s, kind, w, h, tables, restart) + scan + [0xFF, 0xD9])
      == Received(s, kind, w, h, tables, restart, scan)
  {
    var ps := HeaderParts(s, kind, w, h, tables, restart);
    HeaderWritable(s, kind, w, h, tables, restart);
    DescribedAs(ps, scan);
    var r := if restart > 0 then Some(Be16(restart)) else None;
    SaidByFour(TableBody(tables), r, FrameBody(kind, w, h), s.codes, SCAN_HEAD, scan);
    TwoEntries(tables);
    PairMap(0, tables[..64], 1, tables[64..]);
    FrameRead(kind, w, h);
    assert Be16(restart)[0..2] == Be16(restart);
    WordAt(Be16(restart), 0, restart);
    hide Describe, Encode, Said, TableMap, Entries, TableBody, FrameBody, FrameIn, Be16, FromBe16, CodesIn, YuvParts,
      Complete;
  }

  // ------------------------------------------------------------ every picture a fresh receiver gives

  /** A receiver's buffer: a header and some scan. */
  ghost predicate Built(s: Standard, buf: seq<byte>) {
    exists kind: nat, w: nat, h: nat, tables, restart: nat, x ::
      |tables| == 128 && w < 65536 && h < 65536 && restart < 65536 && buf == Header(s, kind, w, h, tables, restart) + x
  }

  ghost predicate TwoKeys(data: seq<byte>) {
    Describe(data).tables.Keys == {0, 1}
  }

  lemma {:induction false} BuiltSays(s: Standard, buf: seq<byte>)
    requires Complete(s) && Built(s, buf)
    ensures TwoKeys(buf + [0xFF, 0xD9])
  {
    var kind: nat, w: nat, h: nat, tables, restart: nat, x :|
      |tables| == 128 && w < 65536 && h < 65536 && restart < 65536 && buf == Header(s, kind, w, h, tables, restart) + x;
    HeaderDescribed(s, kind, w, h, tables, restart, x);
    hide Describe, Header;
  }

  lemma {:induction false} BuiltGrows(s: Standard, buf: seq<byte>, more: seq<byte>)
    requires Built(s, buf)
    ensures Built(s, buf + more)
  {
    hide Header;
    var kind: nat, w: nat, h: nat, tables, restart: nat, x :|
      |tables| == 128 && w < 65536 && h < 65536 && restart < 65536 && buf == Header(s, kind, w, h, tables, restart) + x;
    ConcatAssociative(Header(s, kind, w, h, tables, restart), x, more);
    assert buf + more == Header(s, kind, w, h, tables, restart) + (x + more);
  }

  lemma {:induction false} BuiltStarts(s: Standard, kind: nat, w: nat, h: nat, tables: seq<byte>, restart: nat)
    requires |tables| == 128 && w < 65536 && h < 65536 && restart < 65536
    ensures Built(s, Header(s, kind, w, h, tables, restart))
  {
    hide Header;
    var b := Header(s, kind, w, h, tables, restart);
    assert b == b + [];
  }

  lemma {:induction false} FeedBuilt(s: Standard, st: State, p: Rtp.Packet)
    requires Complete(s) && (st.started ==> Built(s, st.buf))
    ensures var f := Feed(s, st, p);
      (f.st.started ==> Built(s, f.st.buf)) && (f.out.Some? ==> TwoKeys(f.out.value.data))
  {
    var b, f := p.payload, Feed(s, st, p);
    hide Header, Built, TwoKeys, Chosen, CarriedTables;
    if !(|b| < 8 || (b[4] >= 64 && |b| < 12)) {
      var frag := 65536 * (b[1] as int) + 256 * (b[2] as int) + (b[3] as int);
      var restart := if b[4] >= 64 then FromBe16(b, 8) else 0;
      var c := CarriedTables(b, frag == 0, if b[4] >= 64 then 12 else 8);
      if c.Some? && (frag == 0 || st.started) {
        var tables := Chosen(s, b[5], c.value.tables);
        var w, h := (b[6] as int) * 8, (b[7] as int) * 8;
        BuiltStarts(s, (b[4] % 64) as nat, w, h, tables, restart);
        var buf := if frag == 0 then Header(s, (b[4] % 64) as nat, w, h, tables, restart) else st.buf;
        BuiltGrows(s, buf, b[c.value.off..]);
        BuiltSays(s, buf + b[c.value.off..]);
      }
    }
  }

  lemma {:induction false} AllBuilt(s: Standard, st: State, ps: seq<Rtp.Packet>)
    requires Complete(s) && (st.started ==> Built(s, st.buf))
    ensures forall i :: 0 <= i < |FeedAll(s, st, ps)| ==> TwoKeys(FeedAll(s, st, ps)[i].data)
    decreases |ps|
  {
    hide Feed, Built, TwoKeys, FeedAll, Complete;
    if ps == [] {
      FeedNothing(s, st, ps);
    } else {
      FeedBuilt(s, st, ps[0]);
      FeedHead(s, st, ps);
      AllBuilt(s, Feed(s, st, ps[0]).st, ps[1..]);
    }
  }

  // ------------------------------------------------------------ exactly when a picture comes back as it was

  /**
   The receiver's tables are the picture's own: two of them, under 0 and then 1, or the other way round if
   they are the same; or more, when what they end up as are the receiver's standard ones.
   */
  predicate KeepsTables(s: Standard, es: seq<Table>)
    requires |s.tables(255)| == 128
  {
    if |es| == 2 then
      (es[0].id == 0 && es[1].id == 1) || (es[0].id == 1 && es[1].id == 0 && es[0].values == es[1].values)
    else |es| > 2 && TableMap(es) == TwoTables(s.tables(255))
  }

  /**
   8 bits, sides of a multiple of 8 below 2048, and components 1, 2, 3 of sampling 4:2:2 or 4:2:0 with tables
   0, 1, 1.
   */
  predicate KeepsFrame(f: Frame) {
    f.precision == 8 && f.width % 8 == 0 && f.height % 8 == 0 && f.width < 2048 && f.height < 2048
    && f.count == 3 && (f.parts == YuvParts(0x21) || f.parts == YuvParts(0x22))
  }

  /** Baseline with the standard's Huffman codes, and one scan of the three components. */
  predicate KeepsCoding(s: Standard, own: Picture) {
    own.baseline && own.codes == CodesIn(s.codes, map[]) && own.scanHead == SCAN_HEAD
  }

  predicate Carriable(s: Standard, d: seq<byte>)
    requires |s.tables(255)| == 128
  {
    var own := Describe(d);
    KeepsTables(s, TableList(Parts(d))) && KeepsFrame(own.frame) && KeepsCoding(s, own)
  }

  lemma {:induction false} SideSame(n: nat)
    requires n < 65536
    ensures n / 8 % 256 * 8 == n <==> n % 8 == 0 && n < 2048
  {
  }

  lemma {:induction false} FrameSame(m: Meta, f: Frame)
    requires Agrees(m, f)
    ensures f == Frame(8, m.width / 8 % 256 * 8, m.height / 8 % 256 * 8, 3,
      YuvParts(if m.kind % 64 % 2 == 1 then 0x22 else 0x21))
            <==> KeepsFrame(f)
  {
    SideSame(f.width);
    SideSame(f.height);
    assert YuvParts(0x21)[1] == 0x21 && YuvParts(0x22)[1] == 0x22;
    hide YuvParts;
  }

  lemma {:induction false} JoinedSize(es: seq<Table>)
    requires forall i :: 0 <= i < |es| ==> |es[i].values| == 64
    ensures |Joined(es)| == 64 * |es|
    decreases |es|
  {
    if es != [] {
      JoinedSize(es[1..]);
    }
  }

  lemma {:induction false} JoinedTwo(es: seq<Table>)
    requires |es| == 2 && |es[0].values| == |es[1].values| == 64
    ensures Joined(es) == es[0].values + es[1].values
    ensures Joined(es)[..64] == es[0].values && Joined(es)[64..] == es[1].values
  {
    assert es[1..][1..] == [];
    assert es[1..][0] == es[1];
    assert Joined(es[1..]) == es[1].values + [];
  }

  lemma {:induction false} MapKeys(es: seq<Table>)
    ensures |es| < 2 ==> TableMap(es).Keys != {0, 1}
    decreases |es|
  {
    if |es| == 1 {
      assert es[..0] == [];
      assert TableMap(es) == map[es[0].id := es[0].values];
    }
  }

  lemma {:induction false} TablesSame(s: Standard, es: seq<Table>)
    requires |s.tables(255)| == 128 && forall i :: 0 <= i < |es| ==> |es[i].values| == 64
    ensures var all := Joined(es);
      TableMap(es) == TwoTables(if |all| == 128 then all else s.tables(255)) <==> KeepsTables(s, es)
  {
    JoinedSize(es);
    hide Joined;
    if |es| == 2 {
      JoinedTwo(es);
      assert es == [es[0], es[1]];
      PairMap(es[0].id, es[0].values, es[1].id, es[1].values);
      hide TableMap;
      PairSame(es[0].id, es[0].values, es[1].id, es[1].values);
    } else {
      MapKeys(es);
      assert TwoTables(s.tables(255)).Keys == {0, 1};
    }
  }

  lemma {:induction false} PairSame(i: nat, a: seq<byte>, j: nat, b: seq<byte>)
    ensures map[i := a][j := b] == map[0 := a, 1 := b] <==> (i == 0 && j == 1) || (i == 1 && j == 0 && a == b)
  {
    var x, y := map[i := a][j := b], map[0 := a, 1 := b];
    assert x.Keys == {i, j} && y.Keys == {0, 1};
    if x == y {
      assert i in x.Keys && j in x.Keys && 0 in x.Keys && 1 in x.Keys;
      assert x[0] == a && x[1] == b;
    }
  }

  /**
   The picture rebuilt of what the sender read says the same as the picture sent if and only if that can be
   carried.
   */
  lemma {:induction false} RebuiltSame(s: Standard, d: seq<byte>, ts: int)
    requires Complete(s) && ParseJpeg(d).Some? && ParseJpeg(d).value.from <= ParseJpeg(d).value.to <= |d|
    ensures Describe(Rebuilt(s, d, ParseJpeg(d).value, ts).data) == Describe(d) <==> Carriable(s, d)
    ensures var m := ParseJpeg(d).value;
      Describe(Rebuilt(s, d, m, ts).data).tables == TwoTables(if |m.tables| == 128 then m.tables else s.tables(255))
  {
    var m, own := ParseJpeg(d).value, Describe(d);
    ParsedAgrees(d);
    ParsedSound(d);
    var tables := if |m.tables| == 128 then m.tables else s.tables(255);
    var w, h := m.width / 8 % 256 * 8, m.height / 8 % 256 * 8;
    HeaderDescribed(s, m.kind % 64, w, h, tables, m.restart, d[m.from..m.to]);
    var es := TableList(Parts(d));
    TablesSame(s, es);
    FrameSame(m, own.frame);
    OwnTables(d);
    hide ParseJpeg, Describe, Header, TableMap, TableList, Joined, KeepsTables, KeepsFrame, YuvParts, TwoTables, Parts,
      Agrees, Sound;
  }

  lemma {:induction false} OwnTables(d: seq<byte>)
    ensures Describe(d).tables == TableMap(TableList(Parts(d)))
  {
    hide TableMap, TableList, Parts;
  }

  /**
   Exactly when a picture that can be sent comes back as it was, the same in all that is needed to decode it: if
   and only if it has two tables under 0 and 1 in that order, 8-bit samples, sides that are multiples of 8 below
   2048, three components 4:2:2 or 4:2:0 with the tables 0, 1, 1, the standard Huffman codes and one scan of all
   three. (Two cases apart where the tables are the same anyway.) Otherwise something else comes back, or nothing.
   */
  lemma {:induction false} OwnExactly(s: Standard, d: seq<byte>, mtu: nat, ps: seq<Rtp.Packet>, ts: int)
    requires Complete(s) && ParseJpeg(d).Some? && Sendable(d, ParseJpeg(d).value, mtu)
      && Carries(ps, PicturePieces(d, mtu), ts)
    ensures var shown := FeedAll(s, State([], false, 0), ps);
      (|shown| == 1 && Describe(shown[0].data) == Describe(d)) <==> Carriable(s, d)
  {
    var m, shown := ParseJpeg(d).value, FeedAll(s, State([], false, 0), ps);
    WholeExactly(s, d, mtu, ps, ts);
    RebuiltSame(s, d, ts) by { SendableIs(d, m, mtu); }
    AllBuilt(s, State([], false, 0), ps);
    ParsedAgrees(d);
    OwnTables(d);
    var es := TableList(Parts(d));
    JoinedSize(es);
    MapKeys(es);
    hide ParseJpeg, Describe, FeedAll, Rebuilt, Carries, PicturePieces, Sendable, TableMap, TableList, Joined,
      KeepsFrame, KeepsCoding, Parts;
    if m.tables == [] {
      assert es == [];
      assert |shown| == 1 ==> TwoKeys(shown[0].data);
    }
  }

  // ------------------------------------------------------------ an input: two tables under any identifiers

  /** A picture of 16 by 16, 4:2:0, with the standard's codes and two tables, `a` under `i` and then `b` under `j`. */
  function SampleParts(s: Standard, i: byte, a: seq<byte>, j: byte, b: seq<byte>): seq<Part> {
    [Part(0xDB, [i] + a + [j] + b), Part(0xC0, FrameBody(1, 16, 16)), Part(0xC4, s.codes), Part(0xDA, SCAN_HEAD)]
  }

  function SamplePicture(s: Standard, i: byte, a: seq<byte>, j: byte, b: seq<byte>, scan: seq<byte>): seq<byte> {
    [0xFF, 0xD8] + Encode(SampleParts(s, i, a, j, b)) + scan + [0xFF, 0xD9]
  }

  /** There is a scan, and none of the segments is refused. */
  ghost predicate Accepted(d: seq<byte>, ss: seq<Seg>)
    requires forall k :: 0 <= k < |ss| ==> ss[k].at + ss[k].len <= |d| && ss[k].len >= 2
  {
    ss != [] && ss[|ss| - 1].code == 0xDA && forall k :: 0 <= k < |ss| ==> !Refuses(d, ss[k]) && !Overruns(d, ss[k])
  }

  lemma {:induction false} AcceptedTail(d: seq<byte>, g: Seg, more: seq<Seg>)
    requires g.at + g.len <= |d| && g.len >= 2
      && forall k :: 0 <= k < |more| ==> more[k].at + more[k].len <= |d| && more[k].len >= 2
    requires g.code != 0xDA && Accepted(d, [g] + more)
    ensures !Refuses(d, g) && !Overruns(d, g) && Accepted(d, more)
  {
    hide Refuses, Overruns;
    var ss := [g] + more;
    assert ss[0] == g;
    assert forall k :: 0 <= k < |more| ==> more[k] == ss[k + 1];
  }

  lemma {:induction false} NotAccepted(d: seq<byte>)
    ensures !Accepted(d, [])
  {
  }

  /** A picture is read when it has a scan and none of its segments is refused. */
  lemma {:induction false} ScanReads(d: seq<byte>, p: nat, m: Meta)
    requires p <= |d| && Accepted(d, Segments(d, p))
    ensures Scan(d, p, m).Some?
    decreases |d| - p
  {
    hide NextMarker, Standalone, EndOfScan, FromBe16, Segment, Refuses, Overruns, Accepted;
    NotAccepted(d);
    var k := NextMarker(d, d[p + 1] as nat, p + 2);
    if Standalone(k.code) {
      ScanReads(d, k.at, m);
    } else if k.code != 0xDA {
      var len := FromBe16(d, k.at);
      var g := Seg(k.code, k.at, len);
      SegmentFacts(d, g, m);
      AcceptedTail(d, g, Segments(d, k.at + len));
      ScanReads(d, k.at + len, Segment(d, k.code, k.at, len, m).value);
    }
  }

  lemma {:induction false} PairAccepted(d: seq<byte>, g: Seg, i: byte, a: seq<byte>, j: byte, b: seq<byte>)
    requires g.at + g.len <= |d| && g.len == 132 && g.code == 0xDB && i < 16 && j < 16 && |a| == |b| == 64
    requires BodyAt(d, g) == [i] + a + [j] + b
    ensures !Refuses(d, g)
  {
    var body, t := BodyAt(d, g), g.at + 2;
    assert body[0] == d[t] && body[65] == d[t + 65];
    assert ([i] + a + [j] + b)[65] == j;
    assert TablesOf(d, t + 130, 0).Some?;
    assert TablesOf(d, t + 65, 1).Some?;
    assert TablesOf(d, t, 2).Some?;
  }

  lemma {:induction false} SampleRead(s: Standard, i: byte, a: seq<byte>, j: byte, b: seq<byte>, scan: seq<byte>)
    requires Complete(s) && |a| == |b| == 64 && i < 16 && j < 16
    ensures var d := SamplePicture(s, i, a, j, b, scan);
      Parts(d) == SampleParts(s, i, a, j, b) && Describe(d) == Said(SampleParts(s, i, a, j, b), scan)
        && ParseJpeg(d).Some?
  {
    hide *;
    var ps, d := SampleParts(s, i, a, j, b), SamplePicture(s, i, a, j, b, scan);
    SampleWritable(s, i, a, j, b);
    SampleIs(s, i, a, j, b, scan);
    DescribedAs(ps, scan);
    DescribeIs(d);
    SampleAccepted(s, i, a, j, b, d);
    ScanReads(d, 2, NONE);
    Reads(d);
  }

  lemma {:induction false} SampleIs(s: Standard, i: byte, a: seq<byte>, j: byte, b: seq<byte>, scan: seq<byte>)
    ensures var d := SamplePicture(s, i, a, j, b, scan);
      d == [0xFF, 0xD8] + Encode(SampleParts(s, i, a, j, b)) + scan + [0xFF, 0xD9] && |d| >= 4 && d[0] == 0xFF
        && d[1] == 0xD8
  {
    hide Encode, SampleParts;
  }

  lemma {:induction false} Reads(d: seq<byte>)
    requires |d| >= 4 && d[0] == 0xFF && d[1] == 0xD8 && Scan(d, 2, NONE).Some?
    ensures ParseJpeg(d).Some?
  {
    hide Scan;
  }

  lemma {:induction false} SampleWritable(s: Standard, i: byte, a: seq<byte>, j: byte, b: seq<byte>)
    requires Complete(s) && |a| == |b| == 64
    ensures var ps := SampleParts(s, i, a, j, b);
      |ps| == 4 && (forall k :: 0 <= k < |ps| ==> Writable(ps[k]) && (ps[k].code == 0xDA <==> k == |ps| - 1))
      && ps[0] == Part(0xDB, [i] + a + [j] + b) && ps[1].code == 0xC0 && |ps[1].body| == 15 && ps[2].code == 0xC4
  {
    hide FrameBody;
  }

  lemma {:induction false} SampleAccepted(s: Standard, i: byte, a: seq<byte>, j: byte, b: seq<byte>, d: seq<byte>)
    requires Complete(s) && |a| == |b| == 64 && i < 16 && j < 16 && |d| >= 2
      && Bodies(d, Segments(d, 2)) == SampleParts(s, i, a, j, b)
    ensures Accepted(d, Segments(d, 2))
  {
    var ps, ss := SampleParts(s, i, a, j, b), Segments(d, 2);
    SampleWritable(s, i, a, j, b);
    BodiesSize(d, ss);
    FourBodies(d, ss);
    hide SampleParts, Segments, Bodies, TablesOf, Complete, Writable;
    assert |ps[0].body| == 130;
    PairAccepted(d, ss[0], i, a, j, b);
    forall k | 0 <= k < |ss|
      ensures !Refuses(d, ss[k]) && !Overruns(d, ss[k])
    {
      assert ss[k].code == ps[k].code;
    }
  }

  lemma {:induction false} FourBodies(d: seq<byte>, ss: seq<Seg>)
    requires |ss| == 4 && forall k :: 0 <= k < |ss| ==> ss[k].at + ss[k].len <= |d| && ss[k].len >= 2
    ensures var b := Bodies(d, ss);
      |b| == 4 && b[0].body == BodyAt(d, ss[0]) && b[1].body == BodyAt(d, ss[1])
  {
    assert ss[1..][0] == ss[1];
    BodiesSize(d, ss);
  }

  /**
   Two tables sent under any identifiers: the receiver puts the first under 0 and the second under 1. So with 1
   and then 0 they come back swapped, and the picture comes back as it was if and only if they went as 0 and 1,
   or were the same.
   */
  lemma {:induction false} TablesSwapped(s: Standard, i: byte, a: seq<byte>, j: byte, b: seq<byte>, scan: seq<byte>,
      ps: seq<Rtp.Packet>, ts: int)
    requires Complete(s) && |a| == |b| == 64 && i < 16 && j < 16 && 0 < |scan| <= 0x100_0000
    requires Carries(ps, PicturePieces(SamplePicture(s, i, a, j, b, scan), 1400), ts)
    ensures var d, shown := SamplePicture(s, i, a, j, b, scan), FeedAll(s, State([], false, 0), ps);
      |shown| == 1 && Describe(d).tables == map[i as nat := a][j as nat := b]
      && Describe(shown[0].data).tables == map[0 := a, 1 := b]
      && (Describe(shown[0].data) == Describe(d) <==> (i == 0 && j == 1) || (i == 1 && j == 0 && a == b))
  {
    var d := SamplePicture(s, i, a, j, b, scan);
    SampleRead(s, i, a, j, b, scan);
    var m := ParseJpeg(d).value;
    ParsedAgrees(d);
    ParsedSound(d);
    SampleSays(s, i, a, j, b, scan);
    PairMap(i as nat, a, j as nat, b);
    JoinedTwo([Table(i as nat, a), Table(j as nat, b)]);
    assert (a + b)[..64] == a && (a + b)[64..] == b;
    hide ParseJpeg, Describe, Said, SamplePicture, SampleParts, Parts, TableList, TableMap, Joined, FeedAll, Carries,
      PicturePieces, Rebuilt;
    assert m.tables == a + b;
    SampleFits(d, m);
    WholeExactly(s, d, 1400, ps, ts);
    RebuiltSame(s, d, ts);
    OwnTables(d);
    hide Complete, Sendable;
  }

  lemma {:induction false} SampleFits(d: seq<byte>, m: Meta)
    requires Sound(d, m) && |m.tables| == 128 && 0 < m.to - m.from <= 0x100_0000
    ensures Sendable(d, m, 1400)
  {
  }

  lemma {:induction false} SampleSays(s: Standard, i: byte, a: seq<byte>, j: byte, b: seq<byte>, scan: seq<byte>)
    requires |a| == |b| == 64 && i < 16 && j < 16
    ensures var p, es := Said(SampleParts(s, i, a, j, b), scan), [Table(i as nat, a), Table(j as nat, b)];
      TableList(SampleParts(s, i, a, j, b)) == es && p.tables == TableMap(es) && p.scan == scan
      && KeepsFrame(p.frame) && KeepsCoding(s, p)
  {
    SaidByFour([i] + a + [j] + b, None, FrameBody(1, 16, 16), s.codes, SCAN_HEAD, scan);
    PairEntries(i, a, j, b);
    FrameRead(1, 16, 16);
    var t, f, c, z := Part(0xDB, [i] + a + [j] + b), Part(0xC0, FrameBody(1, 16, 16)), Part(0xC4, s.codes),
      Part(0xDA, SCAN_HEAD);
    assert SampleParts(s, i, a, j, b) == [t] + [] + [f, c, z];
    hide Said, TableList, TableMap, Entries, FrameBody, FrameIn, CodesIn, YuvParts;
  }
}
