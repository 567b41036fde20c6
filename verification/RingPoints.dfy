// The tree of virtual nodes read as the points of a ring.
module RingPoints {
  import opened Collections
  import opened Servers
  import opened RbShape
  import opened RbRules
  import opened HashRing
  import opened Text

  // %08d for an unsigned int, which the conversion takes for a signed one.
  function Index(i: nat): string {
    var k := i % U_INT;
    if k < 0x8000_0000 then Padded(k, 8) else "-" + Padded(U_INT - k, 7)
  }

  lemma PaddedStart(n: nat, width: nat)
    ensures Padded(n, width) != [] && Padded(n, width)[0] != '-'
  {
    assert Padded(n, width)[0] in Padded(n, width) && DigitValue('-') == 16;
  }

  lemma IndexForm(i: UInt)
    ensures i < 0x8000_0000 ==> Index(i) == Padded(i, 8)
    ensures i >= 0x8000_0000 ==> Index(i) == "-" + Padded(U_INT - i, 7)
    ensures Index(i) != [] && (Index(i)[0] == '-' <==> i >= 0x8000_0000)
  {
    if i < 0x8000_0000 {
      PaddedStart(i, 8);
    }
  }

  lemma PaddedSame(m: nat, n: nat, width: nat)
    requires Padded(m, width) == Padded(n, width)
    ensures m == n
  {
    PaddedBack(m, width);
    PaddedBack(n, width);
  }

  lemma IndexBack(i: UInt, j: UInt)
    requires Index(i) == Index(j)
    ensures i == j
  {
    IndexForm(i);
    IndexForm(j);
    if i < 0x8000_0000 {
      PaddedSame(i, j, 8);
    } else {
      SignedBack(U_INT - i, U_INT - j);
    }
  }

  lemma SignedBack(m: nat, n: nat)
    requires "-" + Padded(m, 7) == "-" + Padded(n, 7)
    ensures m == n
  {
    assert ("-" + Padded(m, 7))[1..] == Padded(m, 7) && ("-" + Padded(n, 7))[1..] == Padded(n, 7);
    PaddedSame(m, n, 7);
  }

  // "%x-%08d", the name whose hash places virtual node i of a server.
  function NodeName(ip: nat, i: nat): string {
    Digits(ip, 16) + "-" + Index(i)
  }

  // A row of decimal digits of at least this width, with leading zeros only up to
  // it, that stands for n.
  predicate Row(s: string, n: nat, width: nat) {
    && |s| >= width && (|s| > width ==> s[0] != '0')
    && (forall c | c in s :: '0' <= c <= '9') && Number(s, 10) == n
  }

  lemma PaddedRow(n: nat, width: nat)
    requires width > 0
    ensures Row(Padded(n, width), n, width)
  {
    PaddedForm(n, width);
    var s := Padded(n, width);
    forall c | c in s ensures '0' <= c <= '9' {
      assert DigitValue(c) < 10;
    }
  }

  // The index with eight digits at least; from 2^31 on it is negative, and its sign
  // counts as one of the eight.
  lemma IndexRow(i: UInt)
    ensures i < 0x8000_0000 ==> Row(Index(i), i, 8) && (i < 100_000_000 ==> |Index(i)| == 8)
    ensures i >= 0x8000_0000 ==> Index(i) != "" && Index(i)[0] == '-' && Row(Index(i)[1..], U_INT - i, 7)
  {
    IndexForm(i);
    if i < 0x8000_0000 {
      PaddedRow(i, 8);
      EightDigits(i);
    } else {
      PaddedRow(U_INT - i, 7);
      assert ("-" + Padded(U_INT - i, 7))[1..] == Padded(U_INT - i, 7);
    }
  }

  lemma EightDigits(n: nat)
    ensures n < 100_000_000 ==> |Padded(n, 8)| == 8
  {
    PaddedForm(n, 8);
    assert Ten(8) == 100_000_000;
  }

  // Before the dash of the hashed name stands the address, in lower-case
  // hexadecimal without leading zeros,
  lemma NodeNameAddress(ip: nat, i: UInt)
    ensures var s := NodeName(ip, i);
            var d := FirstDash(s);
            && 0 < d < |s| && (forall c | c in s[..d] :: '0' <= c <= '9' || 'a' <= c <= 'f')
            && (s[0] == '0' ==> d == 1) && Number(s[..d], 16) == ip
    ensures var s := NodeName(ip, i); s[FirstDash(s) + 1..] == Index(i)
  {
    var a, s := Digits(ip, 16), NodeName(ip, i);
    NoDash(ip, 16);
    DashFound(a, Index(i));
    DigitsBack(ip, 16);
    DigitsLead(ip, 16);
    assert s[..|a|] == a && s[|a| + 1..] == Index(i);
  }

  // and behind it the index.
  lemma NodeNameForm(ip: nat, i: UInt)
    ensures var s := NodeName(ip, i);
            var d := FirstDash(s);
            && d < |s|
            && (i < 0x8000_0000 ==> Row(s[d + 1..], i, 8) && (i < 100_000_000 ==> |s| == d + 9))
            && (i >= 0x8000_0000 ==> d + 1 < |s| && s[d + 1] == '-' && Row(s[d + 2..], U_INT - i, 7))
  {
    var s := NodeName(ip, i);
    NodeNameAddress(ip, i);
    IndexRow(i);
    assert s[FirstDash(s) + 1..][1..] == s[FirstDash(s) + 2..];
  }

  lemma NodeNameSamples()
    ensures NodeName(10, 0) == "a-00000000"
    ensures NodeName(0x1f, 0xffff_ffff) == "1f--0000001"
  {
    FirstIndex();
    LastIndex();
    assert Digits(1, 16) == "1" && Digits(0x1f, 16) == "1f";
  }

  lemma FirstIndex()
    ensures Index(0) == "00000000"
  {
    assert Digits(0, 10) == "0";
  }

  lemma LastIndex()
    ensures Index(0xffff_ffff) == "-0000001"
  {
    assert Digits(1, 10) == "1";
  }

  // Different virtual nodes have different names.
  lemma NodeNameInjective(ip: nat, i: UInt, jp: nat, j: UInt)
    requires NodeName(ip, i) == NodeName(jp, j)
    ensures ip == jp && i == j
  {
    NoDash(ip, 16);
    NoDash(jp, 16);
    AtDash(Digits(ip, 16), Index(i), Digits(jp, 16), Index(j));
    DigitsBack(ip, 16);
    DigitsBack(jp, 16);
    IndexBack(i, j);
  }

  // The hashes of the virtual nodes of one server.
  function NodeHash(hash: string -> int, ip: nat): nat -> int {
    (i: nat) => hash(NodeName(ip, i))
  }

  function PointOf(n: RbNode): Point {
    Point(n.key, if n.data.node == null then 0 else n.data.node.ip)
  }

  ghost function PointsOf(e: seq<RbNode>): (s: seq<Point>)
    ensures |s| == |e|
    ensures forall i | 0 <= i < |e| :: s[i] == PointOf(e[i])
  {
    seq(|e|, i requires 0 <= i < |e| => PointOf(e[i]))
  }

  lemma PointsAppend(a: seq<RbNode>, b: seq<RbNode>)
    ensures PointsOf(a + b) == PointsOf(a) + PointsOf(b)
  {
  }

  lemma PointsSlice(e: seq<RbNode>, i: nat)
    requires i <= |e|
    ensures PointsOf(e[i..]) == PointsOf(e)[i..] && PointsOf(e[..i]) == PointsOf(e)[..i]
  {
  }

  lemma {:induction false} PointsInsert(e: seq<RbNode>, n: RbNode)
    requires Increasing(PointsOf(e)) && forall m | m in e :: m.key != n.key
    ensures PointsOf(InsertByKey(e, n)) == Place(PointsOf(e), PointOf(n))
  {
    if e != [] {
      assert e[0] in e;
      assert PointsOf(e)[1..] == PointsOf(e[1..]);
      if n.key < e[0].key {
        PointsAppend([n], e);
      } else {
        PointsInsert(e[1..], n);
        PointsAppend([e[0]], InsertByKey(e[1..], n));
      }
    }
  }

  lemma {:induction false} PlaceTaken(s: seq<Point>, p: Point, x: Point)
    requires Increasing(s) && x in s && x.hash == p.hash
    ensures Place(s, p) == s
  {
    if s[0].hash != p.hash {
      var j :| 0 <= j < |s| && s[j] == x;
      var r := s[1..];
      assert r[j - 1] == x && s[0].hash < s[j].hash;
      PlaceTaken(r, p, x);
      HeadFirst(s);
    }
  }

  lemma PointsCons(x: RbNode, r: seq<RbNode>)
    ensures PointsOf([x] + r) == [PointOf(x)] + PointsOf(r)
  {
  }

  lemma {:induction false} PointsWithout(e: seq<RbNode>, n: RbNode)
    requires Increasing(PointsOf(e)) && n in e
    ensures PointsOf(Without(e, n)) == Drop(PointsOf(e), PointOf(n))
  {
    var s, r := PointsOf(e), e[1..];
    PointsSlice(e, 1);
    if e[0] != n {
      var j :| 0 <= j < |e| && e[j] == n;
      assert r[j - 1] == n;
      assert s[0].hash < s[j].hash && s[j] == PointOf(n);
      PointsWithout(r, n);
      PointsCons(e[0], Without(r, n));
    }
  }

  lemma {:induction false} DropAbsent(s: seq<Point>, p: Point)
    requires p !in s
    ensures Drop(s, p) == s
  {
    if s != [] {
      assert s[0] in s;
      DropAbsent(s[1..], p);
      assert s == [s[0]] + s[1..];
    }
  }

  // --------------------------------------------------- walking with GtKey

  // e as it is met clockwise from h.
  ghost function FromHash(e: seq<RbNode>, h: int): (r: seq<RbNode>)
    ensures |r| == |e|
  {
    e[Upper(e, h - 1)..] + e[..Upper(e, h - 1)]
  }

  lemma {:induction false} UpperParts(e: seq<RbNode>, key: int)
    requires Increasing(PointsOf(e))
    ensures AllLeq(e[..Upper(e, key)], key) && AllGreater(e[Upper(e, key)..], key)
  {
    if e != [] {
      var r := e[1..];
      assert PointsOf(e)[1..] == PointsOf(r);
      if e[0].key > key {
        assert forall i | 0 <= i < |e| :: PointsOf(e)[i].hash == e[i].key;
      } else {
        UpperParts(r, key);
        assert e[..Upper(e, key)] == [e[0]] + r[..Upper(r, key)];
        assert e[Upper(e, key)..] == r[Upper(r, key)..];
      }
    }
  }

  lemma TurnedClockwise(e: seq<RbNode>, h: int)
    requires Increasing(PointsOf(e))
    ensures PointsOf(FromHash(e, h)) == Clockwise(PointsOf(e), h)
    ensures e != [] ==> Successor(e, h - 1) == FromHash(e, h)[0]
  {
    var i, s := Upper(e, h - 1), PointsOf(e);
    UpperParts(e, h - 1);
    PointsSlice(e, i);
    forall k | 0 <= k < i ensures s[k].hash < h {
      assert s[k].hash == e[..i][k].key;
    }
    forall k | i <= k < |s| ensures s[k].hash >= h {
      assert s[k].hash == e[i..][k - i].key;
    }
    SplitAt(s, h, i);
    PointsAppend(e[i..], e[..i]);
  }

  // The search for a greater key finds the next node in order.
  lemma NextInOrder(e: seq<RbNode>, j: nat)
    requires Increasing(PointsOf(e)) && j < |e|
    ensures Successor(e, e[j].key) == e[if j + 1 < |e| then j + 1 else 0]
  {
    var s, key := PointsOf(e), e[j].key;
    forall x | 0 <= x < |e|
      ensures x <= j ==> e[x].key <= key
      ensures x > j ==> e[x].key > key
    {
      assert s[x].hash == e[x].key && s[j].hash == key;
    }
    assert e == e[..j + 1] + e[j + 1..];
    UpperSplits(e[..j + 1], e[j + 1..], key);
  }

  // Where the k-th node from hash h on stands in order.
  ghost function PlaceOf(e: seq<RbNode>, h: int, k: nat): (j: nat)
    requires k < |e|
    ensures j < |e| && FromHash(e, h)[k] == e[j]
  {
    var i := Upper(e, h - 1);
    if i + k < |e| then i + k else i + k - |e|
  }

  lemma DifferentNodes(e: seq<RbNode>, a: nat, b: nat)
    requires Increasing(PointsOf(e)) && a < |e| && b < |e| && a != b
    ensures e[a] != e[b]
  {
    var s := PointsOf(e);
    assert s[a].hash == e[a].key && s[b].hash == e[b].key;
    assert if a < b then s[a].hash < s[b].hash else s[b].hash < s[a].hash;
  }

  // It steps through the ring clockwise.
  lemma NextTurned(e: seq<RbNode>, h: int, k: nat)
    requires Increasing(PointsOf(e)) && k < |e|
    ensures var r := FromHash(e, h);
            && Successor(e, r[k].key) == r[if k + 1 < |r| then k + 1 else 0]
            && (k > 0 ==> r[k] != r[0])
  {
    var j, first := PlaceOf(e, h, k), PlaceOf(e, h, 0);
    if k > 0 {
      DifferentNodes(e, first, j);
    }
    NextInOrder(e, j);
    assert (if j + 1 < |e| then j + 1 else 0) == PlaceOf(e, h, if k + 1 < |e| then k + 1 else 0);
  }

  // After k nodes from hash h on, the walk is at node at and met these hosts.
  ghost predicate Walked(e: seq<RbNode>, h: int, running: set<int>, k: nat, at: RbNode, hosts: seq<int>) {
    1 <= k <= |e| && at == FromHash(e, h)[k - 1] && hosts == Met(PointsOf(FromHash(e, h))[..k], running)
  }

  // The hosts after one more server.
  ghost function Joined(hosts: seq<int>, running: set<int>, ip: int): seq<int> {
    if ip in running && ip !in hosts then hosts + [ip] else hosts
  }

  lemma WalkStarts(e: seq<RbNode>, h: int, running: set<int>, at: RbNode)
    requires Increasing(PointsOf(e)) && e != [] && at == Successor(e, h - 1)
    ensures at in e && Walked(e, h, running, 1, at, Joined([], running, PointOf(at).ip))
  {
    TurnedClockwise(e, h);
    var w := PointsOf(FromHash(e, h));
    MetStep(w, running, 0);
    assert w[..0] == [] && Met([], running) == [];
  }

  // The next node is the first one again exactly when all were met.
  lemma WalkGoesOn(e: seq<RbNode>, h: int, running: set<int>, k: nat, at: RbNode, hosts: seq<int>)
    requires Increasing(PointsOf(e)) && Walked(e, h, running, k, at, hosts)
    ensures var next := Successor(e, at.key);
            && next in e && (next == Successor(e, h - 1) <==> k == |e|)
            && (k < |e| ==> Walked(e, h, running, k + 1, next, Joined(hosts, running, PointOf(next).ip)))
  {
    TurnedClockwise(e, h);
    NextTurned(e, h, k - 1);
    if k < |e| {
      NextTurned(e, h, k);
      MetStep(PointsOf(FromHash(e, h)), running, k);
    }
  }

  lemma WalkEnds(e: seq<RbNode>, h: int, running: set<int>, k: nat, at: RbNode, hosts: seq<int>, n: nat)
    requires Increasing(PointsOf(e)) && Walked(e, h, running, k, at, hosts)
    requires |hosts| <= n && (|hosts| == n || k == |e|)
    ensures hosts == Hosts(PointsOf(e), running, h, n)
  {
    TurnedClockwise(e, h);
    MetEnough(PointsOf(FromHash(e, h)), running, k, n);
  }
}
