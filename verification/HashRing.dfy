// Consistent hashing on values: the points of a ring in ascending order, and
// the hosts of a key as the first running servers met clockwise.
module HashRing {
  import opened Collections

  datatype Point = Point(hash: int, ip: int)

  // ------------------------------------------------------------ sequences

  ghost predicate Increasing(s: seq<Point>) {
    forall i, j | 0 <= i < j < |s| :: s[i].hash < s[j].hash
  }

  // The elements outside d.
  ghost function Other(s: seq<int>, d: set<int>): seq<int> {
    if s == [] then []
    else Other(s[..|s| - 1], d) + if s[|s| - 1] in d then [] else [s[|s| - 1]]
  }

  // The first occurrence of every element.
  ghost function Firsts(s: seq<int>): (d: seq<int>)
    ensures forall x :: x in d <==> x in s
    ensures Unique(d)
  {
    if s == [] then [] else
      var d := Firsts(s[..|s| - 1]);
      assert s == s[..|s| - 1] + [s[|s| - 1]];
      if s[|s| - 1] in d then d else d + [s[|s| - 1]]
  }

  ghost function Take(s: seq<int>, n: nat): seq<int> {
    if |s| <= n then s else s[..n]
  }

  // ----------------------------------------------------------------- rings

  // The points of all servers but one.
  ghost function WithoutIp(s: seq<Point>, ip: int): seq<Point> {
    if s == [] then []
    else if s[0].ip == ip then WithoutIp(s[1..], ip)
    else [s[0]] + WithoutIp(s[1..], ip)
  }

  ghost function AtLeast(s: seq<Point>, h: int): seq<Point> {
    if s == [] then []
    else if s[0].hash >= h then [s[0]] + AtLeast(s[1..], h)
    else AtLeast(s[1..], h)
  }

  ghost function LessThan(s: seq<Point>, h: int): seq<Point> {
    if s == [] then []
    else if s[0].hash < h then [s[0]] + LessThan(s[1..], h)
    else LessThan(s[1..], h)
  }

  // The points in the order in which they are met clockwise from h.
  ghost function Clockwise(s: seq<Point>, h: int): seq<Point> {
    AtLeast(s, h) + LessThan(s, h)
  }

  // The addresses of the running servers among the points.
  ghost function Live(w: seq<Point>, running: set<int>): seq<int> {
    if w == [] then []
    else Live(w[..|w| - 1], running) + if w[|w| - 1].ip in running then [w[|w| - 1].ip] else []
  }

  // The running servers in the order in which a walk over w first meets them.
  ghost function Met(w: seq<Point>, running: set<int>): seq<int> {
    Firsts(Live(w, running))
  }

  // The hosts of a key with hash h: walk clockwise, skip what is not running,
  // skip repeated servers, stop after n.
  ghost function Hosts(s: seq<Point>, running: set<int>, h: int, n: nat): seq<int> {
    Take(Met(Clockwise(s, h), running), n)
  }

  // The servers that can be a host.
  ghost function Candidates(s: seq<Point>, running: set<int>): set<int> {
    set i | 0 <= i < |s| && s[i].ip in running :: s[i].ip
  }

  // ----------------------------------------------------- what Hosts returns

  lemma {:induction false} ClockwiseSame(s: seq<Point>, h: int, p: Point)
    ensures p in Clockwise(s, h) <==> p in s
  {
    if s != [] {
      ClockwiseSame(s[1..], h, p);
      assert s == [s[0]] + s[1..];
    }
  }

  lemma {:induction false} LiveIn(w: seq<Point>, running: set<int>, ip: int)
    ensures ip in Live(w, running) <==> ip in running && exists i :: 0 <= i < |w| && w[i].ip == ip
  {
    if w != [] {
      var v := w[..|w| - 1];
      LiveIn(v, running, ip);
      assert forall i | 0 <= i < |v| :: w[i] == v[i];
    }
  }

  lemma UniqueSize(s: seq<int>, t: set<int>)
    requires Unique(s) && forall x :: x in s <==> x in t
    ensures |s| == |t|
    decreases |s|
  {
    if s == [] {
      assert forall x: int :: x !in t;
      assert t == {};
    } else {
      var x, r := s[|s| - 1], s[..|s| - 1];
      assert s == r + [x];
      assert x !in r;
      UniqueSize(r, t - {x});
    }
  }

  // Exactly min(n, number of running servers on the ring) different servers,
  // all running and on the ring.
  lemma HostsComplete(s: seq<Point>, running: set<int>, h: int, n: nat)
    ensures var r := Hosts(s, running, h, n);
            && Unique(r) && (forall x | x in r :: x in Candidates(s, running))
            && |r| == if |Candidates(s, running)| < n then |Candidates(s, running)| else n
  {
    var w := Clockwise(s, h);
    var live := Live(w, running);
    forall ip
      ensures ip in live <==> ip in Candidates(s, running)
    {
      LiveIn(w, running, ip);
      if ip in live {
        var i :| 0 <= i < |w| && w[i].ip == ip;
        ClockwiseSame(s, h, w[i]);
        var j :| 0 <= j < |s| && s[j] == w[i];
      }
      if ip in Candidates(s, running) {
        var j :| 0 <= j < |s| && s[j].ip in running && s[j].ip == ip;
        ClockwiseSame(s, h, s[j]);
        var i :| 0 <= i < |w| && w[i] == s[j];
      }
    }
    UniqueSize(Firsts(live), Candidates(s, running));
  }

  // -------------------------------------------------------------- stability

  lemma {:induction false} WithoutAppend(a: seq<Point>, b: seq<Point>, ip: int)
    ensures WithoutIp(a + b, ip) == WithoutIp(a, ip) + WithoutIp(b, ip)
  {
    if a == [] {
      assert a + b == b;
    } else {
      assert (a + b)[0] == a[0] && (a + b)[1..] == a[1..] + b;
      WithoutAppend(a[1..], b, ip);
    }
  }

  lemma {:induction false} WithoutParts(s: seq<Point>, h: int, ip: int)
    ensures AtLeast(WithoutIp(s, ip), h) == WithoutIp(AtLeast(s, h), ip)
    ensures LessThan(WithoutIp(s, ip), h) == WithoutIp(LessThan(s, h), ip)
  {
    if s != [] {
      WithoutParts(s[1..], h, ip);
      var r := WithoutIp(s[1..], ip);
      assert ([s[0]] + r)[1..] == r;
      assert ([s[0]] + AtLeast(s[1..], h))[1..] == AtLeast(s[1..], h);
      assert ([s[0]] + LessThan(s[1..], h))[1..] == LessThan(s[1..], h);
    }
  }

  lemma WithoutClockwise(s: seq<Point>, h: int, ip: int)
    ensures Clockwise(WithoutIp(s, ip), h) == WithoutIp(Clockwise(s, h), ip)
  {
    WithoutParts(s, h, ip);
    WithoutAppend(AtLeast(s, h), LessThan(s, h), ip);
  }

  lemma {:induction false} OtherLive(w: seq<Point>, running: set<int>, run': set<int>, ip: int)
    requires running - {ip} == run' - {ip}
    ensures Live(WithoutIp(w, ip), running) == Other(Live(w, run'), {ip})
  {
    if w != [] {
      var v, p := w[..|w| - 1], w[|w| - 1];
      assert w == v + [p];
      WithoutAppend(v, [p], ip);
      OtherLive(v, running, run', ip);
      assert p.ip in running - {ip} <==> p.ip in run' - {ip};
      if p.ip == ip {
        assert WithoutIp([p], ip) == [];
        assert WithoutIp(w, ip) == WithoutIp(v, ip);
      } else {
        assert WithoutIp([p], ip) == [p];
        assert (WithoutIp(v, ip) + [p])[..|WithoutIp(v, ip)|] == WithoutIp(v, ip);
      }
      if p.ip in run' {
        assert (Live(v, run') + [p.ip])[..|Live(v, run')|] == Live(v, run');
      } else {
        assert Live(v, run') + [] == Live(v, run');
      }
    }
  }

  lemma {:induction false} OtherIn(s: seq<int>, a: int, x: int)
    ensures x in Other(s, {a}) <==> x in s && x != a
    ensures |Other(s, {a})| <= |s|
  {
    if s != [] {
      OtherIn(s[..|s| - 1], a, x);
      assert s == s[..|s| - 1] + [s[|s| - 1]];
    }
  }

  lemma {:induction false} OtherFirsts(s: seq<int>, a: int)
    ensures Firsts(Other(s, {a})) == Other(Firsts(s), {a})
  {
    if s != [] {
      var r, x := s[..|s| - 1], s[|s| - 1];
      OtherFirsts(r, a);
      var d, o := Firsts(r), Other(r, {a});
      OtherIn(r, a, x);
      if x == a {
        assert Other(s, {a}) == o;
        assert (d + [x])[..|d|] == d;
      } else {
        assert (o + [x])[..|o|] == o;
        assert (d + [x])[..|d|] == d;
      }
    }
  }

  // a occurs at most once, so that leaving it out costs at most one element.
  lemma {:induction false} OtherSize(d: seq<int>, a: int)
    requires Unique(d)
    ensures |Other(d, {a})| == if a in d then |d| - 1 else |d|
    ensures a !in d ==> Other(d, {a}) == d
  {
    if d != [] {
      var r := d[..|d| - 1];
      OtherSize(r, a);
      assert d == r + [d[|d| - 1]];
    }
  }

  lemma {:induction false} OtherGrows(s: seq<int>, n: nat, d: set<int>)
    requires n <= |s|
    ensures Other(s[..n], d) <= Other(s, d) && |Other(s, d)| <= |Other(s[..n], d)| + |s| - n
  {
    if n < |s| {
      OtherGrows(s[..|s| - 1], n, d);
      assert s[..|s| - 1][..n] == s[..n];
    } else {
      assert s[..n] == s;
    }
  }

  lemma OtherTake(d: seq<int>, a: int, n: nat)
    requires Unique(d)
    ensures Other(Take(d, n), {a}) <= Take(Other(d, {a}), n)
    ensures |Take(Other(d, {a}), n)| <= |Other(Take(d, n), {a})| + 1
    ensures a !in Take(d, n) ==> Take(d, n) == Take(Other(d, {a}), n)
  {
    var t := Take(d, n);
    assert Unique(t);
    OtherSize(t, a);
    OtherSize(d, a);
    if |d| > n {
      OtherGrows(d, n, {a});
    }
  }

  // The hosts of a key with and without the servers d: leaving them out of the
  // first gives a prefix of the second, short by at most as many as d has; they are
  // the same when no server of d is among them.
  ghost predicate Handover(with: seq<int>, without: seq<int>, d: set<int>) {
    && Other(with, d) <= without
    && |without| <= |Other(with, d)| + |d|
    && ((forall x | x in with :: x !in d) ==> with == without)
  }

  // A ring with server ip against the ring without it.
  lemma OneServerMore(s: seq<Point>, ip: int, running: set<int>, run': set<int>, h: int, n: nat)
    requires running - {ip} == run' - {ip}
    ensures Handover(Hosts(s, run', h, n), Hosts(WithoutIp(s, ip), running, h, n), {ip})
  {
    WithoutClockwise(s, h, ip);
    var w := Clockwise(s, h);
    OtherLive(w, running, run', ip);
    OtherFirsts(Live(w, run'), ip);
    OtherTake(Firsts(Live(w, run')), ip, n);
  }

  // A server that is not running changes nothing.
  lemma IdleServer(s: seq<Point>, ip: int, running: set<int>, h: int, n: nat)
    requires ip !in running
    ensures Hosts(s, running, h, n) == Hosts(WithoutIp(s, ip), running, h, n)
  {
    OneServerMore(s, ip, running, running, h, n);
    HostsComplete(s, running, h, n);
  }

  // ------------------------------------------------------- walking the ring

  // One more point on the way.
  lemma MetStep(w: seq<Point>, running: set<int>, k: nat)
    requires k < |w|
    ensures var d, ip := Met(w[..k], running), w[k].ip;
            Met(w[..k + 1], running) == if ip in running && ip !in d then d + [ip] else d
  {
    assert w[..k + 1][..k] == w[..k];
    var live, ip := Live(w[..k], running), w[k].ip;
    if ip in running {
      assert (live + [ip])[..|live|] == live;
    } else {
      assert live + [] == live;
    }
  }

  // The hosts met on a part of the way are the first ones of all.
  lemma {:induction false} MetGrows(w: seq<Point>, running: set<int>, k: nat)
    requires k <= |w|
    ensures Met(w[..k], running) <= Met(w, running)
    decreases |w| - k
  {
    if k < |w| {
      MetStep(w, running, k);
      MetGrows(w, running, k + 1);
    } else {
      assert w[..k] == w;
    }
  }

  // A walk may stop as soon as n hosts were met.
  lemma MetEnough(w: seq<Point>, running: set<int>, k: nat, n: nat)
    requires k <= |w| && (|Met(w[..k], running)| == n || k == |w|) && |Met(w[..k], running)| <= n
    ensures Met(w[..k], running) == Take(Met(w, running), n)
  {
    MetGrows(w, running, k);
    if k == |w| {
      assert w[..k] == w;
    }
  }

  // ------------------------------------------------- the ring as a rotation

  lemma {:induction false} SplitAt(s: seq<Point>, h: int, i: nat)
    requires i <= |s|
    requires forall k | 0 <= k < i :: s[k].hash < h
    requires forall k | i <= k < |s| :: s[k].hash >= h
    ensures AtLeast(s, h) == s[i..] && LessThan(s, h) == s[..i]
  {
    if s != [] {
      var r := s[1..];
      if i > 0 {
        SplitAt(r, h, i - 1);
        assert r[i - 1..] == s[i..] && [s[0]] + r[..i - 1] == s[..i];
      } else {
        SplitAt(r, h, 0);
        assert [s[0]] + r == s && s[..0] == [];
      }
    }
  }

  // --------------------------------------------- adding and removing points

  // A new point goes in by its hash; a point with that hash stays.
  ghost function Place(s: seq<Point>, p: Point): seq<Point> {
    if s == [] then [p]
    else if p.hash == s[0].hash then s
    else if p.hash < s[0].hash then [p] + s
    else [s[0]] + Place(s[1..], p)
  }

  // The point p goes, if it is there.
  ghost function Drop(s: seq<Point>, p: Point): seq<Point> {
    if s == [] then []
    else if s[0] == p then s[1..]
    else [s[0]] + Drop(s[1..], p)
  }

  // The first n virtual nodes of a server; f gives their hashes.
  ghost function PlaceAll(s: seq<Point>, ip: int, f: nat -> int, n: nat): seq<Point> {
    if n == 0 then s else Place(PlaceAll(s, ip, f, n - 1), Point(f(n - 1), ip))
  }

  ghost function DropAll(s: seq<Point>, ip: int, f: nat -> int, n: nat): seq<Point> {
    if n == 0 then s else Drop(DropAll(s, ip, f, n - 1), Point(f(n - 1), ip))
  }

  lemma {:induction false} PlaceIn(s: seq<Point>, p: Point, x: Point)
    requires Increasing(s)
    ensures x in Place(s, p) <==> x in s || (x == p && forall y | y in s :: y.hash != p.hash)
    ensures Increasing(Place(s, p))
  {
    if s != [] && p.hash > s[0].hash {
      var r := s[1..];
      var t := Place(r, p);
      PlaceIn(r, p, x);
      assert s == [s[0]] + r;
      forall k | 0 <= k < |t| ensures s[0].hash < t[k].hash {
        PlaceIn(r, p, t[k]);
        if t[k] in r {
          var j :| 0 <= j < |r| && r[j] == t[k];
          assert s[j + 1] == t[k];
        }
      }
    } else if s != [] {
      assert s[0] in s;
      if p.hash < s[0].hash {
        forall y | y in s ensures y.hash != p.hash {
          var j :| 0 <= j < |s| && s[j] == y;
        }
      }
    }
  }

  lemma {:induction false} PlaceWithout(s: seq<Point>, p: Point)
    ensures WithoutIp(Place(s, p), p.ip) == WithoutIp(s, p.ip)
  {
    if s == [] {
      assert [p][1..] == [];
    } else if p.hash < s[0].hash {
      assert ([p] + s)[1..] == s;
    } else if p.hash > s[0].hash {
      var r := Place(s[1..], p);
      PlaceWithout(s[1..], p);
      assert ([s[0]] + r)[0] == s[0] && ([s[0]] + r)[1..] == r;
    }
  }

  lemma {:induction false} DropIn(s: seq<Point>, p: Point, x: Point)
    requires Increasing(s)
    ensures x in Drop(s, p) <==> x in s && x != p
    ensures Increasing(Drop(s, p))
  {
    if s != [] {
      var r := s[1..];
      assert s == [s[0]] + r;
      if s[0] == p {
        assert forall j | 0 <= j < |r| :: r[j] == s[j + 1] && r[j].hash > p.hash;
      } else {
        var t := Drop(r, p);
        forall y ensures y in t <==> y in r && y != p {
          DropIn(r, p, y);
        }
        DropIn(r, p, x);
        forall k | 0 <= k < |t| ensures s[0].hash < t[k].hash {
          assert t[k] in t && t[k] in r;
          var j :| 0 <= j < |r| && r[j] == t[k];
          assert s[j + 1] == t[k];
        }
      }
    }
  }

  lemma {:induction false} DropWithout(s: seq<Point>, p: Point)
    ensures WithoutIp(Drop(s, p), p.ip) == WithoutIp(s, p.ip)
  {
    if s != [] && s[0] != p {
      var r := Drop(s[1..], p);
      DropWithout(s[1..], p);
      assert ([s[0]] + r)[0] == s[0] && ([s[0]] + r)[1..] == r;
    }
  }

  lemma {:induction false} WithoutAbsent(s: seq<Point>, ip: int)
    requires forall x | x in s :: x.ip != ip
    ensures WithoutIp(s, ip) == s
  {
    if s != [] {
      assert s[0] in s;
      WithoutAbsent(s[1..], ip);
      assert s == [s[0]] + s[1..];
    }
  }

  lemma {:induction false} PlaceAllWithout(s: seq<Point>, ip: int, f: nat -> int, n: nat)
    ensures WithoutIp(PlaceAll(s, ip, f, n), ip) == WithoutIp(s, ip)
  {
    if n > 0 {
      PlaceAllWithout(s, ip, f, n - 1);
      PlaceWithout(PlaceAll(s, ip, f, n - 1), Point(f(n - 1), ip));
    }
  }

  lemma {:induction false} DropAllIn(s: seq<Point>, ip: int, f: nat -> int, n: nat, x: Point)
    requires Increasing(s)
    ensures Increasing(DropAll(s, ip, f, n))
    ensures x in DropAll(s, ip, f, n) <==> x in s && !(x.ip == ip && Among(f, n, x.hash))
  {
    if n > 0 {
      DropAllIn(s, ip, f, n - 1, x);
      DropIn(DropAll(s, ip, f, n - 1), Point(f(n - 1), ip), x);
      assert Among(f, n, x.hash) <==> Among(f, n - 1, x.hash) || x.hash == f(n - 1);
    }
  }

  lemma {:induction false} DropAllWithout(s: seq<Point>, ip: int, f: nat -> int, n: nat)
    ensures WithoutIp(DropAll(s, ip, f, n), ip) == WithoutIp(s, ip)
  {
    if n > 0 {
      DropAllWithout(s, ip, f, n - 1);
      DropWithout(DropAll(s, ip, f, n - 1), Point(f(n - 1), ip));
    }
  }

  // The hash of one of the first n virtual nodes.
  ghost predicate Among(f: nat -> int, n: nat, hash: int) {
    exists i :: 0 <= i < n && f(i) == hash
  }

  // Every point of a server lies at the hash of one of its virtual nodes.
  ghost predicate Rooted(s: seq<Point>, ip: int, f: nat -> int, n: nat) {
    forall x | x in s && x.ip == ip :: Among(f, n, x.hash)
  }

  // Dropping all virtual nodes leaves no point of the server and every other.
  lemma DropAllDone(s: seq<Point>, ip: int, f: nat -> int, n: nat)
    requires Increasing(s) && Rooted(s, ip, f, n)
    ensures DropAll(s, ip, f, n) == WithoutIp(s, ip)
  {
    var d := DropAll(s, ip, f, n);
    forall x | x in d ensures x.ip != ip {
      DropAllIn(s, ip, f, n, x);
    }
    WithoutAbsent(d, ip);
    DropAllWithout(s, ip, f, n);
  }

  // PlaceAll adds nothing but points of the server at its virtual nodes.
  lemma {:induction false} PlaceAllIn(s: seq<Point>, ip: int, f: nat -> int, n: nat, x: Point)
    requires Increasing(s)
    ensures Increasing(PlaceAll(s, ip, f, n))
    ensures x in s ==> x in PlaceAll(s, ip, f, n)
    ensures x in PlaceAll(s, ip, f, n) ==> x in s || (x.ip == ip && Among(f, n, x.hash))
  {
    if n > 0 {
      PlaceAllIn(s, ip, f, n - 1, x);
      PlaceIn(PlaceAll(s, ip, f, n - 1), Point(f(n - 1), ip), x);
    }
  }

  // Adding a server leaves all points at home.
  lemma PlaceAllRooted(s: seq<Point>, ip: int, f: nat -> int, n: nat)
    requires Increasing(s) && forall x | x in s :: x.ip != ip
    ensures Rooted(PlaceAll(s, ip, f, n), ip, f, n)
  {
    forall x | x in PlaceAll(s, ip, f, n) && x.ip == ip ensures Among(f, n, x.hash) {
      PlaceAllIn(s, ip, f, n, x);
    }
  }

  lemma PlaceAllOthers(s: seq<Point>, ip: int, f: nat -> int, n: nat, jp: int, g: nat -> int, m: nat)
    requires Increasing(s) && ip != jp && Rooted(s, jp, g, m)
    ensures Rooted(PlaceAll(s, ip, f, n), jp, g, m)
  {
    forall x | x in PlaceAll(s, ip, f, n) && x.ip == jp ensures Among(g, m, x.hash) {
      PlaceAllIn(s, ip, f, n, x);
    }
  }

  lemma {:induction false} WithoutIn(s: seq<Point>, ip: int, x: Point)
    ensures x in WithoutIp(s, ip) <==> x in s && x.ip != ip
  {
    if s != [] {
      WithoutIn(s[1..], ip, x);
      assert s == [s[0]] + s[1..];
    }
  }

  // Adding a server that is not on the ring and removing it again gives back
  // the very same ring.
  lemma AddThenRemove(s: seq<Point>, ip: int, f: nat -> int, n: nat)
    requires forall x | x in s :: x.ip != ip
    ensures WithoutIp(PlaceAll(s, ip, f, n), ip) == s
  {
    PlaceAllWithout(s, ip, f, n);
    WithoutAbsent(s, ip);
  }

  // A server that was added but does not work yet changes no host.
  lemma AddedIdle(s: seq<Point>, ip: int, f: nat -> int, n: nat, running: set<int>, h: int, k: nat)
    requires (forall x | x in s :: x.ip != ip) && ip !in running
    ensures Hosts(PlaceAll(s, ip, f, n), running, h, k) == Hosts(s, running, h, k)
  {
    AddThenRemove(s, ip, f, n);
    IdleServer(PlaceAll(s, ip, f, n), ip, running, h, k);
  }

  // Once it works, it takes over at most one of the hosts of a key; the others
  // are hosts as before, in the same order.
  lemma AddedServer(s: seq<Point>, ip: int, f: nat -> int, n: nat, running: set<int>, h: int, k: nat)
    requires forall x | x in s :: x.ip != ip
    ensures Handover(Hosts(PlaceAll(s, ip, f, n), running + {ip}, h, k), Hosts(s, running, h, k), {ip})
  {
    AddThenRemove(s, ip, f, n);
    OneServerMore(PlaceAll(s, ip, f, n), ip, running, running + {ip}, h, k);
  }

  lemma RemovedServer(s: seq<Point>, ip: int, running: set<int>, h: int, k: nat)
    ensures Handover(Hosts(s, running, h, k), Hosts(WithoutIp(s, ip), running - {ip}, h, k), {ip})
  {
    OneServerMore(s, ip, running - {ip}, running, h, k);
  }

  // A server that was on the ring already and now works.
  lemma StartedServer(s: seq<Point>, ip: int, running: set<int>, h: int, k: nat)
    requires ip !in running
    ensures Handover(Hosts(s, running + {ip}, h, k), Hosts(s, running, h, k), {ip})
  {
    IdleServer(s, ip, running, h, k);
    OneServerMore(s, ip, running, running + {ip}, h, k);
  }

  lemma {:induction false} OtherTwice(s: seq<int>, a: int, d: set<int>)
    ensures Other(Other(s, {a}), d) == Other(s, d + {a})
  {
    if s != [] {
      var r, x, o := s[..|s| - 1], s[|s| - 1], Other(s[..|s| - 1], {a});
      OtherTwice(r, a, d);
      if x != a {
        assert (o + [x])[..|o|] == o;
      } else {
        assert o + [] == o;
      }
    }
  }

  lemma {:induction false} OtherNone(s: seq<int>)
    ensures Other(s, {}) == s
  {
    if s != [] {
      OtherNone(s[..|s| - 1]);
      assert s == s[..|s| - 1] + [s[|s| - 1]];
    }
  }

  // One server more hands over to one host more.
  lemma HandoverOn(a: seq<int>, b: seq<int>, c: seq<int>, ip: int, d: set<int>)
    requires Handover(a, b, {ip}) && Handover(b, c, d) && ip !in d
    ensures Handover(a, c, d + {ip})
  {
    var o := Other(a, {ip});
    OtherTwice(a, ip, d);
    OtherGrows(b, |o|, d);
    assert b[..|o|] == o;
  }

  // Servers that were on the ring already and now work: no key hands over to more
  // of them than there are.
  lemma {:induction false} StartedServers(s: seq<Point>, d: set<int>, running: set<int>, h: int, k: nat)
    requires d !! running
    ensures Handover(Hosts(s, running + d, h, k), Hosts(s, running, h, k), d)
  {
    if ip: int :| ip in d {
      var r := d - {ip};
      StartedServers(s, r, running, h, k);
      StartedServer(s, ip, running + r, h, k);
      assert running + r + {ip} == running + d && r + {ip} == d;
      HandoverOn(Hosts(s, running + d, h, k), Hosts(s, running + r, h, k), Hosts(s, running, h, k), ip, r);
    } else {
      assert forall ip: int :: ip !in d;
      assert d == {} && running + d == running;
      OtherNone(Hosts(s, running, h, k));
    }
  }

  // --------------------------------------------------------------- counting

  // The virtual nodes of a server have different hashes.
  ghost predicate Scattered(f: nat -> int, n: nat) {
    forall i, j | 0 <= i < j < n :: f(i) != f(j)
  }

  lemma {:induction false} PlaceSize(s: seq<Point>, p: Point)
    requires forall y | y in s :: y.hash != p.hash
    ensures |Place(s, p)| == |s| + 1
  {
    if s != [] {
      assert s[0] in s;
      PlaceSize(s[1..], p);
    }
  }

  // Then each of them becomes a point, unless its place is taken.
  lemma {:induction false} PlaceAllSize(s: seq<Point>, ip: int, f: nat -> int, n: nat)
    requires Increasing(s) && Scattered(f, n) && forall y | y in s :: !Among(f, n, y.hash)
    ensures |PlaceAll(s, ip, f, n)| == |s| + n
  {
    if n > 0 {
      var t := PlaceAll(s, ip, f, n - 1);
      forall y | y in s ensures !Among(f, n - 1, y.hash) {
        if i :| 0 <= i < n - 1 && f(i) == y.hash {
          assert Among(f, n, y.hash);
        }
      }
      PlaceAllSize(s, ip, f, n - 1);
      forall y | y in t ensures y.hash != f(n - 1) {
        PlaceAllIn(s, ip, f, n - 1, y);
        if y in s && y.hash == f(n - 1) {
          assert Among(f, n, y.hash);
        }
      }
      PlaceSize(t, Point(f(n - 1), ip));
    }
  }
}
