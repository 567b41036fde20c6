// The hash ring: a list of servers and the tree of their virtual nodes.
module Conhash {
  import opened Collections
  import opened Servers
  import opened RbShape
  import opened RbRules
  import opened RbTree
  import opened RbTravel
  import opened HashRing
  import opened Text
  import opened RingPoints

  // The counter of virtual nodes is an unsigned int.
  function Wrapped(n: int): nat {
    n % U_INT
  }

  lemma WrapUp(n: nat)
    ensures Wrapped(Wrapped(n) + 1) == Wrapped(n + 1)
    ensures n > 0 ==> Wrapped(Wrapped(n) - 1) == Wrapped(n - 1)
  {
    var q, r := n / U_INT, n % U_INT;
    assert n == U_INT * q + r;
    Remainder(n + 1, q, r + 1);
    Remainder(n - 1, q, r - 1);
  }

  lemma Remainder(n: int, q: int, r: int)
    requires n == U_INT * q + r
    ensures n % U_INT == r % U_INT
  {
  }

  // What a lookup returns for a ring s, when its counter is right modulo 2^32.
  ghost function LookedUp(s: seq<Point>, running: set<int>, h: int, n: nat): seq<int> {
    if Wrapped(|s|) == 0 then [] else Hosts(s, running, h, n)
  }

  // Those are the hosts, unless the counter reads 0 although the ring has
  // running servers.
  lemma LookedUpHosts(s: seq<Point>, running: set<int>, h: int, n: nat)
    requires n > 0
    ensures LookedUp(s, running, h, n) == Hosts(s, running, h, n) <==>
            Wrapped(|s|) != 0 || Candidates(s, running) == {}
  {
    HostsComplete(s, running, h, n);
  }

  // Every virtual node is labelled with its own hash and a known server.
  ghost predicate Owned(e: seq<RbNode>, known: seq<Server>) {
    forall n | n in e :: n.data.hash == n.key && n.data.node != null && n.data.node in known
  }

  // No two servers share an address.
  ghost predicate Different(list: seq<Server>) {
    forall i, j | 0 <= i < j < |list| :: list[i].ip != list[j].ip
  }

  // The list hangs below its dummy head.
  ghost predicate Linked(head: Server, list: seq<Server>)
    reads head`next, list`next
  {
    && head !in list
    && head.next == Follows(list, null, -1)
    && forall i {:trigger list[i].next} | 0 <= i < |list| :: list[i].next == Follows(list, null, i)
  }

  lemma Next(head: Server, list: seq<Server>, i: nat)
    requires Linked(head, list) && i < |list|
    ensures list[i].next == Follows(list, null, i)
  {
  }

  // The list without its element at place i.
  lemma CutOut(list: seq<Server>, i: nat)
    requires i < |list| && Different(list)
    ensures var rest := list[..i] + list[i + 1..];
            && Different(rest)
            && (forall t | t in rest :: t in list && t.ip != list[i].ip)
            && (forall t | t in list && t.ip != list[i].ip :: t in rest)
  {
    var rest := list[..i] + list[i + 1..];
    forall t | t in rest ensures t in list && t.ip != list[i].ip {
      var j :| 0 <= j < |rest| && rest[j] == t;
      assert list[if j < i then j else j + 1] == t;
    }
    forall t | t in list && t.ip != list[i].ip ensures t in rest {
      var k :| 0 <= k < |list| && list[k] == t;
      assert rest[if k < i then k else k - 1] == t;
    }
  }

  // The list after a new server was put at its end.
  ghost predicate Grown(before: seq<Server>, list: seq<Server>, ip: UInt, replica: UInt)
    reads list
  {
    && |list| == |before| + 1 && list[..|before|] == before
    && list[|before|].ip == ip && list[|before|].replicas == replica
    && list[|before|].state == NODE_STATE_IDLE
  }

  ghost function AtWork(list: seq<Server>): set<int>
    reads list`state
  {
    set i | 0 <= i < |list| && list[i].state == NODE_STATE_RUN :: list[i].ip
  }

  ghost function Addresses(list: seq<Server>): set<int> {
    set i | 0 <= i < |list| :: list[i].ip
  }

  // What a walk over the nodes sees of their servers.
  ghost predicate Sighted(e: seq<RbNode>, running: set<int>, known: seq<Server>)
    reads known`state
  {
    forall n | n in e ::
      && n.data.node != null && n.data.node in known
      && (n.data.node.state == NODE_STATE_RUN <==> n.data.node.ip in running)
  }

  // A server that is not on the list has no points.
  lemma Absent(e: seq<RbNode>, list: seq<Server>, ip: int)
    requires Owned(e, list) && forall s | s in list :: s.ip != ip
    ensures forall x | x in PointsOf(e) :: x.ip != ip
  {
    var s := PointsOf(e);
    forall x | x in s ensures x.ip != ip {
      var j :| 0 <= j < |s| && s[j] == x;
      assert e[j] in e;
    }
  }

  lemma OwnedMore(e: seq<RbNode>, list: seq<Server>, q: Server)
    requires Owned(e, list)
    ensures Owned(e, list + [q])
  {
  }

  // No point of q is left.
  lemma OwnedLess(e: seq<RbNode>, list: seq<Server>, rest: seq<Server>, q: Server)
    requires Owned(e, list) && (forall t | t in list && t.ip != q.ip :: t in rest)
    requires exists s :: PointsOf(e) == WithoutIp(s, q.ip)
    ensures Owned(e, rest)
  {
    var s :| PointsOf(e) == WithoutIp(s, q.ip);
    forall n | n in e ensures n.data.node in rest {
      var j :| 0 <= j < |e| && e[j] == n;
      WithoutIn(s, q.ip, PointsOf(e)[j]);
      assert PointsOf(e)[j] in PointsOf(e);
    }
  }

  // A virtual node at a free place becomes a point.
  lemma NewPoint(e: seq<RbNode>, n: RbNode, known: seq<Server>)
    requires Increasing(PointsOf(e)) && Owned(e, known) && Owned([n], known)
    requires forall m | m in e :: m.key != n.key
    ensures var e' := InsertByKey(e, n);
            && PointsOf(e') == Place(PointsOf(e), PointOf(n)) && Increasing(PointsOf(e'))
            && Owned(e', known) && |e'| == |e| + 1
  {
    assert n in [n];
    InsertIn(e, n);
    PointsInsert(e, n);
    PlaceIn(PointsOf(e), PointOf(n), PointOf(n));
  }

  // A taken place keeps its point.
  lemma TakenPoint(e: seq<RbNode>, n: RbNode, p: Point)
    requires Increasing(PointsOf(e)) && n in e && n.key == p.hash
    ensures Place(PointsOf(e), p) == PointsOf(e)
  {
    var k :| 0 <= k < |e| && e[k] == n;
    PlaceTaken(PointsOf(e), p, PointsOf(e)[k]);
  }

  lemma OldPoint(e: seq<RbNode>, n: RbNode, known: seq<Server>)
    requires Increasing(PointsOf(e)) && Owned(e, known) && n in e
    ensures var e' := Without(e, n);
            && PointsOf(e') == Drop(PointsOf(e), PointOf(n)) && Increasing(PointsOf(e'))
            && Owned(e', known) && |e'| == |e| - 1
  {
    forall i, j | 0 <= i < j < |e| ensures e[i].key <= e[j].key {
      assert PointsOf(e)[i].hash < PointsOf(e)[j].hash;
    }
    WithoutKeepsOrder(e, n);
    PointsWithout(e, n);
    DropIn(PointsOf(e), PointOf(n), PointOf(n));
  }

  // The place of p belongs to a point of another server.
  lemma OtherPoint(e: seq<RbNode>, n: RbNode, p: Point)
    requires Increasing(PointsOf(e)) && n in e && n.key == p.hash && PointOf(n) != p
    ensures Drop(PointsOf(e), p) == PointsOf(e)
  {
    var s := PointsOf(e);
    var k :| 0 <= k < |e| && e[k] == n;
    forall j | 0 <= j < |s| ensures s[j] != p {
      assert s[k].hash == p.hash && (j < k ==> s[j].hash < s[k].hash) && (k < j ==> s[k].hash < s[j].hash);
    }
    DropAbsent(s, p);
  }

  lemma NoPoint(e: seq<RbNode>, p: Point)
    requires forall n | n in e :: n.key != p.hash
    ensures Drop(PointsOf(e), p) == PointsOf(e)
  {
    var s := PointsOf(e);
    forall j | 0 <= j < |s| ensures s[j].hash != p.hash {
      assert e[j] in e;
    }
    DropAbsent(s, p);
  }

  class Ring {
    const tree: Tree
    const nodes: Server          // dummy head of the server list
    const hash: string -> int
    var ivnodes: nat
    ghost var servers: seq<Server>

    ghost function Points(): seq<Point>
      reads tree
    {
      PointsOf(tree.Elements())
    }

    // The points belong to the known servers, each at one of its virtual nodes,
    // no two at the same place, and they are counted.
    ghost predicate Indexed(known: seq<Server>)
      reads this`ivnodes, tree, tree.repr, tree.nil, tree.anchor
    {
      && tree.Valid()
      && Increasing(Points())
      && Owned(tree.Elements(), known)
      && ivnodes == Wrapped(|tree.Elements()|)
    }

    ghost predicate AtHome(s: Server)
      reads tree
    {
      Rooted(Points(), s.ip, NodeHash(hash, s.ip), s.replicas)
    }

    ghost predicate Valid()
      reads this, tree, tree.repr, tree.nil, tree.anchor, nodes`next, servers`next
    {
      && Indexed(servers)
      && (forall s | s in servers :: AtHome(s))
      && Linked(nodes, servers) && Different(servers)
    }

    constructor (hash: string -> int)
      ensures Valid() && Points() == [] && servers == [] && this.hash == hash
      ensures fresh(tree) && fresh(tree.nil) && fresh(nodes) && fresh(tree.repr)
    {
      this.hash := hash;
      var t := new Tree();
      tree := t;
      nodes := new Server(0, 0);
      ivnodes := 0;
      servers := [];
    }

    // --------------------------------------------------------- virtual nodes

    method PutVnode(rbnode: RbNode, ghost known: seq<Server>)
      requires Indexed(known) && (forall m | m in tree.Elements() :: m.key != rbnode.key)
      requires rbnode !in tree.repr && rbnode != tree.nil && rbnode != tree.anchor
      requires Owned([rbnode], known)
      modifies this`ivnodes, tree, tree.repr, rbnode
      ensures Indexed(known) && tree.repr == old(tree.repr) + {rbnode}
      ensures Points() == Place(old(Points()), PointOf(rbnode))
    {
      ghost var n := |tree.Elements()|;
      NewPoint(tree.Elements(), rbnode, known);
      WrapUp(n);
      tree.Insert(rbnode);
      ivnodes := Wrapped(ivnodes + 1);
    }

    method AddReplica(node: Server, i: nat, ghost known: seq<Server>)
      requires Indexed(known) && node in known
      modifies this`ivnodes, tree, tree.repr
      ensures Indexed(known) && fresh(tree.repr - old(tree.repr))
      ensures Points() == Place(old(Points()), Point(hash(NodeName(node.ip, i)), node.ip))
    {
      var h := hash(NodeName(node.ip, i));
      var found, _ := tree.EqKey(h);
      if found == null {
        var rbnode := new RbNode(h, VNode(h, node));
        PutVnode(rbnode, known);
      } else {
        TakenPoint(tree.Elements(), found, Point(h, node.ip));
      }
    }

    method AddReplicas(node: Server, ghost known: seq<Server>)
      requires Indexed(known) && node in known
      modifies this`ivnodes, tree, tree.repr
      ensures Indexed(known) && fresh(tree.repr - old(tree.repr))
      ensures Points() == PlaceAll(old(Points()), node.ip, NodeHash(hash, node.ip), node.replicas)
    {
      var i := 0;
      ghost var s, f, now := Points(), NodeHash(hash, node.ip), Points();
      while i < node.replicas
        invariant 0 <= i <= node.replicas && now == PlaceAll(s, node.ip, f, i)
        invariant fresh(tree.repr - old(tree.repr))
        invariant Indexed(known) && Points() == now
      {
        AddReplica(node, i, known);
        now := Place(now, Point(f(i), node.ip));
        i := i + 1;
      }
    }

    method TakeVnode(rbnode: RbNode, ghost known: seq<Server>)
      requires Indexed(known) && rbnode in tree.Elements()
      modifies this`ivnodes, tree, tree.repr, tree.nil
      ensures Indexed(known) && tree.repr == old(tree.repr) - {rbnode}
      ensures Points() == Drop(old(Points()), PointOf(rbnode))
    {
      ghost var n := |tree.Elements()|;
      OldPoint(tree.Elements(), rbnode, known);
      WrapUp(n);
      InorderNodes(tree.shape, rbnode);
      ivnodes := Wrapped(ivnodes - 1);
      tree.Delete(rbnode);
    }

    method DelReplica(node: Server, i: nat, ghost known: seq<Server>)
      requires Indexed(known) && (forall s | s in known && s.ip == node.ip :: s == node)
      modifies this`ivnodes, tree, tree.repr, tree.nil
      ensures Indexed(known) && tree.repr <= old(tree.repr)
      ensures Points() == Drop(old(Points()), Point(hash(NodeName(node.ip, i)), node.ip))
    {
      var h := hash(NodeName(node.ip, i));
      var rbnode, _ := tree.EqKey(h);
      if rbnode != null {
        var vnode := rbnode.data;
        if vnode.hash == h && vnode.node == node {
          TakeVnode(rbnode, known);
        } else {
          OtherPoint(tree.Elements(), rbnode, Point(h, node.ip));
        }
      } else {
        NoPoint(tree.Elements(), Point(h, node.ip));
      }
    }

    method DelReplicas(node: Server, ghost known: seq<Server>)
      requires Indexed(known) && (forall s | s in known && s.ip == node.ip :: s == node)
      modifies this`ivnodes, tree, tree.repr, tree.nil
      ensures Indexed(known) && tree.repr <= old(tree.repr)
      ensures Points() == DropAll(old(Points()), node.ip, NodeHash(hash, node.ip), node.replicas)
    {
      var i := 0;
      ghost var s, f := Points(), NodeHash(hash, node.ip);
      while i < node.replicas
        invariant 0 <= i <= node.replicas
        invariant Indexed(known) && tree.repr <= old(tree.repr)
        invariant Points() == DropAll(s, node.ip, f, i)
      {
        DelReplica(node, i, known);
        i := i + 1;
      }
    }

    // ---------------------------------------------------------- server list

    // The server with the given address, or none.
    method GetNode(ip: UInt) returns (p: Server?)
      requires Linked(nodes, servers)
      ensures p != null ==> p in servers && p.ip == ip
      ensures p == null ==> forall s | s in servers :: s.ip != ip
    {
      p := nodes.next;
      ghost var i := 0;
      while p != null
        invariant 0 <= i <= |servers|
        invariant p == if i < |servers| then servers[i] else null
        invariant forall j | 0 <= j < i :: servers[j].ip != ip
        decreases |servers| - i
      {
        if p.ip == ip {
          return;
        }
        p := p.next;
        i := i + 1;
      }
    }

    // Every server starts to work. Of the servers that did not work before, a key
    // hands over to no more than there are.
    method Reset()
      requires Valid()
      modifies servers`state
      ensures Valid() && Points() == old(Points()) && servers == old(servers)
      ensures forall s | s in servers :: s.state == 2
      ensures Running() == Addresses(servers) && old(Running()) <= Running()
      ensures forall h, n: nat ::
        Handover(Hosts(Points(), Running(), h, n), old(Hosts(Points(), Running(), h, n)), Running() - old(Running()))
    {
      ghost var s, running := Points(), Running();
      StartAll();
      ghost var d := Running() - running;
      assert Running() == running + d;
      forall h, n: nat ensures Handover(Hosts(s, Running(), h, n), Hosts(s, running, h, n), d) {
        StartedServers(s, d, running, h, n);
      }
    }

    method StartAll()
      requires Linked(nodes, servers)
      modifies servers`state
      ensures Linked(nodes, servers)
      ensures forall s | s in servers :: s.state == NODE_STATE_RUN
      ensures Running() == Addresses(servers)
    {
      var p := nodes.next;
      ghost var i, list := 0, servers;
      while p != null
        invariant 0 <= i <= |list|
        invariant p == Follows(list, null, i - 1)
        invariant forall j | 0 <= j < i :: list[j].state == NODE_STATE_RUN
        invariant servers == list && Linked(nodes, list)
        decreases |list| - i
      {
        p.state := NODE_STATE_RUN;
        p := p.next;
        i := i + 1;
      }
    }

    // The addresses of the servers at work.
    ghost function Running(): set<int>
      reads this`servers, servers`state
    {
      AtWork(servers)
    }

    method Append(p: Server)
      requires Linked(nodes, servers) && p != nodes && p !in servers && p.next == null
      modifies this`servers, nodes`next, servers`next
      ensures servers == old(servers) + [p] && Linked(nodes, servers)
    {
      ghost var i, list := 0, servers;
      var last := nodes;
      while last.next != null
        invariant 0 <= i <= |list|
        invariant last == if i == 0 then nodes else list[i - 1]
        modifies {}
        decreases |list| - i
      {
        if i > 0 { Next(nodes, list, i - 1); }
        last := last.next;
        i := i + 1;
      }
      if i > 0 { Next(nodes, list, i - 1); }
      assert forall j | 0 <= j < |list| - 1 :: list[j] != last by {
        forall j | 0 <= j < |list| - 1 ensures list[j] != last { Next(nodes, list, j); }
      }
      last.next := p;
      servers := list + [p];
      forall j | 0 <= j < |servers|
        ensures servers[j].next == Follows(servers, null, j)
      {
        if j < |list| - 1 {
          assert servers[j] == list[j] && servers[j + 1] == list[j + 1];
        }
      }
    }

    // After list grew by q, everything is at home on the new ring.
    lemma HomeAfterAdd(s: seq<Point>, list: seq<Server>, q: Server)
      requires Increasing(s) && (forall x | x in s :: x.ip != q.ip)
      requires Points() == PlaceAll(s, q.ip, NodeHash(hash, q.ip), q.replicas)
      requires forall t | t in list :: t.ip != q.ip && Rooted(s, t.ip, NodeHash(hash, t.ip), t.replicas)
      ensures forall t | t in list + [q] :: AtHome(t)
    {
      var f, n := NodeHash(hash, q.ip), q.replicas;
      forall t | t in list + [q] ensures AtHome(t) {
        if t == q {
          PlaceAllRooted(s, q.ip, f, n);
        } else {
          PlaceAllOthers(s, q.ip, f, n, t.ip, NodeHash(hash, t.ip), t.replicas);
        }
      }
    }

    // Puts the virtual nodes of q, the last server of the list, on the ring.
    method Fill(q: Server, ghost list: seq<Server>)
      requires Indexed(list) && (forall t | t in list :: AtHome(t) && t.ip != q.ip)
      requires servers == list + [q]
      modifies this`ivnodes, tree, tree.repr
      ensures Indexed(servers) && (forall t | t in servers :: AtHome(t))
      ensures fresh(tree.repr - old(tree.repr))
      ensures Points() == PlaceAll(old(Points()), q.ip, NodeHash(hash, q.ip), q.replicas)
    {
      Absent(tree.Elements(), list, q.ip);
      OwnedMore(tree.Elements(), list, q);
      ghost var s := Points();
      AddReplicas(q, servers);
      HomeAfterAdd(s, list, q);
    }

    lemma DifferentMore(list: seq<Server>, q: Server)
      requires Different(list) && forall t | t in list :: t.ip != q.ip
      ensures Different(list + [q])
    {
      var more := list + [q];
      forall i, j | 0 <= i < j < |more| ensures more[i].ip != more[j].ip {
        assert more[i] in list;
      }
    }

    method AddFresh(ip: UInt, replica: UInt)
      requires Valid() && forall s | s in servers :: s.ip != ip
      modifies this, tree, tree.repr, nodes`next, servers`next
      ensures Valid() && fresh(tree.repr - old(tree.repr))
      ensures Grown(old(servers), servers, ip, replica) && fresh(servers[|servers| - 1])
      ensures Points() == PlaceAll(old(Points()), ip, NodeHash(hash, ip), replica)
    {
      ghost var list := servers;
      var q := new Server(ip, replica);
      Append(q);
      assert Indexed(list) && tree.repr == old(tree.repr);
      DifferentMore(list, q);
      Fill(q, list);
      assert Linked(nodes, servers);
    }

    // Adds an idle server, unless the address is on the ring already. No key
    // changes its hosts.
    method AddNode(ip: UInt, replica: UInt) returns (r: int)
      requires Valid()
      modifies this, tree, tree.repr, nodes`next, servers`next
      ensures Valid() && r == 0 && fresh(tree.repr - old(tree.repr))
      ensures (exists s | s in old(servers) :: s.ip == ip) ==> servers == old(servers) && Points() == old(Points())
      ensures (forall s | s in old(servers) :: s.ip != ip) ==>
        && Grown(old(servers), servers, ip, replica) && fresh(servers[|servers| - 1])
        && Points() == PlaceAll(old(Points()), ip, NodeHash(hash, ip), replica)
      ensures Running() == old(Running())
      ensures forall h, n: nat :: Hosts(Points(), Running(), h, n) == old(Hosts(Points(), Running(), h, n))
    {
      var p := GetNode(ip);
      if p != null {
        return 0;
      }
      ghost var s, running, list := Points(), Running(), servers;
      Absent(tree.Elements(), list, ip);
      AddFresh(ip, replica);
      RunningGrown(list, ip, replica, running);
      SameHosts(s, ip, replica, running);
      r := 0;
    }

    // No key changes its hosts when an idle server comes in.
    lemma SameHosts(s: seq<Point>, ip: UInt, replica: UInt, running: set<int>)
      requires (forall x | x in s :: x.ip != ip) && ip !in running
      ensures forall h, n: nat ::
        Hosts(PlaceAll(s, ip, NodeHash(hash, ip), replica), running, h, n) == Hosts(s, running, h, n)
    {
      forall h, n: nat
        ensures Hosts(PlaceAll(s, ip, NodeHash(hash, ip), replica), running, h, n) == Hosts(s, running, h, n)
      {
        AddedIdle(s, ip, NodeHash(hash, ip), replica, running, h, n);
      }
    }

    // An idle server more is no running server more.
    lemma RunningGrown(list: seq<Server>, ip: UInt, replica: UInt, running: set<int>)
      requires Grown(list, servers, ip, replica)
      requires running == AtWork(list)
      ensures Running() == running
    {
      forall i | 0 <= i < |list| ensures servers[i] == list[i] {
        assert servers[..|list|][i] == list[i];
      }
    }

    // Takes the server at place i off the list; before is the one ahead of it.
    method Detach(before: Server, q: Server, ghost i: nat)
      requires Linked(nodes, servers) && i < |servers| && q == servers[i]
      requires before == if i == 0 then nodes else servers[i - 1]
      requires Different(servers)
      modifies this`servers, before`next
      ensures servers == old(servers[..i] + servers[i + 1..]) && Linked(nodes, servers)
    {
      ghost var list := servers;
      ghost var rest := list[..i] + list[i + 1..];
      Next(nodes, list, i);
      servers := rest;
      before.next := q.next;
      forall j | 0 <= j < |rest|
        ensures rest[j].next == Follows(rest, null, j)
      {
        var k := if j < i then j else j + 1;
        assert rest[j] == list[k] && list[k] in list && k < |list|;
        if i > 0 && k == i - 1 {
          assert list[k] == before && (i + 1 < |list| ==> rest[i] == list[i + 1]);
        } else {
          assert list[k] != before by {
            if i > 0 {
              assert list[if k < i - 1 then k else i - 1].ip != list[if k < i - 1 then i - 1 else k].ip;
            }
          }
          assert list[k].next == old(list[k].next) == Follows(list, null, k);
        }
      }
      assert Linked(nodes, rest);
    }

    // After all virtual nodes of q were dropped.
    lemma Gone(s: seq<Point>, list: seq<Server>, rest: seq<Server>, q: Server)
      requires Points() == DropAll(s, q.ip, NodeHash(hash, q.ip), q.replicas)
      requires Increasing(s) && Increasing(Points()) && Owned(tree.Elements(), list)
      requires Rooted(s, q.ip, NodeHash(hash, q.ip), q.replicas)
      requires forall t | t in rest :: t in list && Rooted(s, t.ip, NodeHash(hash, t.ip), t.replicas)
      requires forall t | t in list && t.ip != q.ip :: t in rest
      ensures Points() == WithoutIp(s, q.ip)
      ensures Owned(tree.Elements(), rest) && (forall t | t in rest :: AtHome(t))
    {
      DropAllDone(s, q.ip, NodeHash(hash, q.ip), q.replicas);
      forall t | t in rest ensures AtHome(t) {
        forall x | x in Points() && x.ip == t.ip ensures Among(NodeHash(hash, t.ip), t.replicas, x.hash) {
          WithoutIn(s, q.ip, x);
        }
      }
      OwnedLess(tree.Elements(), list, rest, q);
    }

    // Takes the virtual nodes of q off the ring, after q was taken off the list.
    method Clear(q: Server, ghost list: seq<Server>, ghost i: nat)
      requires i < |list| && q == list[i] && Different(list) && servers == list[..i] + list[i + 1..]
      requires Indexed(list) && (forall t | t in list :: AtHome(t))
      modifies this`ivnodes, tree, tree.repr, tree.nil
      ensures Indexed(servers) && (forall t | t in servers :: AtHome(t)) && tree.repr <= old(tree.repr)
      ensures Points() == WithoutIp(old(Points()), q.ip)
      ensures Different(servers)
      ensures forall t | t in servers :: t in list && t.ip != q.ip
      ensures forall t | t in list && t.ip != q.ip :: t in servers
    {
      ghost var s := Points();
      DelReplicas(q, list);
      CutOut(list, i);
      Gone(s, list, servers, q);
    }

    // Removes the server at place i with all its virtual nodes.
    method Remove(before: Server, q: Server, ghost i: nat)
      requires Valid() && i < |servers| && q == servers[i]
      requires before == if i == 0 then nodes else servers[i - 1]
      modifies this, tree, tree.repr, tree.nil, before`next
      ensures Valid() && tree.repr <= old(tree.repr)
      ensures Points() == WithoutIp(old(Points()), q.ip)
      ensures forall t | t in servers :: t in old(servers) && t.ip != q.ip
      ensures forall t | t in old(servers) && t.ip != q.ip :: t in servers
    {
      ghost var list := servers;
      Detach(before, q, i);
      assert Indexed(list) && tree.repr == old(tree.repr);
      Clear(q, list, i);
      assert Linked(nodes, servers);
    }

    lemma RunningCut(list: seq<Server>, ip: nat, running: set<int>)
      requires forall s | s in servers :: s in list && s.ip != ip
      requires forall s | s in list && s.ip != ip :: s in servers
      requires running == AtWork(list)
      ensures Running() == running - {ip}
    {
      forall x ensures x in Running() <==> x in running - {ip} {
        if x in Running() {
          var j :| 0 <= j < |servers| && servers[j].state == NODE_STATE_RUN && servers[j].ip == x;
          var i :| 0 <= i < |list| && list[i] == servers[j];
        }
        if x in running - {ip} {
          var i :| 0 <= i < |list| && list[i].state == NODE_STATE_RUN && list[i].ip == x;
          var j :| 0 <= j < |servers| && servers[j] == list[i];
        }
      }
    }

    // Searches the list for the address and removes the server found.
    method Withdraw(ip: UInt)
      requires Valid()
      modifies this, tree, tree.repr, tree.nil, nodes`next, servers`next
      ensures Valid() && tree.repr <= old(tree.repr)
      ensures Points() == WithoutIp(old(Points()), ip)
      ensures (forall s | s in old(servers) :: s.ip != ip) ==> servers == old(servers)
      ensures forall s | s in servers :: s in old(servers) && s.ip != ip
      ensures forall s | s in old(servers) && s.ip != ip :: s in servers
    {
      var p := nodes;
      var q := p.next;
      ghost var i, list := 0, servers;
      while q != null
        invariant 0 <= i <= |list|
        invariant p == if i == 0 then nodes else list[i - 1]
        invariant q == Follows(list, null, i - 1)
        invariant forall j | 0 <= j < i :: list[j].ip != ip
        modifies {}
        decreases |list| - i
      {
        if ip == q.ip {
          break;
        }
        Next(nodes, list, i);
        p := q;
        q := p.next;
        i := i + 1;
      }
      if q != null {
        Remove(p, q, i);
      } else {
        Absent(tree.Elements(), list, ip);
        WithoutAbsent(Points(), ip);
      }
    }

    // Removes the server with the given address, if there is one. Every key
    // hands over at most one of its hosts.
    method DelNode(ip: UInt) returns (r: int)
      requires Valid()
      modifies this, tree, tree.repr, tree.nil, nodes`next, servers`next
      ensures Valid() && r == 0 && tree.repr <= old(tree.repr)
      ensures Points() == WithoutIp(old(Points()), ip)
      ensures forall s | s in servers :: s in old(servers) && s.ip != ip
      ensures forall s | s in old(servers) && s.ip != ip :: s in servers
      ensures Running() == old(Running()) - {ip}
      ensures forall h, n: nat ::
        Handover(old(Hosts(Points(), Running(), h, n)), Hosts(Points(), Running(), h, n), {ip})
    {
      ghost var s, running, list := Points(), Running(), servers;
      Withdraw(ip);
      RunningCut(list, ip, running);
      forall h, n: nat ensures Handover(Hosts(s, running, h, n), Hosts(Points(), Running(), h, n), {ip}) {
        RemovedServer(s, ip, running, h, n);
      }
      r := 0;
    }

    // -------------------------------------------------------------- lookup

    // A walk over the nodes can tell which servers are running.
    lemma AllSighted()
      requires Valid()
      ensures Sighted(tree.Elements(), Running(), servers)
    {
      forall n | n in tree.Elements()
        ensures n.data.node.state == NODE_STATE_RUN <==> n.data.node.ip in Running()
      {
        var q := n.data.node;
        var i :| 0 <= i < |servers| && servers[i] == q;
        if q.ip in Running() {
          var j :| 0 <= j < |servers| && servers[j].state == NODE_STATE_RUN && servers[j].ip == q.ip;
          assert i == j;
        }
      }
    }

    // With all servers at work every point belongs to one of them.
    lemma AnyHost()
      requires Valid() && Points() != [] && Running() == Addresses(servers)
      ensures Candidates(Points(), Running()) != {}
    {
      var e := tree.Elements();
      assert e[0] in e && e[0].data.node in servers;
      var i :| 0 <= i < |servers| && servers[i] == e[0].data.node;
      assert servers[i].ip in Addresses(servers);
      assert Points()[0] == PointOf(e[0]);
      assert Points()[0].ip in Candidates(Points(), Running());
    }

    // The hosts of a key: the first n running servers met clockwise from
    // its hash, unless the counter of virtual nodes reads 0.
    method Lookup(key: string, n: nat, ips: array<int>) returns (ipNum: nat)
      requires Valid() && 1 <= n <= ips.Length
      modifies ips
      ensures ipNum <= n
      ensures ips[..ipNum] == LookedUp(Points(), Running(), hash(key), n)
    {
      if ivnodes == 0 {
        return 0;
      }
      var h := hash(key);
      var rbnode, _ := tree.GeqKey(h);
      AllSighted();
      ipNum := Walk(rbnode, h, Running(), n, ips);
    }

    method Walk(startNode: RbNode, ghost h: int, ghost running: set<int>, n: nat, ips: array<int>)
      returns (num: nat)
      requires tree.Valid() && Increasing(Points()) && Sighted(tree.Elements(), running, servers)
      requires tree.Elements() != [] && startNode == Successor(tree.Elements(), h - 1)
      requires 1 <= n <= ips.Length
      modifies ips
      ensures num <= n && ips[..num] == Hosts(Points(), running, h, n)
    {
      WalkStarts(tree.Elements(), h, running, startNode);
      num := 0;
      if startNode.data.node.state == NODE_STATE_RUN {
        num := 1;
        ips[0] := startNode.data.node.ip;
      }
      num := WalkOn(startNode, num, h, running, n, ips);
    }

    method WalkOn(startNode: RbNode, first: nat, ghost h: int, ghost running: set<int>, n: nat, ips: array<int>)
      returns (num: nat)
      requires tree.Valid() && Increasing(Points()) && Sighted(tree.Elements(), running, servers)
      requires first <= n <= ips.Length
      requires Walked(tree.Elements(), h, running, 1, startNode, ips[..first])
      requires startNode == Successor(tree.Elements(), h - 1)
      modifies ips
      ensures num <= n && ips[..num] == Hosts(Points(), running, h, n)
    {
      ghost var e, k := tree.Elements(), 1;
      num := first;
      var rbnode: RbNode := startNode;
      ghost var at: RbNode, hosts := startNode, ips[..num];
      while num < n
        invariant tree.Valid() && tree.Elements() == e && Sighted(e, running, servers)
        invariant num <= n && ips[..num] == hosts
        invariant rbnode == at && Walked(e, h, running, k, at, hosts)
        modifies ips
        decreases |e| - k
      {
        rbnode := Ahead(rbnode, h, running, k, hosts);
        if rbnode == startNode {
          break;
        }
        assert Walked(e, h, running, k + 1, rbnode, Joined(hosts, running, PointOf(rbnode).ip));
        num := MeetAt(rbnode, num, ips, running);
        at, k, hosts := rbnode, k + 1, Joined(hosts, running, PointOf(rbnode).ip);
      }
      WalkEnds(e, h, running, k, at, hosts, n);
    }

    // The next node on the way.
    method Ahead(at: RbNode, ghost h: int, ghost running: set<int>, ghost k: nat, ghost hosts: seq<int>)
      returns (next: RbNode)
      requires tree.Valid() && Increasing(Points())
      requires Walked(tree.Elements(), h, running, k, at, hosts)
      ensures next in tree.Elements()
      ensures next == Successor(tree.Elements(), h - 1) <==> k == |tree.Elements()|
      ensures k < |tree.Elements()| ==>
        Walked(tree.Elements(), h, running, k + 1, next, Joined(hosts, running, PointOf(next).ip))
    {
      WalkGoesOn(tree.Elements(), h, running, k, at, hosts);
      var found, _ := tree.GtKey(at.key);
      next := found;
    }

    // The server of the node on the way; nothing but the array changes.
    method MeetAt(rbnode: RbNode, num: nat, ips: array<int>, ghost running: set<int>) returns (more: nat)
      requires tree.Valid() && Sighted(tree.Elements(), running, servers)
      requires rbnode in tree.Elements() && num < ips.Length
      modifies ips
      ensures tree.Valid() && Sighted(tree.Elements(), running, servers) && tree.Elements() == old(tree.Elements())
      ensures more <= num + 1 && ips[..more] == Joined(old(ips[..num]), running, PointOf(rbnode).ip)
    {
      more := Meet(rbnode.data.node, num, ips, running);
    }

    // Another server on the way becomes a host, if it works and is no host yet.
    static method Meet(node: Server, num: nat, ips: array<int>, ghost running: set<int>) returns (more: nat)
      requires num < ips.Length && (node.state == NODE_STATE_RUN <==> node.ip in running)
      modifies ips
      ensures more <= num + 1
      ensures ips[..more] == Joined(old(ips[..num]), running, node.ip)
    {
      if node.state != NODE_STATE_RUN {
        return num;
      }
      var i := Position(ips, num, node.ip);
      if i != num {
        return num;
      }
      ips[num] := node.ip;
      more := num + 1;
    }

    // The first place of ip among the first num addresses, or num.
    static method Position(ips: array<int>, num: nat, ip: int) returns (i: nat)
      requires num <= ips.Length
      ensures i <= num && (i == num <==> ip !in ips[..num])
    {
      i := 0;
      while i < num
        invariant 0 <= i <= num && ip !in ips[..i]
      {
        if ips[i] == ip {
          break;
        }
        i := i + 1;
      }
    }

    // ------------------------------------------------------ whole-ring calls

    // The smallest hashes in ascending order, as many as there is room for.
    method GetVnodes(values: array<int>, size: int) returns (ghost count: nat)
      requires Valid() && size <= values.Length
      modifies values
      ensures count == if size <= 0 then 0 else if |Points()| <= size then |Points()| else size
      ensures forall i | 0 <= i < count :: values[i] == Points()[i].hash
      ensures forall i | count <= i < values.Length :: values[i] == old(values[i])
    {
      if size <= 0 {
        return 0;
      }
      ghost var before := values[..];
      count := Dump(tree, values, size);
      WroteCells(before, values[..], count, tree.Elements(), size);
    }

    // Takes down the tree, root by root, and then the list.
    method Fini()
      requires Valid()
      modifies tree, tree.repr, tree.nil, nodes`next
      ensures tree.Valid() && tree.Elements() == [] && nodes.next == null
    {
      while tree.root != tree.nil
        invariant tree.Valid() && tree.repr <= old(tree.repr)
        decreases |tree.Elements()|
        modifies tree, tree.repr, tree.nil
      {
        TakeRoot();
      }
      tree.HeadNotNil(Top, tree.shape);
      var p := nodes.next;
      ghost var i, list := 0, old(servers);
      while p != null
        invariant nodes.next == p == Follows(list, null, i - 1) && 0 <= i <= |list|
        invariant forall j {:trigger list[j].next} | 0 <= j < |list| :: list[j].next == Follows(list, null, j)
        modifies nodes`next
        decreases |list| - i
      {
        nodes.next := p.next;
        p := nodes.next;
        i := i + 1;
      }
    }

    method TakeRoot()
      requires tree.Valid() && tree.root != tree.nil
      modifies tree, tree.repr, tree.nil
      ensures tree.Valid() && tree.repr <= old(tree.repr)
      ensures |tree.Elements()| < old(|tree.Elements()|)
    {
      ghost var e, root := tree.Elements(), tree.root;
      tree.HeadNotNil(Top, tree.shape);
      tree.See(Top, tree.shape);
      InorderNodes(tree.shape, root);
      WithoutKeepsOrder(e, root);
      tree.Delete(tree.root);
    }
  }

  // ------------------------------------------------- a counter that runs over

  // A hash that tells the virtual nodes of the servers 7 and 8 apart: even
  // numbers for the one, odd ones for the other.
  function ByIndex(name: string): int {
    if |name| < 2 || exists c | c in name[2..] :: DigitValue(c) >= 10 then 0
    else 2 * Number(name[2..], 10) + if name[0] == '7' then 0 else 1
  }

  lemma ByIndexAt(ip: nat, i: nat)
    requires 7 <= ip <= 8 && i < 0x8000_0000
    ensures NodeHash(ByIndex, ip)(i) == 2 * i + ip - 7
  {
    var name, row := NodeName(ip, i), Padded(i, 8);
    IndexForm(i);
    assert Digits(ip, 16) == [DigitChar(ip)];
    assert DigitChar(ip) == if ip == 7 then '7' else '8';
    PaddedBack(i, 8);
    ByIndexOf(DigitChar(ip), row);
  }

  lemma ByIndexOf(c: char, row: string)
    requires forall d | d in row :: DigitValue(d) < 10
    ensures ByIndex([c] + "-" + row) == 2 * Number(row, 10) + if c == '7' then 0 else 1
  {
    var name := [c] + "-" + row;
    assert name[2..] == row && name[0] == c;
  }

  // Two servers with n virtual nodes each make 2 * n points.
  lemma TwoServersFill(s: seq<Point>, f: nat -> int, g: nat -> int, n: nat)
    requires n <= 0x8000_0000 && f == NodeHash(ByIndex, 7) && g == NodeHash(ByIndex, 8)
    requires s == PlaceAll([], 7, f, n)
    ensures Increasing(s) && |PlaceAll(s, 8, g, n)| == 2 * n
  {
    forall i: nat, j: nat | i < j < n ensures f(i) != f(j) && g(i) != g(j) {
      ByIndexAt(7, i);
      ByIndexAt(7, j);
      ByIndexAt(8, i);
      ByIndexAt(8, j);
    }
    PlaceAllSize([], 7, f, n);
    PlaceAllIn([], 7, f, n, Point(0, 0));
    forall y | y in s ensures !Among(g, n, y.hash) {
      PlaceAllIn([], 7, f, n, y);
      assert Among(f, n, y.hash);
      EvenOrOdd(f, g, n, y.hash);
    }
    PlaceAllSize(s, 8, g, n);
  }

  lemma EvenOrOdd(f: nat -> int, g: nat -> int, n: nat, h: int)
    requires n <= 0x8000_0000 && f == NodeHash(ByIndex, 7) && g == NodeHash(ByIndex, 8)
    requires Among(f, n, h)
    ensures !Among(g, n, h)
  {
    var i :| 0 <= i < n && f(i) == h;
    ByIndexAt(7, i);
    forall j | 0 <= j < n ensures g(j) != h {
      ByIndexAt(8, j);
    }
  }

  method OneServer(n: UInt) returns (ring: Ring, ghost q: Server)
    ensures ring.Valid() && ring.hash == ByIndex && ring.Points() == PlaceAll([], 7, NodeHash(ByIndex, 7), n)
    ensures ring.servers == [q] && q.ip == 7
    ensures fresh(ring) && fresh(ring.tree) && fresh(ring.tree.repr) && fresh(ring.nodes) && fresh(q)
  {
    ring := new Ring(ByIndex);
    var r := ring.AddNode(7, n);
    q := ring.servers[0];
  }

  method BothServers(n: UInt) returns (ring: Ring, ghost q: Server, ghost p: Server)
    requires n <= 0x8000_0000
    ensures ring.Valid() && |ring.Points()| == 2 * n
    ensures ring.servers == [q, p] && q.ip == 7 && p.ip == 8 && fresh(q) && fresh(p)
  {
    ring, q := OneServer(n);
    ghost var s := ring.Points();
    var r := ring.AddNode(8, n);
    assert Grown([q], ring.servers, 8, n);
    p := ring.servers[1];
    assert ring.servers[..1][0] == q;
    TwoServersFill(s, NodeHash(ByIndex, 7), NodeHash(ByIndex, 8), n);
  }

  // A ring of these two servers, both at work.
  method TwoServers(n: UInt) returns (ring: Ring)
    requires n <= 0x8000_0000
    ensures ring.Valid() && |ring.Points()| == 2 * n
    ensures ring.Running() == Addresses(ring.servers) && |ring.servers| == 2
    ensures ring.servers[0].ip == 7 && ring.servers[1].ip == 8
  {
    ghost var q, p;
    ring, q, p := BothServers(n);
    ring.Reset();
  }

  // With 2^31 virtual nodes each the lookup of every key returns nothing,
  // although there are hosts.
  method CounterRunsOver(key: string, n: nat, ips: array<int>) returns (ring: Ring, ipNum: nat)
    requires 1 <= n <= ips.Length
    modifies ips
    ensures ring.Valid() && |ring.Points()| == U_INT && ring.Running() == Addresses(ring.servers)
    ensures ipNum == 0 && Hosts(ring.Points(), ring.Running(), ring.hash(key), n) != []
  {
    ring := TwoServers(0x8000_0000);
    ring.AnyHost();
    ghost var h := ring.hash(key);
    LookedUpHosts(ring.Points(), ring.Running(), h, n);
    ipNum := ring.Lookup(key, n, ips);
  }
}
