// Why R + W > N: a read that counts R answers meets a write that counted W.
module Quorum {
  import HashRing
  import opened Collections
  import opened Store
  import opened ThreadPool
  import opened PoolInvariants
  import opened PoolReferences
  import opened PoolReplies
  import opened PoolRuns

  // The hosts that the ring looks up are fit for the pool, whatever the hash.
  lemma RingRoutes(cfg: Config, points: seq<HashRing.Point>, running: set<int>, hash: string -> int)
    requires 1 <= cfg.r <= cfg.n && 1 <= cfg.w <= cfg.n
    requires forall b :: cfg.route(b) == HashRing.Hosts(points, running, hash(b), cfg.n)
    ensures Proper(cfg)
    ensures forall b :: |cfg.route(b)| == cfg.n <==> |HashRing.Candidates(points, running)| >= cfg.n
  {
    forall b ensures Unique(cfg.route(b)) && |cfg.route(b)| <= cfg.n
      ensures |cfg.route(b)| == cfg.n <==> |HashRing.Candidates(points, running)| >= cfg.n
    {
      HashRing.HostsComplete(points, running, hash(b), cfg.n);
    }
  }

  // --------------------------------------------------------------- quorums

  // Every w of n places meet every r of them.
  ghost predicate QuorumsMeet(n: nat, r: nat, w: nat) {
    forall a: set<int>, b: set<int> ::
      a <= Span(0, n) && b <= Span(0, n) && |a| >= w && |b| >= r ==> a * b != {}
  }

  lemma QuorumRule(n: nat, r: nat, w: nat)
    requires r <= n && w <= n
    ensures QuorumsMeet(n, r, w) <==> r + w > n
  {
    SpanSize(0, n);
    if r + w > n {
      forall a: set<int>, b: set<int> | a <= Span(0, n) && b <= Span(0, n) && |a| >= w && |b| >= r
        ensures a * b != {}
      {
        Overlap(a, b, Span(0, n));
      }
    } else {
      SpanSize(0, w);
      SpanSize(w, r);
      var a, b := Span(0, w), Span(w, r);
      forall x ensures x in a ==> x in Span(0, n) && x !in b {
      }
      forall x ensures x in b ==> x in Span(0, n) {
      }
      assert a * b == {};
    }
  }

  // The places among the hosts of the bucket from which the first m answers of
  // command c came.
  ghost function Places(k: Command, m: nat): set<int>
    requires m <= |k.replies|
  {
    set i | 0 <= i < m :: k.replies[i].task - k.first
  }

  lemma PlacesMore(k: Command, m: nat)
    requires 0 < m <= |k.replies|
    ensures Places(k, m) == Places(k, m - 1) + {k.replies[m - 1].task - k.first}
  {
    forall x ensures x in Places(k, m) <==> x in Places(k, m - 1) + {k.replies[m - 1].task - k.first} {
      if x in Places(k, m) {
        var i :| 0 <= i < m && x == k.replies[i].task - k.first;
      }
    }
  }

  lemma {:induction false} PlacesSize(k: Command, m: nat)
    requires m <= |k.replies|
    requires forall i, j | 0 <= i < j < |k.replies| :: k.replies[i].task != k.replies[j].task
    ensures |Places(k, m)| == m
  {
    if m > 0 {
      PlacesSize(k, m - 1);
      var x := k.replies[m - 1].task - k.first;
      assert x !in Places(k, m - 1);
      PlacesMore(k, m);
    } else {
      assert Places(k, 0) == {};
    }
  }

  lemma PlacesIn(cfg: Config, s: State, c: nat)
    requires Proper(cfg) && Inv(cfg, s) && c < |s.commands| && Returning(s.commands[c])
    ensures var k := s.commands[c];
            k.seen <= |k.replies| && |Places(k, k.seen)| == k.seen && Places(k, k.seen) <= Span(0, cfg.n)
  {
    ReadsWhatServersSaid(cfg, s, c);
    SlotsFit(cfg, s, c);
    var k := s.commands[c];
    PlacesSize(k, k.seen);
    SpanSize(0, cfg.n);
    forall x | x in Places(k, k.seen) ensures x in Span(0, cfg.n) {
      var i :| 0 <= i < k.seen && x == k.replies[i].task - k.first;
      assert GivenAt(cfg, s, c, i);
    }
  }

  // Answer i of a and answer j of b came from the same host.
  ghost predicate SameHost(s: State, a: nat, i: nat, b: nat, j: nat)
    requires a < |s.commands| && i < |s.commands[a].replies|
    requires b < |s.commands| && j < |s.commands[b].replies|
  {
    var p, q := s.commands[a].replies[i].at, s.commands[b].replies[j].at;
    p < |s.log| && q < |s.log| && s.log[p].host == s.log[q].host
  }

  // Two calls for the same bucket that counted more than n answers together
  // have a host in common.
  lemma CommonHost(cfg: Config, s: State, a: nat, b: nat) returns (i: nat, j: nat)
    requires Proper(cfg) && Inv(cfg, s) && a < |s.commands| && b < |s.commands|
    requires Returning(s.commands[a]) && Returning(s.commands[b])
    requires s.commands[a].op.bucket == s.commands[b].op.bucket
    requires s.commands[a].seen + s.commands[b].seen > cfg.n
    ensures i < s.commands[a].seen <= |s.commands[a].replies|
    ensures j < s.commands[b].seen <= |s.commands[b].replies|
    ensures SameHost(s, a, i, b, j)
  {
    PlacesIn(cfg, s, a);
    PlacesIn(cfg, s, b);
    SpanSize(0, cfg.n);
    var k, l := s.commands[a], s.commands[b];
    Overlap(Places(k, k.seen), Places(l, l.seen), Span(0, cfg.n));
    var x :| x in Places(k, k.seen) * Places(l, l.seen);
    i :| 0 <= i < k.seen && x == k.replies[i].task - k.first;
    j :| 0 <= j < l.seen && x == l.replies[j].task - l.first;
    ReadsWhatServersSaid(cfg, s, a);
    ReadsWhatServersSaid(cfg, s, b);
    assert GivenAt(cfg, s, a, i) && GivenAt(cfg, s, b, j);
  }

  // --------------------------------------------------------- reading a write

  // b was called after a had returned, for the same bucket, and both came back OK.
  ghost predicate CalledAfter(s: State, a: nat, b: nat) {
    && a < |s.commands| && b < |s.commands|
    && Returning(s.commands[a]) && Returning(s.commands[b])
    && s.commands[a].op.bucket == s.commands[b].op.bucket
    && s.commands[a].returned <= s.commands[b].began && s.commands[b].returned <= |s.log|
  }

  // From the begin of a until b returned, no other operation did anything to
  // the field.
  ghost predicate Undisturbed(s: State, a: nat, b: nat, field: string)
    requires a < |s.commands| && b < |s.commands| && s.commands[b].returned <= |s.log|
  {
    forall p | s.commands[a].began <= p < s.commands[b].returned
               && Changes(s.log[p].op, s.commands[a].op.bucket, field) ::
      s.log[p].op == s.commands[a].op
  }

  // b was called after a had returned, and reads a field that a changed.
  ghost predicate ReadsAfter(s: State, a: nat, b: nat, field: string) {
    && CalledAfter(s, a, b)
    && Changes(s.commands[a].op, s.commands[b].op.bucket, field)
    && Undisturbed(s, a, b, field)
  }

  // A host that did a's change answers b with what a left.
  lemma ReplyAfterWrite(cfg: Config, s: State, a: nat, i: nat, b: nat, j: nat, field: string)
    requires Proper(cfg) && Inv(cfg, s) && ReadsAfter(s, a, b, field)
    requires i < s.commands[a].seen <= |s.commands[a].replies|
    requires j < s.commands[b].seen <= |s.commands[b].replies|
    requires SameHost(s, a, i, b, j)
    ensures var k, l := s.commands[a], s.commands[b];
            && (l.op == HGet(l.op.bucket, field) ==>
                  l.replies[j].reply == if k.op.HSet? then Found(k.op.value) else Missing)
            && (l.op == HExists(l.op.bucket, field) ==> l.replies[j].reply == Flag(k.op.HSet?))
            && (l.op.Exists? && k.op.HSet? ==> l.replies[j].reply == Flag(true))
  {
    ReadsWhatServersSaid(cfg, s, a);
    ReadsWhatServersSaid(cfg, s, b);
    assert GivenAt(cfg, s, a, i) && GivenAt(cfg, s, b, j);
    var k, l := s.commands[a], s.commands[b];
    var p, q := k.replies[i].at, l.replies[j].at;
    KeptSince(s.log[..q], s.log[q].host, k.op.bucket, field, p, k.op);
  }

  // R + W > N: when a save returned OK and a later load returned OK, and
  // nothing else changed the blob from the begin of the save on, then some
  // server applied the save and gave one of the counted answers of the load,
  // which is the saved value.
  lemma SavedIsLoaded(cfg: Config, s: State, a: nat, b: nat, field: string, value: string) returns (i: nat, j: nat)
    requires Proper(cfg) && Reachable(cfg, s) && cfg.r + cfg.w > cfg.n
    requires ReadsAfter(s, a, b, field)
    requires s.commands[a].op == HSet(s.commands[a].op.bucket, field, value)
    requires s.commands[b].op == HGet(s.commands[a].op.bucket, field)
    ensures i < s.commands[a].seen <= |s.commands[a].replies|
    ensures j < s.commands[b].seen <= |s.commands[b].replies|
    ensures SameHost(s, a, i, b, j)
    ensures s.commands[b].replies[j].reply == Found(value)
  {
    ReachableWell(cfg, s);
    ReadsWhatServersSaid(cfg, s, a);
    ReadsWhatServersSaid(cfg, s, b);
    i, j := CommonHost(cfg, s, a, b);
    ReplyAfterWrite(cfg, s, a, i, b, j, field);
  }

  // A call that all n servers answered shares a host with each answer of another
  // one for the bucket. A delete that returned OK is such a call.
  lemma HostOfAll(cfg: Config, s: State, a: nat, b: nat, j: nat) returns (i: nat)
    requires Proper(cfg) && Inv(cfg, s) && a < |s.commands| && b < |s.commands|
    requires Returning(s.commands[a]) && Returning(s.commands[b])
    requires s.commands[a].op.bucket == s.commands[b].op.bucket
    requires s.commands[a].seen >= cfg.n || s.commands[a].op.HDel? || s.commands[a].op.Del?
    requires j < s.commands[b].seen <= |s.commands[b].replies|
    ensures i < s.commands[a].seen <= |s.commands[a].replies| && SameHost(s, a, i, b, j)
  {
    ReadsWhatServersSaid(cfg, s, a);
    var k, l := s.commands[a], s.commands[b];
    PlacesIn(cfg, s, a);
    PlacesIn(cfg, s, b);
    SpanSize(0, cfg.n);
    var x := l.replies[j].task - l.first;
    assert x in Places(l, l.seen);
    SubsetAll(Places(k, k.seen), Span(0, cfg.n));
    i :| 0 <= i < k.seen && x == k.replies[i].task - k.first;
    ReadsWhatServersSaid(cfg, s, b);
    assert GivenAt(cfg, s, a, i) && GivenAt(cfg, s, b, j);
  }

  // A change that all n servers acknowledged is in every counted answer of a
  // later read, whichever of them the reader chooses.
  lemma EveryReplyAfterAll(cfg: Config, s: State, a: nat, b: nat, j: nat, field: string)
    requires Proper(cfg) && Inv(cfg, s) && ReadsAfter(s, a, b, field)
    requires s.commands[a].seen >= cfg.n && s.commands[a].op.HSet?
    requires j < s.commands[b].seen <= |s.commands[b].replies|
    ensures var k, l := s.commands[a], s.commands[b];
            && (l.op == HGet(l.op.bucket, field) ==> l.replies[j].reply == Found(k.op.value))
            && (l.op == HExists(l.op.bucket, field) || l.op.Exists? ==> l.replies[j].reply == Flag(true))
  {
    var i := HostOfAll(cfg, s, a, b, j);
    ReadsWhatServersSaid(cfg, s, a);
    ReplyAfterWrite(cfg, s, a, i, b, j, field);
  }

  // Hence a blob that all n servers took is what a later load returns, whichever
  // answer it chooses.
  lemma SavedEverywhere(cfg: Config, s: State, a: nat, b: nat, field: string, value: string)
    requires Proper(cfg) && Reachable(cfg, s) && ReadsAfter(s, a, b, field)
    requires s.commands[a].op == HSet(s.commands[a].op.bucket, field, value) && s.commands[a].seen >= cfg.n
    requires s.commands[b].op == HGet(s.commands[a].op.bucket, field)
    ensures var l := s.commands[b];
            l.chosen < l.seen <= |l.replies| && l.replies[l.chosen].reply == Found(value)
  {
    ReachableWell(cfg, s);
    ReadsWhatServersSaid(cfg, s, b);
    EveryReplyAfterAll(cfg, s, a, b, s.commands[b].chosen, field);
  }

  // From the begin of a until b returned no server was told to save the field.
  ghost predicate Unsaved(s: State, a: nat, b: nat, field: string)
    requires CalledAfter(s, a, b)
  {
    forall p | s.commands[a].began <= p < s.commands[b].returned ::
      !(s.log[p].op.HSet? && s.log[p].op.bucket == s.commands[a].op.bucket && s.log[p].op.field == field)
  }

  // Whatever host gave answer j of b, it keeps nothing in the field by then.
  lemma NothingKept(cfg: Config, s: State, a: nat, b: nat, j: nat, field: string)
    requires Proper(cfg) && Inv(cfg, s) && CalledAfter(s, a, b) && Unsaved(s, a, b, field)
    requires s.commands[a].op in {HDel(s.commands[a].op.bucket, field), Del(s.commands[a].op.bucket)}
    requires j < s.commands[b].seen <= |s.commands[b].replies|
    ensures var q := s.commands[b].replies[j].at;
            q < |s.log| && Kept(s.log[..q], s.log[q].host, s.commands[a].op.bucket, field) == None
  {
    var i := HostOfAll(cfg, s, a, b, j);
    ReadsWhatServersSaid(cfg, s, a);
    ReadsWhatServersSaid(cfg, s, b);
    assert GivenAt(cfg, s, a, i) && GivenAt(cfg, s, b, j);
    var k, l := s.commands[a], s.commands[b];
    var p, q := k.replies[i].at, l.replies[j].at;
    KeptSince(s.log[..q], s.log[q].host, k.op.bucket, field, p, k.op);
  }

  // And a blob that was deleted, alone or with its bucket, is not there when a
  // client asks next, if no server was told to save it meanwhile.
  lemma DeletedIsGone(cfg: Config, s: State, a: nat, b: nat, field: string)
    requires Proper(cfg) && Reachable(cfg, s) && CalledAfter(s, a, b) && Unsaved(s, a, b, field)
    requires s.commands[a].op in {HDel(s.commands[a].op.bucket, field), Del(s.commands[a].op.bucket)}
    ensures s.commands[b].op == HExists(s.commands[a].op.bucket, field) ==> !s.commands[b].told
    ensures var l := s.commands[b];
            l.op == HGet(s.commands[a].op.bucket, field) ==>
              l.seen <= |l.replies| && forall j | 0 <= j < l.seen :: l.replies[j].reply == Missing
  {
    ReachableWell(cfg, s);
    ReadsWhatServersSaid(cfg, s, b);
    var l := s.commands[b];
    forall j | 0 <= j < l.seen
      ensures l.op == HExists(l.op.bucket, field) ==> l.replies[j].reply == Flag(false)
      ensures l.op == HGet(l.op.bucket, field) ==> l.replies[j].reply == Missing
    {
      NothingKept(cfg, s, a, b, j, field);
      assert GivenAt(cfg, s, b, j);
    }
  }

  // Nor is a bucket that was deleted, if nothing was saved in it meanwhile.
  lemma BucketIsGone(cfg: Config, s: State, a: nat, b: nat)
    requires Proper(cfg) && Reachable(cfg, s) && CalledAfter(s, a, b)
    requires s.commands[a].op == Del(s.commands[b].op.bucket) && s.commands[b].op.Exists?
    requires forall p | s.commands[a].began <= p < s.commands[b].returned ::
      !(s.log[p].op.HSet? && s.log[p].op.bucket == s.commands[a].op.bucket)
    ensures !s.commands[b].told
  {
    ReachableWell(cfg, s);
    ReadsWhatServersSaid(cfg, s, b);
    var l := s.commands[b];
    forall j | 0 <= j < l.seen ensures l.replies[j].reply == Flag(false) {
      assert GivenAt(cfg, s, b, j);
      forall f ensures Kept(s.log[..l.replies[j].at], s.log[l.replies[j].at].host, l.op.bucket, f) == None {
        NothingKept(cfg, s, a, b, j, f);
      }
    }
  }
}
