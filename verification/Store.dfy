// The Redis servers behind the pool: the order in which they did the exchanges
// decides what each of them keeps.
module Store {
  import opened Collections

  datatype Op =
    | HSet(bucket: string, field: string, value: string)
    | HDel(bucket: string, field: string)
    | Del(bucket: string)
    | HGet(bucket: string, field: string)
    | HExists(bucket: string, field: string)
    | Exists(bucket: string)

  datatype Reply = Done | Found(value: string) | Missing | Flag(yes: bool)

  // One command done by one server for one task.
  datatype Exchange = Exchange(task: nat, host: int, op: Op, reply: Reply)

  // The operations that change a field of a bucket.
  predicate Changes(op: Op, bucket: string, field: string) {
    op.bucket == bucket && (op.Del? || ((op.HSet? || op.HDel?) && op.field == field))
  }

  // What the field holds after such an operation.
  function Left(op: Op): Option<string> {
    if op.HSet? then Some(op.value) else None
  }

  // What a server keeps in a field after all exchanges in the log.
  ghost function Kept(log: seq<Exchange>, host: int, bucket: string, field: string): Option<string> {
    if log == [] then None
    else
      var e := log[|log| - 1];
      if e.host == host && Changes(e.op, bucket, field) then Left(e.op)
      else Kept(log[..|log| - 1], host, bucket, field)
  }

  ghost function Answer(log: seq<Exchange>, host: int, op: Op): Reply {
    match op
    case HGet(b, f) => (match Kept(log, host, b, f) case None => Missing case Some(v) => Found(v))
    case HExists(b, f) => Flag(Kept(log, host, b, f).Some?)
    case Exists(b) => Flag(exists f :: Kept(log, host, b, f).Some?)
    case _ => Done
  }

  // A field keeps what the last change left there.
  lemma {:induction false} KeptSince(log: seq<Exchange>, host: int, bucket: string, field: string, k: nat, op: Op)
    requires k < |log| && log[k].host == host && log[k].op == op && Changes(op, bucket, field)
    requires forall j | k < j < |log| && Changes(log[j].op, bucket, field) :: Left(log[j].op) == Left(op)
    ensures Kept(log, host, bucket, field) == Left(op)
  {
    var n := |log| - 1;
    if k < n {
      if !(log[n].host == host && Changes(log[n].op, bucket, field)) {
        KeptSince(log[..n], host, bucket, field, k, op);
      }
    }
  }

  // ------------------------------------------------- what the commands mean

  // The commands after which a field of a bucket is there, and those that take it
  // away.
  predicate Sets(op: Op, bucket: string, field: string) {
    op.HSet? && op.bucket == bucket && op.field == field
  }

  predicate Erases(op: Op, bucket: string, field: string) {
    op == HDel(bucket, field) || op == Del(bucket)
  }

  // Entry p of the log is the last at this host that set or erased the field.
  ghost predicate LastTouch(log: seq<Exchange>, host: int, bucket: string, field: string, p: int) {
    && 0 <= p < |log| && log[p].host == host
    && (Sets(log[p].op, bucket, field) || Erases(log[p].op, bucket, field))
    && forall q | p < q < |log| && log[q].host == host ::
         !Sets(log[q].op, bucket, field) && !Erases(log[q].op, bucket, field)
  }

  // It set the field to this value.
  ghost predicate LastSet(log: seq<Exchange>, host: int, bucket: string, field: string, value: string) {
    exists p :: LastTouch(log, host, bucket, field, p) && log[p].op == HSet(bucket, field, value)
  }

  // A host keeps this value in a field if and only if the field was set to it and
  // neither set nor erased since.
  lemma {:induction false} KeptRule(log: seq<Exchange>, host: int, bucket: string, field: string, value: string)
    ensures Kept(log, host, bucket, field) == Some(value) <==> LastSet(log, host, bucket, field, value)
  {
    if log != [] {
      var n := |log| - 1;
      var e, before := log[n], log[..n];
      KeptRule(before, host, bucket, field, value);
      if e.host == host && (Sets(e.op, bucket, field) || Erases(e.op, bucket, field)) {
        assert LastTouch(log, host, bucket, field, n);
      } else {
        forall p ensures LastTouch(log, host, bucket, field, p) <==> LastTouch(before, host, bucket, field, p) {
          TouchBefore(log, host, bucket, field, p);
        }
      }
    }
  }

  lemma TouchBefore(log: seq<Exchange>, host: int, bucket: string, field: string, p: int)
    requires log != []
    requires var e := log[|log| - 1];
             e.host != host || (!Sets(e.op, bucket, field) && !Erases(e.op, bucket, field))
    ensures LastTouch(log, host, bucket, field, p) <==> LastTouch(log[..|log| - 1], host, bucket, field, p)
  {
    var before := log[..|log| - 1];
    assert forall q | 0 <= q < |before| :: before[q] == log[q];
  }

  // A load, an exist check of a blob and one of a bucket answer by that.
  lemma AnswerRule(log: seq<Exchange>, host: int, bucket: string, field: string)
    ensures forall v :: Answer(log, host, HGet(bucket, field)) == Found(v) <==> LastSet(log, host, bucket, field, v)
    ensures Answer(log, host, HGet(bucket, field)).Found? || Answer(log, host, HGet(bucket, field)) == Missing
    ensures Answer(log, host, HExists(bucket, field)) == Flag(exists v :: LastSet(log, host, bucket, field, v))
    ensures Answer(log, host, Exists(bucket)) == Flag(exists f, v :: LastSet(log, host, bucket, f, v))
  {
    forall f, v ensures Kept(log, host, bucket, f) == Some(v) <==> LastSet(log, host, bucket, f, v) {
      KeptRule(log, host, bucket, f, v);
    }
    forall f ensures Kept(log, host, bucket, f).Some? <==> exists v :: LastSet(log, host, bucket, f, v) {
      if Kept(log, host, bucket, f).Some? {
        assert LastSet(log, host, bucket, f, Kept(log, host, bucket, f).value);
      }
    }
  }
}
