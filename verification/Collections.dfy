// Small facts about sequences and sets that several parts share.
module Collections {
  datatype Option<T> = None | Some(value: T)

  ghost predicate Unique<T>(s: seq<T>) {
    forall i, j | 0 <= i < j < |s| :: s[i] != s[j]
  }

  lemma HeadFirst<T>(s: seq<T>)
    requires s != []
    ensures s == [s[0]] + s[1..]
  {
  }

  lemma LastBehind<T>(s: seq<T>)
    requires s != []
    ensures s == s[..|s| - 1] + [s[|s| - 1]]
  {
  }

  // What stands behind place i of a linked list; its head is at place -1.
  ghost function Follows<T>(list: seq<T>, end: T, i: int): T {
    if 0 <= i + 1 < |list| then list[i + 1] else end
  }

  function One(b: bool): nat {
    if b then 1 else 0
  }

  // The n integers from a on.
  function Span(a: int, n: nat): set<int> {
    if n == 0 then {} else Span(a, n - 1) + {a + n - 1}
  }

  lemma {:induction false} SpanSize(a: int, n: nat)
    ensures |Span(a, n)| == n && forall x :: x in Span(a, n) <==> a <= x < a + n
  {
    if n > 0 {
      SpanSize(a, n - 1);
      assert a + n - 1 !in Span(a, n - 1);
    }
  }

  lemma {:induction false} SubsetSize(a: set<int>, b: set<int>)
    requires a <= b
    ensures |a| <= |b|
  {
    if x: int :| x in a {
      SubsetSize(a - {x}, b - {x});
    } else {
      assert forall x: int :: x !in a;
      assert a == {};
    }
  }

  lemma SubsetAll(a: set<int>, all: set<int>)
    requires a <= all && |a| >= |all|
    ensures a == all
  {
    forall x | x in all ensures x in a {
      if x !in a {
        SubsetSize(a + {x}, all);
      }
    }
  }

  // Two large parts of a set have an element in common.
  lemma Overlap(a: set<int>, b: set<int>, all: set<int>)
    requires a <= all && b <= all && |a| + |b| > |all|
    ensures a * b != {}
  {
    SubsetSize(a + b, all);
  }
}
