/** `order_by('-id')`: ids listed from the newest (largest) to the oldest. */
module Ordering {

  lemma NoElementEmpty(s: set<int>)
    requires forall y :: y !in s
    ensures s == {}
  {
    assert forall y :: y in s <==> y in {};
  }

  lemma HasElement(s: set<int>)
    requires |s| > 0
    ensures exists y :: y in s
  {
    if forall y :: y !in s {
      NoElementEmpty(s);
    }
  }

  /** Some element of a non-empty set. */
  ghost function Pick(s: set<int>): (e: int)
    requires |s| > 0
    ensures e in s
  {
    HasElement(s);
    var y :| y in s; y
  }

  /** The largest element of a non-empty finite set of ids. */
  ghost function Largest(s: set<int>): (m: int)
    requires |s| > 0
    ensures m in s && forall y :: y in s ==> y <= m
    decreases |s|
  {
    var x := Pick(s);
    var rest := s - {x};
    assert forall y :: y in s ==> y == x || y in rest;
    if |rest| == 0 then
      NoElementEmpty(rest);
      x
    else
      var m := Largest(rest);
      if x > m then x else m
  }

  predicate StrictlyDecreasing(q: seq<int>) {
    forall i, j :: 0 <= i < j < |q| ==> q[i] > q[j]
  }

  /** Every id of the set exactly once, in descending order. */
  ghost function NewestFirst(ids: set<int>): (r: seq<int>)
    ensures |r| == |ids|
    ensures forall x :: x in r <==> x in ids
    ensures StrictlyDecreasing(r)
    decreases |ids|
  {
    if |ids| == 0 then
      []
    else
      var m := Largest(ids);
      var rest := NewestFirst(ids - {m});
      PrependLarger(m, rest);
      [m] + rest
  }

  /** Putting an id larger than all of a descending listing in front keeps it descending. */
  lemma PrependLarger(m: int, q: seq<int>)
    requires StrictlyDecreasing(q) && forall x :: x in q ==> x < m
    ensures StrictlyDecreasing([m] + q)
    ensures forall x :: x in [m] + q <==> x == m || x in q
  {
    var r := [m] + q;
    forall i, j | 0 <= i < j < |r| ensures r[i] > r[j] {
      assert r[j] == q[j - 1] && q[j - 1] in q;
      if i > 0 {
        assert r[i] == q[i - 1];
      }
    }
  }

  /** The head of a descending listing is the largest listed id. */
  lemma HeadIsLargest(ids: set<int>, q: seq<int>)
    requires |q| > 0 && StrictlyDecreasing(q)
    requires forall x :: x in q <==> x in ids
    ensures |ids| > 0 && Largest(ids) == q[0]
  {
    assert q[0] in q;
    assert q[0] in ids;
    forall x | x in ids ensures x <= q[0] {
      var j :| 0 <= j < |q| && q[j] == x;
      assert j == 0 || q[0] > q[j];
    }
  }

  /** The tail of a descending listing lists the other ids. */
  lemma TailListsRest(ids: set<int>, q: seq<int>)
    requires |q| > 0 && StrictlyDecreasing(q)
    requires forall x :: x in q <==> x in ids
    ensures StrictlyDecreasing(q[1..])
    ensures forall x :: x in q[1..] <==> x in ids - {q[0]}
  {
    forall x ensures x in q[1..] <==> x in ids - {q[0]} {
      if x in q[1..] {
        var j :| 0 <= j < |q[1..]| && q[1..][j] == x;
        assert q[0] > q[j + 1];
      }
      if x in ids - {q[0]} {
        var j :| 0 <= j < |q| && q[j] == x;
        assert q[1..][j - 1] == x;
      }
    }
  }

  /** One step of `NewestFirst`: the largest id, then the listing of the others. */
  lemma NewestFirstStep(ids: set<int>)
    requires |ids| > 0
    ensures NewestFirst(ids) == [Largest(ids)] + NewestFirst(ids - {Largest(ids)})
  {
  }

  /** Any descending listing of exactly the ids of a set is the one `NewestFirst` gives. */
  lemma {:induction false} NewestFirstUnique(ids: set<int>, q: seq<int>)
    requires StrictlyDecreasing(q)
    requires forall x :: x in q <==> x in ids
    ensures q == NewestFirst(ids)
    decreases |q|
  {
    if |q| == 0 {
      NoElementEmpty(ids);
    } else {
      HeadIsLargest(ids, q);
      TailListsRest(ids, q);
      NewestFirstUnique(ids - {q[0]}, q[1..]);
      NewestFirstStep(ids);
      assert q == [q[0]] + q[1..];
    }
  }
}
