/** Lists of numbers, as the intrusive lists of list.c are used: a chain is taken
    out of wherever it is and put at an end. */
module Lists {
  predicate Distinct(q: seq<nat>) {
    forall i, j :: 0 <= i < j < |q| ==> q[i] != q[j]
  }

  /** chain_unlink */
  function Without(q: seq<nat>, p: nat): (r: seq<nat>)
    ensures |r| == if p in q then |q| - 1 else |q|
  {
    if q == [] then [] else if q[0] == p then q[1..] else [q[0]] + Without(q[1..], p)
  }

  lemma {:induction false} WithoutIs(q: seq<nat>, p: nat)
    requires Distinct(q)
    ensures Distinct(Without(q, p)) && forall x :: x in Without(q, p) <==> x in q && x != p
    decreases |q|
  {
    if q != [] && q[0] != p {
      WithoutIs(q[1..], p);
      assert forall x :: x in q <==> x == q[0] || x in q[1..];
      var r := Without(q[1..], p);
      assert q[0] !in r;
      assert Without(q, p) == [q[0]] + r;
    } else if q != [] {
      assert forall x :: x in q <==> x == q[0] || x in q[1..];
    }
  }

  /** list_push_back of something that is not there. */
  lemma AppendDistinct(q: seq<nat>, p: nat)
    requires Distinct(q) && p !in q
    ensures Distinct(q + [p])
  {
  }

  /** The numbers below n. */
  function Below(n: nat): (r: set<nat>)
    ensures |r| == n && forall x: nat :: x in r <==> x < n
  {
    if n == 0 then {} else Below(n - 1) + {n - 1}
  }

  lemma FewBelow(a: set<nat>, n: nat)
    requires forall x :: x in a ==> x < n
    ensures |a| <= n
  {
    assert Below(n) == a + (Below(n) - a);
  }
}
