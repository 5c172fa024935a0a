/** Facts about Python lists used as membership lists: no duplicates, and `list.remove`. */
module Lists {

  /** No element occurs twice. */
  ghost predicate Distinct<T>(q: seq<T>)
  {
    forall i, j :: 0 <= i < j < |q| ==> q[i] != q[j]
  }

  /** Python's `list.remove(x)` when `x` is present: drop its first occurrence.
      The model also gives it a value when `x` is absent (the list itself). */
  function RemoveFirst<T(==)>(q: seq<T>, x: T): (r: seq<T>)
    ensures x !in q ==> r == q
    ensures x in q ==> |r| == |q| - 1
  {
    if q == [] then []
    else if q[0] == x then q[1..] else [q[0]] + RemoveFirst(q[1..], x)
  }

  /** Removing takes out exactly one occurrence when there is one, and nothing else. */
  lemma {:induction false} RemoveFirstMultiset<T>(q: seq<T>, x: T)
    ensures multiset(RemoveFirst(q, x)) == multiset(q) - multiset{x}
  {
    if q != [] {
      assert q == [q[0]] + q[1..];
      RemoveFirstMultiset(q[1..], x);
    }
  }

  /** In a list without duplicates, removing `x` removes exactly `x` and keeps the list free of duplicates. */
  lemma {:induction false} RemoveFirstDistinct<T>(q: seq<T>, x: T)
    requires Distinct(q)
    ensures Distinct(RemoveFirst(q, x))
    ensures forall y :: y in RemoveFirst(q, x) <==> y in q && y != x
  {
    if q != [] && q[0] != x {
      assert Distinct(q[1..]) by {
        forall i, j | 0 <= i < j < |q[1..]| ensures q[1..][i] != q[1..][j] {
          assert q[1..][i] == q[i + 1] && q[1..][j] == q[j + 1];
        }
      }
      RemoveFirstDistinct(q[1..], x);
      var r := RemoveFirst(q[1..], x);
      assert q[0] !in q[1..];
      assert q[0] !in r;
      forall i, j | 0 <= i < j < |[q[0]] + r| ensures ([q[0]] + r)[i] != ([q[0]] + r)[j] {
        if i == 0 {
          assert ([q[0]] + r)[j] == r[j - 1];
        } else {
          assert ([q[0]] + r)[i] == r[i - 1] && ([q[0]] + r)[j] == r[j - 1];
        }
      }
    } else if q != [] {
      forall i, j | 0 <= i < j < |q[1..]| ensures q[1..][i] != q[1..][j] {
        assert q[1..][i] == q[i + 1] && q[1..][j] == q[j + 1];
      }
      forall y | y in q[1..] ensures y != x {
        var k :| 0 <= k < |q[1..]| && q[1..][k] == y;
        assert q[k + 1] == y;
      }
    }
  }

  /** The other elements keep their order: the first occurrence is cut out and nothing else moves. */
  lemma {:induction false} RemoveFirstAt<T>(q: seq<T>, x: T, i: nat)
    requires i < |q| && q[i] == x && x !in q[..i]
    ensures RemoveFirst(q, x) == q[..i] + q[i + 1..]
  {
    if i > 0 {
      assert q[0] in q[..i];
      assert q[1..][..i - 1] == q[1..i];
      RemoveFirstAt(q[1..], x, i - 1);
      assert q[..i] == [q[0]] + q[1..i];
    }
  }

  /** Removing an element that was just appended to a list that lacked it gives the list back. */
  lemma {:induction false} RemoveFirstAppended<T>(q: seq<T>, x: T)
    requires x !in q
    ensures RemoveFirst(q + [x], x) == q
  {
    if q != [] {
      assert (q + [x])[1..] == q[1..] + [x];
      RemoveFirstAppended(q[1..], x);
      assert q == [q[0]] + q[1..];
    }
  }

  /** Appending an element the list lacks keeps it free of duplicates. */
  lemma AppendDistinct<T>(q: seq<T>, x: T)
    requires Distinct(q) && x !in q
    ensures Distinct(q + [x])
  {
  }

  /** Walking a list without duplicates: the next element has not been seen yet. */
  lemma DistinctStep<T>(q: seq<T>, i: nat)
    requires Distinct(q) && i < |q|
    ensures q[i] !in q[..i] && q[..i + 1] == q[..i] + [q[i]]
  {
  }
}
