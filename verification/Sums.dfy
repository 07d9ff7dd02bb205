/** Adding up the values of a map, and counting how often a sequence changes. */
module Sums {

  ghost function SumValues<K>(m: map<K, int>): int
  {
    if m == map[] then 0
    else
      var k :| k in m;
      m[k] + SumValues(m - {k})
  }

  /** Which key is taken out first does not matter. */
  lemma {:induction false} SumTakingOut<K>(m: map<K, int>, k: K)
    requires k in m
    ensures SumValues(m) == m[k] + SumValues(m - {k})
    decreases |m|
  {
    var first :| first in m && SumValues(m) == m[first] + SumValues(m - {first});
    if first != k {
      SumTakingOut(m - {first}, k);
      SumTakingOut(m - {k}, first);
      assert m - {first} - {k} == m - {k} - {first};
    }
  }

  lemma SumAfterUpdate<K>(m: map<K, int>, k: K, v: int)
    ensures SumValues(m[k := v]) == SumValues(m) + v - (if k in m then m[k] else 0)
  {
    var updated := m[k := v];
    SumTakingOut(updated, k);
    if k in m {
      SumTakingOut(m, k);
      assert updated - {k} == m - {k};
    } else {
      assert updated - {k} == m;
    }
  }

  /** How often s starts a new stretch of equal neighbours. */
  function Stretches<T(==)>(s: seq<T>): nat
  {
    if s == [] then 0
    else Stretches(s[..|s| - 1]) + (if |s| >= 2 && s[|s| - 2] == s[|s| - 1] then 0 else 1)
  }

  /** No element comes back after another one intervened. */
  ghost predicate Contiguous<T(!new)>(s: seq<T>)
  {
    forall i, j, k :: 0 <= i < j < k < |s| && s[i] == s[k] ==> s[j] == s[k]
  }

  ghost function Elements<T>(s: seq<T>): set<T>
  {
    set i | 0 <= i < |s| :: s[i]
  }

  lemma {:induction false} StretchesCountElements<T(!new)>(s: seq<T>)
    ensures Stretches(s) >= |Elements(s)|
    ensures Stretches(s) == |Elements(s)| <==> Contiguous(s)
  {
    if s != [] {
      var n := |s| - 1;
      var front, last := s[..n], s[n];
      StretchesCountElements(front);
      assert Elements(s) == Elements(front) + {last} by {
        assert forall i :: 0 <= i < n ==> s[i] == front[i];
        forall x | x in Elements(s) ensures x in Elements(front) + {last} {
          var i :| 0 <= i < |s| && s[i] == x;
          assert i < n ==> front[i] == x;
        }
        forall x | x in Elements(front) ensures x in Elements(s) {
          var i :| 0 <= i < |front| && front[i] == x;
          assert s[i] == x;
        }
        assert s[n] in Elements(s);
      }
      ContiguousFront(s);
      if n >= 1 && s[n - 1] == last {
        assert front[n - 1] == last && last in Elements(front);
        assert Elements(s) == Elements(front);
      } else if last in Elements(front) {
        assert Elements(s) == Elements(front);
        var i :| 0 <= i < n && front[i] == last;
        assert s[i] == s[n] && s[n - 1] != s[n];
        assert i < n - 1;
        assert !Contiguous(s);
      }
    }
  }

  /** Contiguity of a sequence, from contiguity of all but its last element. */
  lemma ContiguousFront<T(!new)>(s: seq<T>)
    requires s != []
    ensures var n := |s| - 1;
      Contiguous(s) <==>
      Contiguous(s[..n]) && (s[n] in Elements(s[..n]) ==> s[n - 1] == s[n])
  {
    var n := |s| - 1;
    var front := s[..n];
    assert forall i :: 0 <= i < n ==> front[i] == s[i];
    if Contiguous(s) {
      forall i, j, k | 0 <= i < j < k < n && front[i] == front[k] ensures front[j] == front[k] {
        assert s[i] == s[k];
      }
      if s[n] in Elements(front) {
        var i :| 0 <= i < n && front[i] == s[n];
        assert s[i] == s[n];
        if i < n - 1 {
          assert s[n - 1] == s[n];
        }
      }
    }
    if Contiguous(front) && (s[n] in Elements(front) ==> s[n - 1] == s[n]) {
      forall i, j, k | 0 <= i < j < k < |s| && s[i] == s[k] ensures s[j] == s[k] {
        if k < n {
          assert front[i] == front[k] && front[j] == s[j];
        } else {
          assert front[i] == s[n] && s[n] in Elements(front);
          if j < n - 1 {
            assert front[i] == front[n - 1] && front[j] == front[n - 1];
          }
        }
      }
    }
  }
}
