/** Counting the entries of a finite map that satisfy a predicate.

    Every counter of the system (streams of a slot, pending operations, sticky drains) is
    an implementation of such a count, so the step lemmas all reduce to the three facts here.
    Predicates are passed as named functions so that equal counts are equal terms. */
module Counting {

  ghost function Matching<K, V>(m: map<K, V>, p: V -> bool): set<K> {
    set k | k in m && p(m[k])
  }

  ghost function Count<K, V>(m: map<K, V>, p: V -> bool): nat {
    |Matching(m, p)|
  }

  /** One for a hit, zero for a miss. */
  ghost function Hit(b: bool): nat {
    if b then 1 else 0
  }

  /** Storing a value moves the count by the new value's hit minus the old value's hit. */
  lemma CountStore<K, V>(m: map<K, V>, k: K, v: V, p: V -> bool)
    ensures Count(m[k := v], p) == Count(m, p) + Hit(p(v)) - Hit(k in m && p(m[k]))
  {
    var rest := Matching(m, p) - {k};
    assert Matching(m[k := v], p) == if p(v) then rest + {k} else rest;
    assert Matching(m, p) == if k in m && p(m[k]) then rest + {k} else rest;
  }

  /** Deleting a key lowers the count by the deleted value's hit. */
  lemma CountDelete<K, V>(m: map<K, V>, k: K, p: V -> bool)
    ensures Count(m - {k}, p) == Count(m, p) - Hit(k in m && p(m[k]))
  {
    var rest := Matching(m, p) - {k};
    assert Matching(m - {k}, p) == rest;
    assert Matching(m, p) == if k in m && p(m[k]) then rest + {k} else rest;
  }

  /** A zero count means no entry matches, and the other way round. */
  lemma CountZero<K, V>(m: map<K, V>, p: V -> bool)
    ensures Count(m, p) == 0 <==> forall k | k in m :: !p(m[k])
  {
    if Count(m, p) == 0 {
      forall k | k in m
        ensures !p(m[k])
      {
        assert p(m[k]) ==> k in Matching(m, p);
      }
    } else {
      var k :| k in Matching(m, p);
    }
  }
}
