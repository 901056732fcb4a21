/** Sequence and dictionary facts shared by the model. A Python `dict`
    filled by assignments in order is `FromPairs` of the assigned pairs: the
    last assignment to a key wins. */
module Collections {

  predicate NoDups<T(==)>(s: seq<T>) {
    forall i, j :: 0 <= i < j < |s| ==> s[i] != s[j]
  }

  function ElemsOf<T>(s: seq<T>): set<T> {
    set x | x in s
  }

  lemma ElemsOfConcat<T>(a: seq<T>, b: seq<T>)
    ensures ElemsOf(a + b) == ElemsOf(a) + ElemsOf(b)
  {
    assert forall x :: x in a + b <==> x in a || x in b;
  }

  lemma {:induction false} DistinctCard<T>(s: seq<T>)
    requires NoDups(s)
    ensures |ElemsOf(s)| == |s|
  {
    if s != [] {
      var t := s[..|s| - 1];
      assert NoDups(t);
      DistinctCard(t);
      assert ElemsOf(s) == ElemsOf(t) + {s[|s| - 1]};
      assert s[|s| - 1] !in ElemsOf(t);
    }
  }

  function Keys<K, V>(ps: seq<(K, V)>): set<K> {
    set i | 0 <= i < |ps| :: ps[i].0
  }

  /** The dictionary built by assigning `d[k] = v` for each pair in order
      (also Python's `dict(ps)` and `{k: v for k, v in ps}`). */
  function FromPairs<K, V>(ps: seq<(K, V)>): (m: map<K, V>)
    ensures m.Keys == Keys(ps)
  {
    if ps == [] then map[]
    else
      var m := FromPairs(ps[..|ps| - 1]);
      assert Keys(ps) == Keys(ps[..|ps| - 1]) + {ps[|ps| - 1].0} by {
        forall k | k in Keys(ps) ensures k in Keys(ps[..|ps| - 1]) + {ps[|ps| - 1].0} {
          var i :| 0 <= i < |ps| && ps[i].0 == k;
          if i < |ps| - 1 { assert ps[..|ps| - 1][i].0 == k; }
        }
      }
      m[ps[|ps| - 1].0 := ps[|ps| - 1].1]
  }

  /** The position of the last pair whose key is `k`. */
  function LastIndexOfKey<K(==), V>(ps: seq<(K, V)>, k: K): (i: nat)
    requires k in Keys(ps)
    ensures i < |ps| && ps[i].0 == k
    ensures forall j :: i < j < |ps| ==> ps[j].0 != k
  {
    if ps[|ps| - 1].0 == k then |ps| - 1
    else
      assert k in Keys(ps[..|ps| - 1]) by {
        var i :| 0 <= i < |ps| && ps[i].0 == k;
        assert ps[..|ps| - 1][i].0 == k;
      }
      LastIndexOfKey(ps[..|ps| - 1], k)
  }

  /** Each key of `FromPairs(ps)` holds the value of the last pair with that key. */
  lemma {:induction false} FromPairsLastWins<K, V>(ps: seq<(K, V)>, k: K)
    requires k in Keys(ps)
    ensures k in FromPairs(ps) && FromPairs(ps)[k] == ps[LastIndexOfKey(ps, k)].1
  {
    if ps[|ps| - 1].0 != k {
      assert k in Keys(ps[..|ps| - 1]) by {
        var i :| 0 <= i < |ps| && ps[i].0 == k;
        assert ps[..|ps| - 1][i].0 == k;
      }
      FromPairsLastWins(ps[..|ps| - 1], k);
    }
  }
  lemma KeysConcat<K, V>(a: seq<(K, V)>, b: seq<(K, V)>)
    ensures Keys(a + b) == Keys(a) + Keys(b)
  {
    forall k | k in Keys(a + b) ensures k in Keys(a) + Keys(b) {
      var i :| 0 <= i < |a + b| && (a + b)[i].0 == k;
      if i < |a| { assert a[i].0 == k; } else { assert b[i - |a|].0 == k; }
    }
    forall k | k in Keys(a) + Keys(b) ensures k in Keys(a + b) {
      if k in Keys(a) {
        var i :| 0 <= i < |a| && a[i].0 == k;
        assert (a + b)[i].0 == k;
      } else {
        var i :| 0 <= i < |b| && b[i].0 == k;
        assert (a + b)[|a| + i].0 == k;
      }
    }
  }

  /** Assigning one more pair updates the dictionary at that key. */
  lemma FromPairsSnoc<K, V>(ps: seq<(K, V)>, x: (K, V))
    ensures FromPairs(ps + [x]) == FromPairs(ps)[x.0 := x.1]
  {
    assert (ps + [x])[..|ps + [x]| - 1] == ps;
  }

  lemma UpdateOfMerge<K, V>(l: map<K, V>, r: map<K, V>, k: K, v: V)
    ensures (l + r)[k := v] == l + r[k := v]
  {
  }

  /** Assigning the pairs of `a` and then those of `b` is updating the
      dictionary of `a` with the dictionary of `b`. */
  lemma {:induction false} FromPairsConcat<K, V>(a: seq<(K, V)>, b: seq<(K, V)>)
    ensures FromPairs(a + b) == FromPairs(a) + FromPairs(b)
  {
    if b == [] {
      assert a + b == a;
    } else {
      var init, x := b[..|b| - 1], b[|b| - 1];
      assert a + b == (a + init) + [x] && b == init + [x];
      FromPairsSnoc(a + init, x);
      FromPairsSnoc(init, x);
      FromPairsConcat(a, init);
      UpdateOfMerge(FromPairs(a), FromPairs(init), x.0, x.1);
    }
  }

  predicate DistinctKeys<K(==), V>(ps: seq<(K, V)>) {
    forall i, j :: 0 <= i < j < |ps| ==> ps[i].0 != ps[j].0
  }

  /** With distinct keys every pair is in the dictionary as assigned. */
  lemma FromPairsDistinct<K, V>(ps: seq<(K, V)>, j: nat)
    requires DistinctKeys(ps) && j < |ps|
    ensures ps[j].0 in FromPairs(ps) && FromPairs(ps)[ps[j].0] == ps[j].1
  {
    assert ps[j].0 in Keys(ps);
    FromPairsLastWins(ps, ps[j].0);
  }
}
