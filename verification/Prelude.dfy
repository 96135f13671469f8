/** Small shared vocabulary: options, sums over finite maps and the order of
    Python strings. */
module Prelude {

  datatype Option<+T> = None | Some(value: T)

  function Max(a: int, b: int): int {
    if a < b then b else a
  }

  function Lookup<K, V>(m: map<K, V>, k: K): Option<V> {
    if k in m then Some(m[k]) else None
  }

  /** The part of `m` whose keys are in `keys`. */
  function Only<K, V>(m: map<K, V>, keys: set<K>): (r: map<K, V>)
    ensures r.Keys == m.Keys * keys
    ensures forall k :: k in r ==> r[k] == m[k]
  {
    map k | k in m && k in keys :: m[k]
  }

  // ------------------------------------------------------------------ sums

  /** The sum of `f` over the items of a finite map. */
  ghost function Total<K, V>(m: map<K, V>, f: (K, V) -> int): int
  {
    if m == map[] then 0 else
    var k :| k in m;
    f(k, m[k]) + Total(m - {k}, f)
  }

  lemma {:induction false} MapShrinks<K, V>(m: map<K, V>, k: K)
    requires k in m
    ensures |m - {k}| == |m| - 1
  {
    assert (m - {k}).Keys == m.Keys - {k};
    assert |(m - {k}).Keys| == |m - {k}| && |m.Keys| == |m|;
  }

  /** Any item may be taken out first. */
  lemma {:induction false} TotalTake<K, V>(m: map<K, V>, f: (K, V) -> int, k: K)
    requires k in m
    ensures Total(m, f) == f(k, m[k]) + Total(m - {k}, f)
    decreases |m|
  {
    var pick :| pick in m && Total(m, f) == f(pick, m[pick]) + Total(m - {pick}, f);
    if pick != k {
      MapShrinks(m, pick);
      TotalTake(m - {pick}, f, k);
      MapShrinks(m, k);
      TotalTake(m - {k}, f, pick);
      assert m - {pick} - {k} == m - {k} - {pick};
    }
  }

  /** Adding a fresh key adds its value. */
  lemma {:induction false} TotalAdd<K, V>(m: map<K, V>, f: (K, V) -> int, k: K, v: V)
    requires k !in m
    ensures Total(m[k := v], f) == Total(m, f) + f(k, v)
    ensures |m[k := v]| == |m| + 1
  {
    TotalTake(m[k := v], f, k);
    MapShrinks(m[k := v], k);
    assert m[k := v] - {k} == m;
  }

  /** Replacing or removing an item changes the sum by what it contributed. */
  lemma {:induction false} TotalChange<K, V>(m: map<K, V>, f: (K, V) -> int, k: K, v: V)
    requires k in m
    ensures Total(m[k := v], f) == Total(m, f) - f(k, m[k]) + f(k, v)
    ensures Total(m - {k}, f) == Total(m, f) - f(k, m[k])
    ensures |m - {k}| == |m| - 1
  {
    TotalTake(m, f, k);
    TotalAdd(m - {k}, f, k, v);
    assert (m - {k})[k := v] == m[k := v];
    MapShrinks(m, k);
  }

  /** Sums split over a partition of the keys. */
  lemma {:induction false} TotalSplit<K, V>(m: map<K, V>, f: (K, V) -> int, keys: set<K>)
    ensures Total(m, f) == Total(Only(m, keys), f) + Total(m - keys, f)
    decreases |m|
  {
    if k :| k in m && k in keys {
      MapShrinks(m, k);
      TotalSplit(m - {k}, f, keys);
      TotalSplitStep(m, f, keys, k);
    } else {
      assert Only(m, keys) == map[];
      assert m - keys == m;
    }
  }

  lemma {:induction false} TotalSplitStep<K, V>(m: map<K, V>, f: (K, V) -> int, keys: set<K>, k: K)
    requires k in m && k in keys
    ensures Total(m, f) == f(k, m[k]) + Total(m - {k}, f)
    ensures Total(Only(m, keys), f) == f(k, m[k]) + Total(Only(m - {k}, keys), f)
    ensures m - keys == (m - {k}) - keys
  {
    TotalTake(m, f, k);
    TotalTake(Only(m, keys), f, k);
    assert Only(m, keys) - {k} == Only(m - {k}, keys);
  }

  lemma {:induction false} SizeSplit<K, V>(m: map<K, V>, keys: set<K>)
    ensures |m| == |Only(m, keys)| + |m - keys|
  {
    assert m.Keys == Only(m, keys).Keys + (m - keys).Keys;
    assert |m.Keys| == |m| && |Only(m, keys).Keys| == |Only(m, keys)| && |(m - keys).Keys| == |m - keys|;
  }

  lemma {:induction false} TotalNonNegative<K, V>(m: map<K, V>, f: (K, V) -> int)
    requires forall k :: k in m ==> f(k, m[k]) >= 0
    ensures Total(m, f) >= 0
    decreases |m|
  {
    if k :| k in m {
      TotalTake(m, f, k);
      MapShrinks(m, k);
      TotalNonNegative(m - {k}, f);
    }
  }

  lemma {:induction false} TotalZero<K, V>(m: map<K, V>, f: (K, V) -> int)
    requires forall k :: k in m ==> f(k, m[k]) == 0
    ensures Total(m, f) == 0
    decreases |m|
  {
    if k :| k in m {
      TotalTake(m, f, k);
      MapShrinks(m, k);
      TotalZero(m - {k}, f);
    }
  }

  /** Two maps that differ only in items of no weight have the same sum. */
  lemma {:induction false} TotalFrame<K, V>(m: map<K, V>, m': map<K, V>, f: (K, V) -> int)
    requires forall k :: k in m && !(k in m' && m'[k] == m[k]) ==> f(k, m[k]) == 0
    requires forall k :: k in m' && !(k in m && m[k] == m'[k]) ==> f(k, m'[k]) == 0
    ensures Total(m, f) == Total(m', f)
  {
    var same := set k | k in m && k in m' && m[k] == m'[k];
    TotalSplit(m, f, same);
    TotalSplit(m', f, same);
    TotalZero(m - same, f);
    TotalZero(m' - same, f);
    assert Only(m, same) == Only(m', same);
  }

  /** Dropping items and lowering values lowers a sum of non-negative values. */
  lemma {:induction false} TotalShrinks<K, V>(m: map<K, V>, m': map<K, V>, f: (K, V) -> int)
    requires m'.Keys <= m.Keys
    requires forall k :: k in m ==> f(k, m[k]) >= 0
    requires forall k :: k in m' ==> f(k, m'[k]) <= f(k, m[k])
    ensures Total(m', f) <= Total(m, f)
    decreases |m|
  {
    if k :| k in m {
      TotalTake(m, f, k);
      MapShrinks(m, k);
      if k in m' { TotalTake(m', f, k); }
      assert m' - {k} == if k in m' then m' - {k} else m';
      TotalShrinks(m - {k}, m' - {k}, f);
    } else {
      assert m' == map[];
    }
  }

  // ---------------------------------------------------------------- strings

  /** Python's order on strings: by code point, a proper prefix first. */
  predicate StrLeq(a: string, b: string)
  {
    a == "" || (b != "" && (a[0] < b[0] || (a[0] == b[0] && StrLeq(a[1..], b[1..]))))
  }

  /** At the first position where the strings differ, the smaller character decides;
      where they do not differ, the shorter string comes first. */
  lemma {:induction false} StrLeqByFirstDifference(a: string, b: string)
    ensures StrLeq(a, b) <==> a <= b || exists i :: DiffersFirstAt(a, b, i) && a[i] < b[i]
  {
    if a != "" && b != "" && a[0] == b[0] {
      StrLeqByFirstDifference(a[1..], b[1..]);
      assert a <= b <==> a[1..] <= b[1..] by {
        assert a == [a[0]] + a[1..] && b == [b[0]] + b[1..];
      }
      if i :| DiffersFirstAt(a, b, i) && a[i] < b[i] {
        assert DiffersFirstAt(a[1..], b[1..], i - 1);
      }
      if i :| DiffersFirstAt(a[1..], b[1..], i) && a[1..][i] < b[1..][i] {
        assert DiffersFirstAt(a, b, i + 1) && a[i + 1] < b[i + 1];
      }
    } else if a != "" && b != "" {
      assert DiffersFirstAt(a, b, 0);
    }
  }

  predicate DiffersFirstAt(a: string, b: string, i: int) {
    0 <= i < |a| && i < |b| && a[i] != b[i] && forall j :: 0 <= j < i ==> a[j] == b[j]
  }

  lemma {:induction false} StrLeqTotal(a: string, b: string)
    ensures StrLeq(a, b) || StrLeq(b, a)
  {
    if a != "" && b != "" && a[0] == b[0] {
      StrLeqTotal(a[1..], b[1..]);
    }
  }

  lemma {:induction false} StrLeqAntisymmetric(a: string, b: string)
    requires StrLeq(a, b) && StrLeq(b, a)
    ensures a == b
  {
    if a != "" && b != "" {
      StrLeqAntisymmetric(a[1..], b[1..]);
      assert a == [a[0]] + a[1..] && b == [b[0]] + b[1..];
    }
  }

  lemma {:induction false} StrLeqTransitive(a: string, b: string, c: string)
    requires StrLeq(a, b) && StrLeq(b, c)
    ensures StrLeq(a, c)
  {
    if a != "" && b != "" && c != "" && a[0] == b[0] == c[0] {
      StrLeqTransitive(a[1..], b[1..], c[1..]);
    }
  }

  /** `x` is the greatest string of `ids`. */
  ghost predicate IsGreatest(ids: set<string>, x: string)
  {
    x in ids && forall y :: y in ids ==> StrLeq(y, x)
  }

  lemma {:induction false} GreatestExists(ids: set<string>)
    requires ids != {}
    ensures exists x :: IsGreatest(ids, x)
    decreases ids
  {
    var x :| x in ids;
    StrLeqTotal(x, x);
    if ids == {x} {
      assert IsGreatest(ids, x);
    } else {
      GreatestExists(ids - {x});
      var y :| IsGreatest(ids - {x}, y);
      StrLeqTotal(x, y);
      if StrLeq(x, y) {
        assert IsGreatest(ids, y);
      } else {
        forall z | z in ids ensures StrLeq(z, x) {
          if z != x { StrLeqTransitive(z, y, x); }
        }
        assert IsGreatest(ids, x);
      }
    }
  }

  /** The greatest id, `max(checkpoints, key=str)`. */
  ghost function Greatest(ids: set<string>): (x: string)
    requires ids != {}
    ensures IsGreatest(ids, x)
  {
    GreatestExists(ids);
    var x :| IsGreatest(ids, x);
    x
  }

  lemma GreatestUnique(ids: set<string>, x: string, y: string)
    requires IsGreatest(ids, x) && IsGreatest(ids, y)
    ensures x == y
  {
    StrLeqAntisymmetric(x, y);
  }

  // ---------------------------------------------------------- decimal text

  function Digit(d: nat): char
    requires d < 10
  {
    ['0', '1', '2', '3', '4', '5', '6', '7', '8', '9'][d]
  }

  /** `str(n)` for a non-negative integer. */
  function NatText(n: nat): string
  {
    if n < 10 then [Digit(n)] else NatText(n / 10) + [Digit(n % 10)]
  }

  /** `str(n)`. */
  function IntText(n: int): string
  {
    if n < 0 then "-" + NatText(-n) else NatText(n)
  }
}
