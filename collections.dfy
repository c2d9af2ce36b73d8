/** Small collection helpers that stand for Python built-ins used by the graders and
    the data loader: `dict(zip(keys, values))`, list flattening and `list.count`. */
module Collections {

  datatype Option<+T> = None | Some(value: T)

  /** `m.get(k, d)`. */
  function Get<K, V>(m: map<K, V>, k: K, d: V): V
  {
    if k in m then m[k] else d
  }

  /** `dict(zip(ks, vs))` for the pairs `(ks[i], vs[i])`: later pairs overwrite earlier ones. */
  function DictFromPairs<K, V>(pairs: seq<(K, V)>): (m: map<K, V>)
    ensures m.Keys == set i | 0 <= i < |pairs| :: pairs[i].0
  {
    if pairs == [] then map[]
    else
      var prev := DictFromPairs(pairs[..|pairs| - 1]);
      assert forall i :: 0 <= i < |pairs| - 1 ==> pairs[..|pairs| - 1][i] == pairs[i];
      prev[pairs[|pairs| - 1].0 := pairs[|pairs| - 1].1]
  }

  /** The value stored for a key is the one of the LAST pair carrying that key. */
  lemma {:induction false} DictFromPairsLastWins<K, V>(pairs: seq<(K, V)>, i: nat)
    requires i < |pairs|
    requires forall j :: i < j < |pairs| ==> pairs[j].0 != pairs[i].0
    ensures pairs[i].0 in DictFromPairs(pairs)
    ensures DictFromPairs(pairs)[pairs[i].0] == pairs[i].1
  {
    if i < |pairs| - 1 {
      var prefix := pairs[..|pairs| - 1];
      DictFromPairsLastWins(prefix, i);
    }
  }

  /** Every stored value comes from a pair carrying its key. */
  lemma {:induction false} DictFromPairsFrom<K, V>(pairs: seq<(K, V)>, k: K)
    requires k in DictFromPairs(pairs)
    ensures exists i :: 0 <= i < |pairs| && pairs[i] == (k, DictFromPairs(pairs)[k])
  {
    var n := |pairs| - 1;
    if pairs[n].0 != k {
      var prefix := pairs[..n];
      DictFromPairsFrom(prefix, k);
      var i :| 0 <= i < |prefix| && prefix[i] == (k, DictFromPairs(prefix)[k]);
      assert pairs[i] == prefix[i];
    } else {
      assert pairs[n] == (k, DictFromPairs(pairs)[k]);
    }
  }

  /** Concatenation of a list of lists, outer order first (a left fold). */
  function Flatten<T>(xss: seq<seq<T>>): seq<T>
  {
    if xss == [] then [] else Flatten(xss[..|xss| - 1]) + xss[|xss| - 1]
  }

  /** Number of elements of all inner lists. */
  function TotalLength<T>(xss: seq<seq<T>>): nat
  {
    if xss == [] then 0 else TotalLength(xss[..|xss| - 1]) + |xss[|xss| - 1]|
  }

  /** Start position of `xss[b]` inside `Flatten(xss)`. */
  function Offset<T>(xss: seq<seq<T>>, b: nat): nat
    requires b <= |xss|
  {
    TotalLength(xss[..b])
  }

  lemma {:induction false} FlattenLength<T>(xss: seq<seq<T>>)
    ensures |Flatten(xss)| == TotalLength(xss)
  {
    if xss != [] {
      FlattenLength(xss[..|xss| - 1]);
    }
  }

  lemma FlattenPrefixStep<T>(xss: seq<seq<T>>, b: nat)
    requires b < |xss|
    ensures Flatten(xss[..b + 1]) == Flatten(xss[..b]) + xss[b]
    ensures TotalLength(xss[..b + 1]) == TotalLength(xss[..b]) + |xss[b]|
  {
    assert xss[..b + 1][..b] == xss[..b];
  }

  /** Order of a flattened batch: inner element `k` of outer element `b` sits at
      `Offset(xss, b) + k`, so outer order comes first and inner order is kept. */
  lemma {:induction false} FlattenAt<T>(xss: seq<seq<T>>, b: nat, k: nat)
    requires b < |xss| && k < |xss[b]|
    ensures Offset(xss, b) + k < |Flatten(xss)|
    ensures Flatten(xss)[Offset(xss, b) + k] == xss[b][k]
  {
    var n := |xss| - 1;
    var prefix := xss[..n];
    FlattenLength(xss);
    FlattenLength(prefix);
    if b == n {
      assert xss[..b] == prefix;
    } else {
      FlattenAt(prefix, b, k);
      assert prefix[..b] == xss[..b];
      assert prefix[b] == xss[b];
      FlattenPrefixStep(xss, b);
      PrefixLengthBound(prefix, b + 1);
    }
  }

  lemma {:induction false} PrefixLengthBound<T>(xss: seq<seq<T>>, b: nat)
    requires b <= |xss|
    ensures TotalLength(xss[..b]) <= TotalLength(xss)
  {
    if b < |xss| {
      var n := |xss| - 1;
      assert xss[..n][..b] == xss[..b];
      PrefixLengthBound(xss[..n], b);
    } else {
      assert xss[..b] == xss;
    }
  }

  /** `[y for x in xs for y in f(x)]`: the images of the elements, concatenated in order. */
  function FlatMap<T, U>(xs: seq<T>, f: T -> seq<U>): seq<U>
  {
    if xs == [] then [] else FlatMap(xs[..|xs| - 1], f) + f(xs[|xs| - 1])
  }

  /** One more element of a prefix adds its image at the end. */
  lemma FlatMapPrefix<T, U>(xs: seq<T>, f: T -> seq<U>, i: nat)
    requires i < |xs|
    ensures FlatMap(xs[..i + 1], f) == FlatMap(xs[..i], f) + f(xs[i])
  {
    assert xs[..i + 1][..i] == xs[..i];
  }

  /** Everything an element maps to ends up in the result. */
  lemma {:induction false} FlatMapHas<T, U>(xs: seq<T>, f: T -> seq<U>, k: nat, y: U)
    requires k < |xs| && y in f(xs[k])
    ensures y in FlatMap(xs, f)
  {
    var n := |xs| - 1;
    if k < n {
      assert xs[..n][k] == xs[k];
      FlatMapHas(xs[..n], f, k, y);
    }
  }

  /** Everything in the result comes from some element. */
  lemma {:induction false} FlatMapFrom<T, U>(xs: seq<T>, f: T -> seq<U>, j: nat)
    requires j < |FlatMap(xs, f)|
    ensures exists k :: 0 <= k < |xs| && FlatMap(xs, f)[j] in f(xs[k])
  {
    var n := |xs| - 1;
    var prev := FlatMap(xs[..n], f);
    if j < |prev| {
      FlatMapFrom(xs[..n], f, j);
      var k :| 0 <= k < n && prev[j] in f(xs[..n][k]);
      assert xs[..n][k] == xs[k];
    } else {
      assert FlatMap(xs, f)[j] == f(xs[n])[j - |prev|];
    }
  }

  /** The result is empty exactly when every element maps to nothing. */
  lemma {:induction false} FlatMapEmpty<T, U>(xs: seq<T>, f: T -> seq<U>)
    ensures FlatMap(xs, f) == [] <==> forall k :: 0 <= k < |xs| ==> f(xs[k]) == []
  {
    if xs != [] {
      var n := |xs| - 1;
      FlatMapEmpty(xs[..n], f);
      assert forall k :: 0 <= k < n ==> xs[..n][k] == xs[k];
    }
  }

  /** When three maps split every element's image of a fourth between them, the three
      results together are as long as the fourth. */
  lemma {:induction false} FlatMapLength3<T, U, V>(xs: seq<T>, f: T -> seq<U>, g: T -> seq<U>, h: T -> seq<U>, e: T -> seq<V>)
    requires forall k :: 0 <= k < |xs| ==> |f(xs[k])| + |g(xs[k])| + |h(xs[k])| == |e(xs[k])|
    ensures |FlatMap(xs, f)| + |FlatMap(xs, g)| + |FlatMap(xs, h)| == |FlatMap(xs, e)|
  {
    if xs != [] {
      var n := |xs| - 1;
      assert forall k :: 0 <= k < n ==> xs[..n][k] == xs[k];
      FlatMapLength3(xs[..n], f, g, h, e);
    }
  }

  /** `[x for x in xs if keep(x)]`: the kept elements, read front to back. */
  function Filter<T>(xs: seq<T>, keep: T -> bool): (r: seq<T>)
    ensures |r| <= |xs|
    ensures forall x :: x in r ==> x in xs && keep(x)
  {
    if xs == [] then [] else (if keep(xs[0]) then [xs[0]] else []) + Filter(xs[1..], keep)
  }

  /** Filtering a list with one more element at the end adds that element at the end
      when it is kept. */
  lemma {:induction false} FilterSnoc<T>(xs: seq<T>, x: T, keep: T -> bool)
    ensures Filter(xs + [x], keep) == Filter(xs, keep) + (if keep(x) then [x] else [])
  {
    if xs == [] {
      assert ([x])[1..] == [];
    } else {
      assert (xs + [x])[1..] == xs[1..] + [x];
      FilterSnoc(xs[1..], x, keep);
    }
  }

  /** `pd.Series.unique()`: each value present, and each only once. */
  method UniqueInOrder<T(==)>(xs: seq<T>) returns (u: seq<T>)
    ensures forall x :: x in u <==> x in xs
    ensures forall i, j :: 0 <= i < j < |u| ==> u[i] != u[j]
  {
    u := [];
    for i := 0 to |xs|
      invariant forall x :: x in u <==> x in xs[..i]
      invariant forall a, b :: 0 <= a < b < |u| ==> u[a] != u[b]
    {
      assert xs[..i + 1] == xs[..i] + [xs[i]];
      if xs[i] !in u {
        u := u + [xs[i]];
      }
    }
    assert xs[..|xs|] == xs;
  }

  /** `list.count(x)`. */
  function Count<T(==)>(s: seq<T>, x: T): nat
  {
    if s == [] then 0 else Count(s[..|s| - 1], x) + (if s[|s| - 1] == x then 1 else 0)
  }

  lemma {:induction false} CountPositive<T>(s: seq<T>, x: T)
    ensures Count(s, x) > 0 <==> x in s
  {
    if s != [] {
      var p := s[..|s| - 1];
      CountPositive(p, x);
      assert s == p + [s[|s| - 1]];
    }
  }
}
