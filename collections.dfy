/** Sequence and map operations the chart scripts get from arrays, `Map`,
    `Set` and the d3 array helpers: filtering, `find`, first-appearance
    grouping, last-write-wins maps, sums, maxima and sorting by a numeric key. */
module Collections {

  datatype Option<T> = None | Some(value: T)

  /** The outcome of a computation that may throw. */
  datatype Result<T, E> = Ok(value: T) | Err(error: E)

  /** `Array.prototype.filter`: keeps exactly the elements satisfying `p`;
      `FilterAppend` and `FilterLastWhere` state that it keeps their order. */
  function Filter<T(!new)>(s: seq<T>, p: T -> bool): (r: seq<T>)
    ensures |r| <= |s|
    ensures forall x :: x in r <==> x in s && p(x)
    ensures forall i :: 0 <= i < |r| ==> p(r[i])
  {
    if s == [] then []
    else
      var rest := Filter(s[..|s| - 1], p);
      assert forall x :: x in s <==> x in s[..|s| - 1] || x == s[|s| - 1];
      if p(s[|s| - 1]) then rest + [s[|s| - 1]] else rest
  }

  lemma {:induction false} FilterAppend<T(!new)>(a: seq<T>, b: seq<T>, p: T -> bool)
    ensures Filter(a + b, p) == Filter(a, p) + Filter(b, p)
    decreases |b|
  {
    if b == [] {
      assert a + b == a;
    } else {
      var n := |b| - 1;
      assert (a + b)[..|a + b| - 1] == a + b[..n];
      FilterAppend(a, b[..n], p);
      assert b[..n] + [b[n]] == b;
    }
  }

  /** Everything passes the filter when every element satisfies `p`. */
  lemma {:induction false} FilterAll<T(!new)>(s: seq<T>, p: T -> bool)
    requires forall i :: 0 <= i < |s| ==> p(s[i])
    ensures Filter(s, p) == s
    decreases |s|
  {
    if s != [] {
      FilterAll(s[..|s| - 1], p);
      assert s[..|s| - 1] + [s[|s| - 1]] == s;
    }
  }

  /** Nothing passes the filter when no element satisfies `p`. */
  lemma {:induction false} FilterNone<T(!new)>(s: seq<T>, p: T -> bool)
    requires forall i :: 0 <= i < |s| ==> !p(s[i])
    ensures Filter(s, p) == []
    decreases |s|
  {
    if s != [] {
      FilterNone(s[..|s| - 1], p);
    }
  }

  /** `Array.prototype.find`: the first element satisfying `p`, if any. */
  function Find<T(==)>(s: seq<T>, p: T -> bool): (r: Option<T>)
    ensures r.None? <==> forall i :: 0 <= i < |s| ==> !p(s[i])
    ensures r.Some? ==> exists i :: 0 <= i < |s| && s[i] == r.value && p(s[i]) &&
                                    forall j :: 0 <= j < i ==> !p(s[j])
  {
    if s == [] then None
    else if p(s[0]) then Some(s[0])
    else
      var r := Find(s[1..], p);
      assert forall i :: 1 <= i < |s| ==> s[i] == s[1..][i - 1];
      if r.Some? then
        var i :| 0 <= i < |s[1..]| && s[1..][i] == r.value && p(s[1..][i]) &&
                 forall j :: 0 <= j < i ==> !p(s[1..][j]);
        assert s[i + 1] == r.value && forall j :: 0 <= j < i + 1 ==> !p(s[j]);
        r
      else r
  }

  /** `find` returns the element at the first index satisfying `p`. */
  lemma FindFirst<T>(s: seq<T>, p: T -> bool, j: int)
    requires 0 <= j < |s| && p(s[j]) && forall k :: 0 <= k < j ==> !p(s[k])
    ensures Find(s, p) == Some(s[j])
  {
    var f := Find(s, p);
    var i :| 0 <= i < |s| && s[i] == f.value && p(s[i]) && forall k :: 0 <= k < i ==> !p(s[k]);
    assert !(i < j) && !(j < i);
  }

  /** Looking for an element that implies `q` finds the same thing in `s` and in `s.filter(q)`. */
  lemma {:induction false} FindFilter<T(!new)>(s: seq<T>, q: T -> bool, p: T -> bool)
    requires forall x :: p(x) ==> q(x)
    ensures Find(Filter(s, q), p) == Find(s, p)
    decreases |s|
  {
    if s != [] {
      var t := s[1..];
      var f := Filter(t, q);
      FindFilter(t, q, p);
      FilterAppend([s[0]], t, q);
      assert [s[0]] + t == s;
      assert Filter([s[0]], q) == if q(s[0]) then [s[0]] else [] by {
        assert [s[0]][..0] == [];
      }
      if q(s[0]) {
        var u := [s[0]] + f;
        assert Filter(s, q) == u;
        assert u[0] == s[0] && u[1..] == f;
      } else {
        assert Filter(s, q) == f;
      }
    }
  }

  /** `s.indexOf(x)`, with `|s|` standing for the -1 of an absent `x`. */
  function IndexIn<T(==)>(s: seq<T>, x: T): (i: nat)
    ensures i <= |s|
    ensures i < |s| <==> x in s
    ensures i < |s| ==> s[i] == x
    ensures forall j :: 0 <= j < i ==> s[j] != x
  {
    if s == [] then 0 else if s[0] == x then 0 else 1 + IndexIn(s[1..], x)
  }

  /** No element occurs twice. */
  predicate Distinct<T(==)>(s: seq<T>)
  {
    forall i, j :: 0 <= i < j < |s| ==> s[i] != s[j]
  }

  lemma IndexInDistinct<T>(s: seq<T>, i: int)
    requires Distinct(s) && 0 <= i < |s|
    ensures IndexIn(s, s[i]) == i
  {
  }

  /** The present values of `s`, in order: `.filter(d => d)` after a map that may
      give `null`, and `d3.csv` dropping the rows its row function rejects. */
  function Somes<T(!new)>(s: seq<Option<T>>): (r: seq<T>)
    ensures |r| <= |s|
    ensures forall x :: x in r <==> Some(x) in s
  {
    if s == [] then []
    else
      var n := |s| - 1;
      assert forall o :: o in s <==> o in s[..n] || o == s[n];
      Somes(s[..n]) + (if s[n].Some? then [s[n].value] else [])
  }

  /** `s.map(f).filter(...)` keeping the present results, in order. */
  function MapSomes<A, B(!new)>(s: seq<A>, f: A -> Option<B>): (r: seq<B>)
    ensures |r| <= |s|
    ensures forall x :: x in r <==> exists j :: 0 <= j < |s| && f(s[j]) == Some(x)
    ensures forall j :: 0 <= j < |s| && f(s[j]).Some? ==> f(s[j]).value in r
  {
    if s == [] then []
    else
      var n := |s| - 1;
      var rest := MapSomes(s[..n], f);
      assert forall x :: (exists j :: 0 <= j < n && f(s[..n][j]) == Some(x)) <==> (exists j :: 0 <= j < n && f(s[j]) == Some(x)) by {
        forall j | 0 <= j < n ensures s[..n][j] == s[j] { }
      }
      rest + (if f(s[n]).Some? then [f(s[n]).value] else [])
  }

  /** The last element adds its image, if it has one, at the end. */
  lemma MapSomesLast<A, B(!new)>(s: seq<A>, f: A -> Option<B>)
    requires s != []
    ensures MapSomes(s, f) ==
      MapSomes(s[..|s| - 1], f) + (if f(s[|s| - 1]).Some? then [f(s[|s| - 1]).value] else [])
  {
  }

  /** The elements `f` gives an image, the ones `MapSomes` keeps. */
  function HasImage<A, B>(f: A -> Option<B>): A -> bool
  {
    a => f(a).Some?
  }

  /** `MapSomes` keeps one image per element that has one, in order. */
  lemma {:induction false} MapSomesAt<A(!new), B(!new)>(s: seq<A>, f: A -> Option<B>)
    ensures var sel := Filter(s, HasImage(f));
      |MapSomes(s, f)| == |sel| &&
      forall i :: 0 <= i < |sel| ==> f(sel[i]).Some? && MapSomes(s, f)[i] == f(sel[i]).value
    decreases |s|
  {
    if s != [] {
      var n := |s| - 1;
      MapSomesAt(s[..n], f);
      MapSomesLast(s, f);
    }
  }

  /** Element `i` of `s` satisfies `q` and no later one does. */
  predicate LastWhere<T>(s: seq<T>, q: T -> bool, i: int)
  {
    0 <= i < |s| && q(s[i]) && forall j :: i < j < |s| ==> !q(s[j])
  }

  /** The last element satisfying `q` that is not the final element is
      still the last one once the final element is dropped. */
  lemma LastWhereInit<T>(s: seq<T>, q: T -> bool, i: int)
    requires LastWhere(s, q, i) && i < |s| - 1
    ensures LastWhere(s[..|s| - 1], q, i) && !q(s[|s| - 1])
  {
    assert forall j :: i < j < |s| - 1 ==> s[..|s| - 1][j] == s[j];
  }

  /** Appending an element that does not satisfy `q` keeps the last one. */
  lemma LastWhereExtend<T>(s: seq<T>, q: T -> bool, k: int)
    requires s != [] && LastWhere(s[..|s| - 1], q, k) && !q(s[|s| - 1])
    ensures LastWhere(s, q, k)
  {
    assert forall j :: k <= j < |s| - 1 ==> s[..|s| - 1][j] == s[j];
  }

  /** Passes `p` and satisfies `q`. */
  function Both<T>(p: T -> bool, q: T -> bool): T -> bool
  {
    x => p(x) && q(x)
  }

  /** Has an image, and the image satisfies `q`. */
  function Hits<A, B>(f: A -> Option<B>, q: B -> bool): A -> bool
  {
    x => f(x).Some? && q(f(x).value)
  }

  /** The last kept element satisfying `q` comes from the last element of `s`
      that passes the filter and satisfies `q`. */
  lemma {:induction false} FilterLastWhere<T(!new)>(s: seq<T>, p: T -> bool, q: T -> bool, i: int) returns (k: int)
    requires LastWhere(Filter(s, p), q, i)
    ensures LastWhere(s, Both(p, q), k) && s[k] == Filter(s, p)[i]
    decreases |s|
  {
    var n := |s| - 1;
    var r, rest := Filter(s, p), Filter(s[..n], p);
    if p(s[n]) {
      assert r == rest + [s[n]];
      if i == |rest| {
        k := n;
      } else {
        LastWhereInit(r, q, i);
        assert r[..|rest|] == rest;
        k := FilterLastWhere(s[..n], p, q, i);
        LastWhereExtend(s, Both(p, q), k);
      }
    } else {
      assert r == rest;
      k := FilterLastWhere(s[..n], p, q, i);
      LastWhereExtend(s, Both(p, q), k);
    }
  }

  /** The last present image satisfying `q` is that of the last element of
      `s` whose image is present and satisfies `q`. */
  lemma {:induction false} MapSomesLastWhere<A, B(!new)>(s: seq<A>, f: A -> Option<B>, q: B -> bool, i: int) returns (k: int)
    requires LastWhere(MapSomes(s, f), q, i)
    ensures LastWhere(s, Hits(f, q), k) && f(s[k]) == Some(MapSomes(s, f)[i])
    decreases |s|
  {
    var n := |s| - 1;
    var r, rest := MapSomes(s, f), MapSomes(s[..n], f);
    if f(s[n]).Some? {
      assert r == rest + [f(s[n]).value];
      if i == |rest| {
        k := n;
      } else {
        LastWhereInit(r, q, i);
        assert r[..|rest|] == rest;
        k := MapSomesLastWhere(s[..n], f, q, i);
        LastWhereExtend(s, Hits(f, q), k);
      }
    } else {
      assert r == rest;
      k := MapSomesLastWhere(s[..n], f, q, i);
      LastWhereExtend(s, Hits(f, q), k);
    }
  }

  /** Some present image satisfies `q` exactly when some element of `s` has
      an image that does. */
  lemma MapSomesWhere<A, B(!new)>(s: seq<A>, f: A -> Option<B>, q: B -> bool)
    ensures (exists i :: 0 <= i < |MapSomes(s, f)| && q(MapSomes(s, f)[i])) <==>
      exists j :: 0 <= j < |s| && f(s[j]).Some? && q(f(s[j]).value)
  {
    var r := MapSomes(s, f);
    if exists j :: 0 <= j < |s| && f(s[j]).Some? && q(f(s[j]).value) {
      var j :| 0 <= j < |s| && f(s[j]).Some? && q(f(s[j]).value);
      assert f(s[j]).value in r;
      var i :| 0 <= i < |r| && r[i] == f(s[j]).value;
      assert 0 <= i < |r| && q(r[i]);
      assert exists i :: 0 <= i < |MapSomes(s, f)| && q(MapSomes(s, f)[i]);
      assert exists j :: 0 <= j < |s| && f(s[j]).Some? && q(f(s[j]).value);
    } else {
      forall i | 0 <= i < |r| ensures !q(r[i]) {
        assert r[i] in r;
        var j :| 0 <= j < |s| && f(s[j]) == Some(r[i]);
      }
    }
  }

  /** `keep` and `f` in one step: the image of an element that passes. */
  function KeptImage<A, B>(keep: A -> bool, f: A -> Option<B>): A -> Option<B>
  {
    a => if keep(a) then f(a) else None
  }

  /** Filtering and then mapping is one pass that maps the elements that
      pass, in order. */
  lemma {:induction false} MapSomesOfFilter<A(!new), B(!new)>(s: seq<A>, keep: A -> bool, f: A -> Option<B>)
    ensures MapSomes(Filter(s, keep), f) == MapSomes(s, KeptImage(keep, f))
    decreases |s|
  {
    if s != [] {
      var n := |s| - 1;
      MapSomesOfFilter(s[..n], keep, f);
      MapSomesLast(s, KeptImage(keep, f));
      if keep(s[n]) {
        var sel := Filter(s, keep);
        assert sel == Filter(s[..n], keep) + [s[n]];
        assert sel[..|sel| - 1] == Filter(s[..n], keep);
        MapSomesLast(sel, f);
      }
    }
  }

  /** Keeping the elements that pass `keep` and then their images under `f`
      gives the images of exactly the elements that pass. */
  lemma FilterMapSomes<A(!new), B(!new)>(s: seq<A>, keep: A -> bool, f: A -> Option<B>)
    ensures forall y :: y in MapSomes(Filter(s, keep), f) <==> exists i :: 0 <= i < |s| && keep(s[i]) && f(s[i]) == Some(y)
    ensures forall y :: y in MapSomes(Filter(s, keep), f) <==> exists x :: x in s && keep(x) && f(x) == Some(y)
  {
    var sel := Filter(s, keep);
    forall y ensures y in MapSomes(sel, f) <==> exists i :: 0 <= i < |s| && keep(s[i]) && f(s[i]) == Some(y) {
      if y in MapSomes(sel, f) {
        var j :| 0 <= j < |sel| && f(sel[j]) == Some(y);
        assert sel[j] in sel;
        var i :| 0 <= i < |s| && s[i] == sel[j];
      }
      if exists i :: 0 <= i < |s| && keep(s[i]) && f(s[i]) == Some(y) {
        var i :| 0 <= i < |s| && keep(s[i]) && f(s[i]) == Some(y);
        assert s[i] in sel;
        var j :| 0 <= j < |sel| && sel[j] == s[i];
      }
    }
    forall y | exists x :: x in s && keep(x) && f(x) == Some(y)
      ensures exists i :: 0 <= i < |s| && keep(s[i]) && f(s[i]) == Some(y)
    {
      var x :| x in s && keep(x) && f(x) == Some(y);
      var i :| 0 <= i < |s| && s[i] == x;
    }
  }

  /** The number of elements of `s` satisfying `p`. */
  function CountIf<T>(s: seq<T>, p: T -> bool): nat
  {
    if s == [] then 0 else CountIf(s[..|s| - 1], p) + (if p(s[|s| - 1]) then 1 else 0)
  }

  /** A number as itself: the key of a plain numeric sort or sum. */
  function Identity(x: real): real { x }

  /** `d3.sum` of already-coerced numbers, added left to right. */
  function SumBy<T>(s: seq<T>, f: T -> real): real
  {
    if s == [] then 0.0 else SumBy(s[..|s| - 1], f) + f(s[|s| - 1])
  }

  lemma {:induction false} SumByAppend<T>(a: seq<T>, b: seq<T>, f: T -> real)
    ensures SumBy(a + b, f) == SumBy(a, f) + SumBy(b, f)
    decreases |b|
  {
    if b == [] {
      assert a + b == a;
    } else {
      var n := |b| - 1;
      assert (a + b)[..|a + b| - 1] == a + b[..n];
      SumByAppend(a, b[..n], f);
    }
  }

  lemma {:induction false} SumByNonNegative<T>(s: seq<T>, f: T -> real)
    requires forall i :: 0 <= i < |s| ==> f(s[i]) >= 0.0
    ensures SumBy(s, f) >= 0.0
    decreases |s|
  {
    if s != [] {
      SumByNonNegative(s[..|s| - 1], f);
    }
  }

  /** Pointwise `f <= g` gives `sum f <= sum g`. */
  lemma {:induction false} SumByMonotone<T>(s: seq<T>, f: T -> real, g: T -> real)
    requires forall i :: 0 <= i < |s| ==> f(s[i]) <= g(s[i])
    ensures SumBy(s, f) <= SumBy(s, g)
    decreases |s|
  {
    if s != [] {
      SumByMonotone(s[..|s| - 1], f, g);
    }
  }

  /** Sequences whose elements match one for one have equal sums. */
  lemma {:induction false} SumByPointwise<A, B>(a: seq<A>, f: A -> real, b: seq<B>, g: B -> real)
    requires |a| == |b| && forall i :: 0 <= i < |a| ==> f(a[i]) == g(b[i])
    ensures SumBy(a, f) == SumBy(b, g)
    decreases |a|
  {
    if a != [] {
      SumByPointwise(a[..|a| - 1], f, b[..|b| - 1], g);
    }
  }

  /** Changing the summed function at one element of a duplicate-free
      sequence changes the sum by the change at that element. */
  lemma {:induction false} SumByExcept<T>(s: seq<T>, f: T -> real, g: T -> real, x: T)
    requires Distinct(s)
    requires forall i :: 0 <= i < |s| && s[i] != x ==> f(s[i]) == g(s[i])
    ensures SumBy(s, g) == SumBy(s, f) + (if x in s then g(x) - f(x) else 0.0)
    decreases |s|
  {
    if s != [] {
      var n := |s| - 1;
      var init := s[..n];
      assert Distinct(init);
      SumByExcept(init, f, g, x);
      assert s == init + [s[n]];
      if s[n] == x {
        assert x !in init;
      }
    }
  }

  /** Summing `f + g` is summing `f` and summing `g`. */
  lemma {:induction false} SumBySplit<T>(s: seq<T>, f: T -> real, g: T -> real, h: T -> real)
    requires forall i :: 0 <= i < |s| ==> h(s[i]) == f(s[i]) + g(s[i])
    ensures SumBy(s, h) == SumBy(s, f) + SumBy(s, g)
    decreases |s|
  {
    if s != [] {
      SumBySplit(s[..|s| - 1], f, g, h);
    }
  }

  /** Summing only over the elements `p` keeps is summing `p ? f : 0` over all of them. */
  lemma {:induction false} SumByFilter<T(!new)>(s: seq<T>, p: T -> bool, f: T -> real, g: T -> real)
    requires forall i :: 0 <= i < |s| ==> g(s[i]) == (if p(s[i]) then f(s[i]) else 0.0)
    ensures SumBy(Filter(s, p), f) == SumBy(s, g)
    decreases |s|
  {
    if s != [] {
      SumByFilter(s[..|s| - 1], p, f, g);
    }
  }

  /** The distinct keys of `s`, in order of first appearance: the key order of
      `d3.groups`, `d3.rollup` and `Array.from(new Set(...))`. */
  function Keys<T, K(==,!new)>(s: seq<T>, key: T -> K): (ks: seq<K>)
    ensures forall i, j :: 0 <= i < j < |ks| ==> ks[i] != ks[j]
    ensures forall k :: k in ks <==> exists i :: 0 <= i < |s| && key(s[i]) == k
    ensures |ks| <= |s|
  {
    if s == [] then []
    else
      var init := s[..|s| - 1];
      var ks := Keys(init, key);
      assert forall i :: 0 <= i < |init| ==> init[i] == s[i];
      if key(s[|s| - 1]) in ks then ks else ks + [key(s[|s| - 1])]
  }

  /** The `(key, group)` pairs of `d3.groups(s, key)`: one group per distinct
      key, in first-appearance order, each holding its elements in input order. */
  function Groups<T(!new), K(==,!new)>(s: seq<T>, key: T -> K): (g: seq<(K, seq<T>)>)
    ensures |g| == |Keys(s, key)|
    ensures forall i :: 0 <= i < |g| ==> g[i].0 == Keys(s, key)[i] && |g[i].1| > 0
    ensures forall i, x :: 0 <= i < |g| && x in g[i].1 ==> x in s && key(x) == g[i].0
    ensures forall i, x :: 0 <= i < |g| && x in s && key(x) == g[i].0 ==> x in g[i].1
    ensures forall x :: x in s ==> exists i :: 0 <= i < |g| && g[i].0 == key(x) && x in g[i].1
  {
    var ks := Keys(s, key);
    var g := seq(|ks|, i requires 0 <= i < |ks| => (ks[i], Filter(s, x => key(x) == ks[i])));
    forall i | 0 <= i < |g| ensures |g[i].1| > 0 {
      assert ks[i] in ks;
      var j :| 0 <= j < |s| && key(s[j]) == ks[i];
      assert s[j] in g[i].1;
    }
    forall x | x in s ensures exists i :: 0 <= i < |g| && g[i].0 == key(x) && x in g[i].1 {
      var j :| 0 <= j < |s| && s[j] == x;
      assert key(x) in ks;
      var i :| 0 <= i < |ks| && ks[i] == key(x);
      assert x in g[i].1;
    }
    g
  }

  /** The position of the last pair in `s` with the same key as `s[i]`. */
  predicate IsLastKey<K(==), V>(s: seq<(K, V)>, i: int)
    requires 0 <= i < |s|
  {
    forall j :: i < j < |s| ==> s[j].0 != s[i].0
  }

  /** `new Map(pairs)` and repeated `obj[k] = v`: the last write to a key wins. */
  function LastWins<K(==,!new), V>(s: seq<(K, V)>): (m: map<K, V>)
    ensures forall k :: k in m <==> exists i :: 0 <= i < |s| && s[i].0 == k
    ensures forall i :: 0 <= i < |s| && IsLastKey(s, i) ==> s[i].0 in m && m[s[i].0] == s[i].1
  {
    if s == [] then map[]
    else
      var n := |s| - 1;
      var init := s[..n];
      var m := LastWins(init);
      var m' := m[s[n].0 := s[n].1];
      LastWinsStepKeys(s, m, m');
      LastWinsStepLast(s, m, m');
      m'
  }

  /** Writing the final pair adds its key to the keys of the earlier pairs. */
  lemma LastWinsStepKeys<K, V>(s: seq<(K, V)>, m: map<K, V>, m': map<K, V>)
    requires s != [] && m' == m[s[|s| - 1].0 := s[|s| - 1].1]
    requires var init := s[..|s| - 1]; forall k :: k in m <==> exists i :: 0 <= i < |init| && init[i].0 == k
    ensures forall k :: k in m' <==> exists i :: 0 <= i < |s| && s[i].0 == k
  {
    var n := |s| - 1;
    var init := s[..n];
    forall k ensures k in m' <==> exists i :: 0 <= i < |s| && s[i].0 == k {
      if k in m && k != s[n].0 {
        var i :| 0 <= i < |init| && init[i].0 == k;
        assert s[i].0 == k;
      }
      if exists i :: 0 <= i < |s| && s[i].0 == k {
        var i :| 0 <= i < |s| && s[i].0 == k;
        if i < n { assert init[i].0 == k; }
      }
    }
  }

  /** Writing the final pair keeps, for every key, the last pair written
      under it. */
  lemma LastWinsStepLast<K, V>(s: seq<(K, V)>, m: map<K, V>, m': map<K, V>)
    requires s != [] && m' == m[s[|s| - 1].0 := s[|s| - 1].1]
    requires var init := s[..|s| - 1];
      forall i :: 0 <= i < |init| && IsLastKey(init, i) ==> init[i].0 in m && m[init[i].0] == init[i].1
    ensures forall i :: 0 <= i < |s| && IsLastKey(s, i) ==> s[i].0 in m' && m'[s[i].0] == s[i].1
  {
    var n := |s| - 1;
    var init := s[..n];
    forall i | 0 <= i < |s| && IsLastKey(s, i) ensures s[i].0 in m' && m'[s[i].0] == s[i].1 {
      if i < n {
        assert s[n].0 != s[i].0;
        LastKeyInit(s, i);
        assert init[i] == s[i];
      }
    }
  }

  /** The last pair written under a key is the one the map keeps. */
  lemma {:induction false} LastWinsLast<K(!new), V>(s: seq<(K, V)>, k: K)
    requires k in LastWins(s)
    ensures exists i :: 0 <= i < |s| && s[i].0 == k && IsLastKey(s, i) && LastWins(s)[k] == s[i].1
    decreases |s|
  {
    var n := |s| - 1;
    if s[n].0 == k {
      assert IsLastKey(s, n);
    } else {
      var init := s[..n];
      var m := LastWins(init);
      assert LastWins(s) == m[s[n].0 := s[n].1];
      assert k in m && LastWins(s)[k] == m[k];
      LastWinsLast(init, k);
      var i :| 0 <= i < |init| && init[i].0 == k && IsLastKey(init, i) && m[k] == init[i].1;
      assert s[i] == init[i];
      LastKeyExtend(s, i);
    }
  }

  /** When the pairs under key `k` are exactly those whose value passes `p`,
      the map has `k` iff some value passes, and keeps the last that does. */
  lemma LastWinsWhere<K(!new), V>(s: seq<(K, V)>, k: K, p: V -> bool) returns (i: int)
    requires forall i :: 0 <= i < |s| ==> (s[i].0 == k <==> p(s[i].1))
    ensures k in LastWins(s) <==> exists i :: 0 <= i < |s| && p(s[i].1)
    ensures k in LastWins(s) ==>
      0 <= i < |s| && p(s[i].1) && LastWins(s)[k] == s[i].1 && forall j :: i < j < |s| ==> !p(s[j].1)
  {
    i := 0;
    if k in LastWins(s) {
      LastWinsLast(s, k);
      i :| 0 <= i < |s| && s[i].0 == k && IsLastKey(s, i) && LastWins(s)[k] == s[i].1;
      assert forall j :: i < j < |s| ==> !p(s[j].1);
    }
    if exists i :: 0 <= i < |s| && p(s[i].1) {
      var i :| 0 <= i < |s| && p(s[i].1);
      assert s[i].0 == k;
    }
  }

  /** The last pair of its key stays the last once the final pair is dropped. */
  lemma LastKeyInit<K, V>(s: seq<(K, V)>, i: int)
    requires 0 <= i < |s| - 1 && IsLastKey(s, i)
    ensures IsLastKey(s[..|s| - 1], i)
  {
    var init := s[..|s| - 1];
    forall j | i < j < |init| ensures init[j].0 != init[i].0 {
      assert init[j] == s[j];
    }
  }

  lemma LastKeyExtend<K, V>(s: seq<(K, V)>, i: int)
    requires 0 <= i < |s| - 1 && IsLastKey(s[..|s| - 1], i) && s[|s| - 1].0 != s[i].0
    ensures IsLastKey(s, i)
  {
    var init := s[..|s| - 1];
    forall j | i < j < |s| ensures s[j].0 != s[i].0 {
      if j < |s| - 1 {
        assert s[j] == init[j] && init[j].0 != init[i].0;
      }
    }
  }
  /** An object filled by writing each element's value under two keys, the
      first and then the second. */
  function IndexBoth<T, K(==), V>(s: seq<T>, k1: T -> K, k2: T -> K, v: T -> V): map<K, V>
  {
    if s == [] then map[]
    else
      var x := s[|s| - 1];
      IndexBoth(s[..|s| - 1], k1, k2, v)[k1(x) := v(x)][k2(x) := v(x)]
  }

  /** A key is present exactly when some element writes it, and it holds the
      value of the last element that does. */
  lemma {:induction false} IndexBothLookup<T, K, V>(s: seq<T>, k1: T -> K, k2: T -> K, v: T -> V, k: K)
    ensures k in IndexBoth(s, k1, k2, v) <==> exists i :: 0 <= i < |s| && (k1(s[i]) == k || k2(s[i]) == k)
    ensures k in IndexBoth(s, k1, k2, v) ==>
      exists i :: 0 <= i < |s| && (k1(s[i]) == k || k2(s[i]) == k) && IndexBoth(s, k1, k2, v)[k] == v(s[i]) &&
        forall j :: i < j < |s| ==> k1(s[j]) != k && k2(s[j]) != k
    decreases |s|
  {
    if s != [] {
      var n := |s| - 1;
      var init := s[..n];
      IndexBothLookup(init, k1, k2, v, k);
      if k1(s[n]) != k && k2(s[n]) != k {
        if exists i :: 0 <= i < |s| && (k1(s[i]) == k || k2(s[i]) == k) {
          var i :| 0 <= i < |s| && (k1(s[i]) == k || k2(s[i]) == k);
          assert init[i] == s[i];
        }
        if k in IndexBoth(init, k1, k2, v) {
          var i :| 0 <= i < n && (k1(init[i]) == k || k2(init[i]) == k) && IndexBoth(init, k1, k2, v)[k] == v(init[i]) &&
            forall j :: i < j < n ==> k1(init[j]) != k && k2(init[j]) != k;
          assert s[i] == init[i];
          forall j | i < j < |s| ensures k1(s[j]) != k && k2(s[j]) != k {
            if j < n { assert s[j] == init[j]; }
          }
        }
      }
    }
  }


  /** A distinct sequence holds each value at most once. */
  lemma {:induction false} DistinctCount<T>(s: seq<T>, x: T)
    requires Distinct(s)
    ensures multiset(s)[x] <= 1
    decreases |s|
  {
    if s != [] {
      var n := |s| - 1;
      assert s == s[..n] + [s[n]];
      DistinctCount(s[..n], x);
      if x == s[n] {
        assert x !in s[..n];
      }
    }
  }

  /** Reordering a sequence without duplicates gives one without duplicates. */
  lemma DistinctPermutation<T>(a: seq<T>, b: seq<T>)
    requires Distinct(a) && multiset(a) == multiset(b)
    ensures Distinct(b)
  {
    forall i, j | 0 <= i < j < |b| ensures b[i] != b[j] {
      DistinctCount(a, b[j]);
      assert b == b[..j] + [b[j]] + b[j + 1..];
      assert b[i] in b[..j];
      assert multiset(b)[b[j]] >= multiset(b[..j])[b[j]] + 1;
      assert multiset(b[..j])[b[i]] >= 1;
    }
  }

  /** Reordering a sequence whose elements have pairwise different keys
      keeps the keys pairwise different. */
  lemma DistinctKeysPermutation<T, K>(a: seq<T>, b: seq<T>, key: T -> K)
    requires multiset(a) == multiset(b)
    requires forall i, j :: 0 <= i < j < |a| ==> key(a[i]) != key(a[j])
    ensures forall i, j :: 0 <= i < j < |b| ==> key(b[i]) != key(b[j])
  {
    assert Distinct(a);
    DistinctPermutation(a, b);
    SameMembers(a, b);
    forall i, j | 0 <= i < j < |b| ensures key(b[i]) != key(b[j]) {
      assert b[i] in a && b[j] in a;
      var x :| 0 <= x < |a| && a[x] == b[i];
      var y :| 0 <= y < |a| && a[y] == b[j];
      assert x != y;
    }
  }

  /** An element of a permutation is an element of the original. */
  lemma PermutationMember<T>(a: seq<T>, b: seq<T>, i: int)
    requires multiset(a) == multiset(b) && 0 <= i < |b|
    ensures b[i] in a
  {
    assert b[i] in multiset(b);
  }

  /** Keys that grow from each element to the next grow along the whole
      sequence. */
  lemma {:induction false} IncreasingKeys<T>(s: seq<T>, key: T -> int)
    requires forall i :: 0 < i < |s| ==> key(s[i - 1]) < key(s[i])
    ensures forall i, j :: 0 <= i < j < |s| ==> key(s[i]) < key(s[j])
    decreases |s|
  {
    if s != [] {
      var n := |s| - 1;
      IncreasingKeys(s[..n], key);
      forall i, j | 0 <= i < j < |s| ensures key(s[i]) < key(s[j]) {
        if j < n {
          assert s[..n][i] == s[i] && s[..n][j] == s[j];
        } else if i < n - 1 {
          assert s[..n][i] == s[i] && s[..n][n - 1] == s[n - 1];
        }
      }
    }
  }

  /** Pairs with pairwise different keys give a map with one entry each. */
  lemma {:induction false} LastWinsSize<K(!new), V>(s: seq<(K, V)>)
    requires forall i, j :: 0 <= i < j < |s| ==> s[i].0 != s[j].0
    ensures |LastWins(s)| == |s|
    decreases |s|
  {
    if s != [] {
      var n := |s| - 1;
      var init := s[..n];
      LastWinsSize(init);
      assert s[n].0 !in LastWins(init);
    }
  }

  /** A permutation has the same members. */
  lemma SameMembers<T>(a: seq<T>, b: seq<T>)
    requires multiset(a) == multiset(b)
    ensures forall x :: x in a <==> x in b
  {
    forall x ensures x in a <==> x in b {
      assert x in a <==> x in multiset(a);
      assert x in b <==> x in multiset(b);
    }
  }

  /** Ascending by `key`, as `arr.sort((a, b) => key(a) - key(b))` leaves it. */
  predicate SortedBy<T>(s: seq<T>, key: T -> real)
  {
    forall i, j :: 0 <= i < j < |s| ==> key(s[i]) <= key(s[j])
  }

  function InsertBy<T(==,!new)>(x: T, s: seq<T>, key: T -> real): (r: seq<T>)
    requires SortedBy(s, key)
    ensures SortedBy(r, key)
    ensures multiset(r) == multiset(s) + multiset{x}
    decreases |s|
  {
    if s == [] || key(s[|s| - 1]) <= key(x) then
      assert SortedBy(s + [x], key) by {
        forall i, j | 0 <= i < j < |s| + 1 ensures key((s + [x])[i]) <= key((s + [x])[j]) {
          if j == |s| && i < j { assert key(s[i]) <= key(s[|s| - 1]); }
        }
      }
      s + [x]
    else
      var n := |s| - 1;
      var init := s[..n];
      var r := InsertBy(x, init, key);
      assert init + [s[n]] == s;
      forall k | 0 <= k < |r| ensures key(r[k]) <= key(s[n]) {
        assert r[k] in multiset(r);
        if r[k] != x {
          assert r[k] in multiset(init);
          var m :| 0 <= m < |init| && init[m] == r[k];
        }
      }
      r + [s[n]]
  }

  /** The library sort with a numeric comparator: a permutation of `s` ordered
      by `key`. */
  function SortBy<T(==,!new)>(s: seq<T>, key: T -> real): (r: seq<T>)
    ensures SortedBy(r, key)
    ensures multiset(r) == multiset(s)
    ensures |r| == |s|
  {
    if s == [] then []
    else
      var n := |s| - 1;
      assert s[..n] + [s[n]] == s;
      var r := InsertBy(s[n], SortBy(s[..n], key), key);
      assert |r| == |multiset(r)|;
      r
  }

  /** `d3.max` over numbers: undefined on an empty sequence. */
  function MaxOf(s: seq<real>): (m: Option<real>)
    ensures m.None? <==> s == []
    ensures m.Some? ==> m.value in s && forall i :: 0 <= i < |s| ==> s[i] <= m.value
  {
    if s == [] then None
    else
      var rest := MaxOf(s[..|s| - 1]);
      assert forall i :: 0 <= i < |s| - 1 ==> s[..|s| - 1][i] == s[i];
      if rest.None? || rest.value < s[|s| - 1] then Some(s[|s| - 1]) else rest
  }

  /** `d3.min` over numbers: undefined on an empty sequence. */
  function MinOf(s: seq<real>): (m: Option<real>)
    ensures m.None? <==> s == []
    ensures m.Some? ==> m.value in s && forall i :: 0 <= i < |s| ==> m.value <= s[i]
  {
    if s == [] then None
    else
      var rest := MinOf(s[..|s| - 1]);
      assert forall i :: 0 <= i < |s| - 1 ==> s[..|s| - 1][i] == s[i];
      if rest.None? || s[|s| - 1] < rest.value then Some(s[|s| - 1]) else rest
  }

  /** A click toggle: choosing the current choice again clears it, anything
      else becomes the choice. */
  function Toggle<T(==)>(current: Option<T>, x: T): (r: Option<T>)
    ensures r.None? <==> current == Some(x)
    ensures r.Some? ==> r.value == x
  {
    if current == Some(x) then None else Some(x)
  }
}
