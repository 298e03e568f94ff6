/** Sequence operations the source performs with `Array.prototype` methods:
    `filter`, stable `sort` by a numeric key, `slice(-n)`, grouping by a key
    into an insertion-ordered dictionary, and `reduce` to the first minimum. */
module Seqs {
  import opened Wrappers

  /** The predicate "the key of `x` is `k`", named so that every use of it
      denotes the same function value. */
  function HasKey<T, K(==)>(key: T -> K, k: K): T -> bool {
    x => key(x) == k
  }

  /** `s.filter(p)`, keeping the order of `s`. */
  function Filter<T(!new)>(s: seq<T>, p: T -> bool): (r: seq<T>)
    ensures |r| <= |s|
    ensures forall x :: x in r <==> x in s && p(x)
    decreases |s|
  {
    if s == [] then []
    else
      var t := Filter(s[..|s| - 1], p);
      assert s == s[..|s| - 1] + [s[|s| - 1]];
      if p(s[|s| - 1]) then t + [s[|s| - 1]] else t
  }

  /** Filtering distributes over concatenation, so it keeps the relative
      order of the elements it keeps. */
  lemma {:induction false} FilterAppend<T(!new)>(a: seq<T>, b: seq<T>, p: T -> bool)
    ensures Filter(a + b, p) == Filter(a, p) + Filter(b, p)
    decreases |b|
  {
    if b == [] {
      assert a + b == a;
    } else {
      var b' := b[..|b| - 1];
      var y := b[|b| - 1];
      assert (a + b)[..|a + b| - 1] == a + b';
      assert (a + b)[|a + b| - 1] == y;
      FilterAppend(a, b', p);
    }
  }

  /** Each element that passes keeps all its occurrences, every other
      element is dropped. */
  lemma {:induction false} FilterCount<T(!new)>(s: seq<T>, p: T -> bool, x: T)
    ensures multiset(Filter(s, p))[x] == if p(x) then multiset(s)[x] else 0
    decreases |s|
  {
    if s != [] {
      var init := s[..|s| - 1];
      assert s == init + [s[|s| - 1]];
      FilterCount(init, p, x);
    }
  }

  /** A single element is kept exactly when it passes. */
  lemma FilterSingleton<T(!new)>(x: T, p: T -> bool)
    ensures Filter([x], p) == if p(x) then [x] else []
  {
    assert [x][..0] == [];
  }

  /** Filtering from the front: the first element, if it passes, then
      what the rest keeps. */
  lemma FilterCons<T(!new)>(s: seq<T>, p: T -> bool)
    requires s != []
    ensures Filter(s, p) == (if p(s[0]) then [s[0]] else []) + Filter(s[1..], p)
  {
    assert s == [s[0]] + s[1..];
    FilterAppend([s[0]], s[1..], p);
    FilterSingleton(s[0], p);
  }

  /** What a prefix of `s` keeps is a prefix of what `s` keeps. */
  lemma FilterPrefix<T(!new)>(s: seq<T>, p: T -> bool, k: nat)
    requires k <= |s|
    ensures Filter(s[..k], p) <= Filter(s, p)
  {
    assert s == s[..k] + s[k..];
    FilterAppend(s[..k], s[k..], p);
    var a := Filter(s[..k], p);
    assert a + Filter(s[k..], p) == Filter(s, p);
    assert a == (a + Filter(s[k..], p))[..|a|];
  }

  /** Filtering keeps every element when all of them pass. */
  lemma {:induction false} FilterAll<T(!new)>(s: seq<T>, p: T -> bool)
    requires forall i :: 0 <= i < |s| ==> p(s[i])
    ensures Filter(s, p) == s
    decreases |s|
  {
    if s != [] {
      FilterAll(s[..|s| - 1], p);
      assert s == s[..|s| - 1] + [s[|s| - 1]];
    }
  }

  /** Filtering keeps nothing when no element passes. */
  lemma {:induction false} FilterNone<T(!new)>(s: seq<T>, p: T -> bool)
    requires forall i :: 0 <= i < |s| ==> !p(s[i])
    ensures Filter(s, p) == []
    decreases |s|
  {
    if s != [] {
      FilterNone(s[..|s| - 1], p);
    }
  }

  /** The `Some` values of `f` over `s`, in order: a `forEach` that pushes
      the results it accepts. */
  function FilterMap<A, B>(s: seq<A>, f: A -> Option<B>): (r: seq<B>)
    ensures |r| <= |s|
    ensures forall i :: 0 <= i < |r| ==> exists j :: 0 <= j < |s| && f(s[j]) == Some(r[i])
    ensures forall j :: 0 <= j < |s| && f(s[j]).Some? ==> f(s[j]).value in r
    decreases |s|
  {
    if s == [] then []
    else
      var init := s[..|s| - 1];
      var t := FilterMap(init, f);
      var r := match f(s[|s| - 1]) case Some(b) => t + [b] case None => t;
      assert forall j :: 0 <= j < |s| && f(s[j]).Some? ==> f(s[j]).value in r by {
        forall j | 0 <= j < |s| && f(s[j]).Some? ensures f(s[j]).value in r {
          if j < |init| { assert s[j] == init[j]; }
        }
      }
      assert forall i :: 0 <= i < |r| ==> exists j :: 0 <= j < |s| && f(s[j]) == Some(r[i]) by {
        forall i | 0 <= i < |r| ensures exists j :: 0 <= j < |s| && f(s[j]) == Some(r[i]) {
          if i < |t| {
            var j :| 0 <= j < |init| && f(init[j]) == Some(t[i]);
            assert s[j] == init[j];
          } else {
            assert f(s[|s| - 1]) == Some(r[i]);
          }
        }
      }
      r
  }

  /** `FilterMap` distributes over concatenation: results stay in input order. */
  lemma {:induction false} FilterMapAppend<A, B>(a: seq<A>, b: seq<A>, f: A -> Option<B>)
    ensures FilterMap(a + b, f) == FilterMap(a, f) + FilterMap(b, f)
    decreases |b|
  {
    if b == [] {
      assert a + b == a;
    } else {
      var b' := b[..|b| - 1];
      assert (a + b)[..|a + b| - 1] == a + b';
      assert (a + b)[|a + b| - 1] == b[|b| - 1];
      FilterMapAppend(a, b', f);
    }
  }

  /** A single element contributes its `Some` value, or nothing. */
  lemma FilterMapSingleton<A, B>(x: A, f: A -> Option<B>)
    ensures FilterMap([x], f) == match f(x) case Some(b) => [b] case None => []
  {
    assert [x][..0] == [];
  }

  /** `s.findIndex(p)`: the index of the first element satisfying `p`. */
  function FindFirst<T>(s: seq<T>, p: T -> bool): (r: Option<nat>)
    ensures r.Some? ==> r.value < |s| && p(s[r.value])
    ensures r.Some? ==> forall j :: 0 <= j < r.value ==> !p(s[j])
    ensures r.None? <==> forall j :: 0 <= j < |s| ==> !p(s[j])
    decreases |s|
  {
    if s == [] then None
    else if p(s[0]) then Some(0)
    else match FindFirst(s[1..], p)
      case Some(k) => Some(k + 1)
      case None => None
  }

  /** `s.slice(-n)` for `n >= 1`: the last `min(n, |s|)` elements. */
  function Last<T>(s: seq<T>, n: nat): (r: seq<T>)
    ensures |r| == if n < |s| then n else |s|
    ensures r == s[|s| - |r|..]
  {
    if n < |s| then s[|s| - n..] else s
  }

  /** The members of one group of the dictionary `groups[key(x)].push(x)`:
      the elements with key `k`, in input order. */
  function Members<T(!new), K(==,!new)>(s: seq<T>, key: T -> K, k: K): (r: seq<T>)
    ensures |r| <= |s|
    ensures forall x :: x in r <==> x in s && key(x) == k
    decreases |s|
  {
    if s == [] then []
    else
      var t := Members(s[..|s| - 1], key, k);
      assert s == s[..|s| - 1] + [s[|s| - 1]];
      if key(s[|s| - 1]) == k then t + [s[|s| - 1]] else t
  }

  /** A group holds exactly what filtering by its key keeps, so its members
      keep their input order and multiplicity. */
  lemma {:induction false} MembersAreFiltered<T(!new), K(!new)>(s: seq<T>, key: T -> K, k: K)
    ensures Members(s, key, k) == Filter(s, HasKey(key, k))
    decreases |s|
  {
    if s != [] {
      MembersAreFiltered(s[..|s| - 1], key, k);
    }
  }

  /** The distinct keys of `s` in order of first appearance: the key order of
      an insertion-ordered dictionary (`Object.values`, `new Set`). */
  function Keys<T(!new), K(==,!new)>(s: seq<T>, key: T -> K): (r: seq<K>)
    ensures forall i, j :: 0 <= i < j < |r| ==> r[i] != r[j]
    ensures forall k :: k in r <==> exists x :: x in s && key(x) == k
    decreases |s|
  {
    if s == [] then []
    else
      var t := Keys(s[..|s| - 1], key);
      var x := s[|s| - 1];
      assert s == s[..|s| - 1] + [x];
      if key(x) in t then t else t + [key(x)]
  }

  /** Appending `x` to the input extends the members of `x`'s key only. */
  lemma MembersSnoc<T(!new), K(!new)>(s: seq<T>, key: T -> K, x: T, k: K)
    ensures Members(s + [x], key, k) ==
            if key(x) == k then Members(s, key, k) + [x] else Members(s, key, k)
  {
    assert (s + [x])[..|s|] == s;
  }

  /** Appending `x` to the input adds `x`'s key at the end when it is new. */
  lemma KeysSnoc<T(!new), K(!new)>(s: seq<T>, key: T -> K, x: T)
    ensures Keys(s + [x], key) ==
            if key(x) in Keys(s, key) then Keys(s, key) else Keys(s, key) + [key(x)]
  {
    assert (s + [x])[..|s|] == s;
  }

  /** Total size of the groups named in `ks`. */
  function SumSizes<T(!new), K(==,!new)>(s: seq<T>, key: T -> K, ks: seq<K>): nat
  {
    if ks == [] then 0 else |Members(s, key, ks[0])| + SumSizes(s, key, ks[1..])
  }

  lemma {:induction false} SumSizesAppend<T(!new), K(!new)>(s: seq<T>, key: T -> K, ks: seq<K>, k: K)
    ensures SumSizes(s, key, ks + [k]) == SumSizes(s, key, ks) + |Members(s, key, k)|
    decreases |ks|
  {
    if ks != [] {
      assert (ks + [k])[1..] == ks[1..] + [k];
      SumSizesAppend(s, key, ks[1..], k);
    }
  }

  /** Appending `x` to the input adds one to the total of the key list `ks`
      when `x`'s key is listed once in `ks`, and nothing when it is absent. */
  lemma {:induction false} SumSizesGrow<T(!new), K(!new)>(s: seq<T>, key: T -> K, ks: seq<K>, x: T)
    requires forall i, j :: 0 <= i < j < |ks| ==> ks[i] != ks[j]
    ensures SumSizes(s + [x], key, ks) == SumSizes(s, key, ks) + (if key(x) in ks then 1 else 0)
    decreases |ks|
  {
    var s' := s + [x];
    assert s'[..|s'| - 1] == s;
    if ks != [] {
      SumSizesGrow(s, key, ks[1..], x);
      assert key(x) in ks <==> key(x) == ks[0] || key(x) in ks[1..];
      if key(x) == ks[0] {
        assert key(x) !in ks[1..] by {
          forall j | 0 <= j < |ks[1..]| ensures ks[1..][j] != key(x) { assert ks[j + 1] != ks[0]; }
        }
      }
    }
  }

  /** A key no element carries has no members. */
  lemma {:induction false} NoMembers<T(!new), K(!new)>(s: seq<T>, key: T -> K, k: K)
    requires forall i :: 0 <= i < |s| ==> key(s[i]) != k
    ensures Members(s, key, k) == []
    decreases |s|
  {
    if s != [] {
      NoMembers(s[..|s| - 1], key, k);
    }
  }

  /** Grouping is a partition: the group sizes add up to the input length. */
  lemma {:induction false} SumOverKeys<T(!new), K(!new)>(s: seq<T>, key: T -> K)
    ensures SumSizes(s, key, Keys(s, key)) == |s|
    decreases |s|
  {
    if s != [] {
      var p := s[..|s| - 1];
      var x := s[|s| - 1];
      assert s == p + [x];
      SumOverKeys(p, key);
      var t := Keys(p, key);
      SumSizesGrow(p, key, t, x);
      if key(x) !in t {
        SumSizesAppend(s, key, t, key(x));
        assert Members(s, key, key(x)) == Members(p, key, key(x)) + [x];
        NoMembers(p, key, key(x));
      }
    }
  }

  /** `key` ordering, as a comparator `(a, b) => key(a) - key(b)` sorts. */
  ghost predicate SortedBy<T>(s: seq<T>, key: T -> int) {
    forall i, j :: 0 <= i < j < |s| ==> key(s[i]) <= key(s[j])
  }

  /** Elements of a sequence whose multiset is that of `t` plus `x` share
      an upper bound of `t` and `x`. */
  lemma MultisetBound<T>(u: seq<T>, t: seq<T>, x: T, key: T -> int, bound: int)
    requires multiset(u) == multiset(t) + multiset{x}
    requires forall z :: z in t ==> key(z) <= bound
    requires key(x) <= bound
    ensures forall i :: 0 <= i < |u| ==> key(u[i]) <= bound
  {
    forall i | 0 <= i < |u| ensures key(u[i]) <= bound {
      assert u[i] in multiset(u);
      if u[i] != x {
        assert u[i] in multiset(t);
      }
    }
  }

  /** Inserts `x` after every element whose key is at most `key(x)`. */
  function Insert<T>(t: seq<T>, x: T, key: T -> int): (r: seq<T>)
    requires SortedBy(t, key)
    ensures |r| == |t| + 1
    ensures multiset(r) == multiset(t) + multiset{x}
    ensures SortedBy(r, key)
    decreases |t|
  {
    if t == [] then [x]
    else
      var y := t[|t| - 1];
      var t' := t[..|t| - 1];
      assert t == t' + [y];
      if key(y) <= key(x) then t + [x]
      else
        var u := Insert(t', x, key);
        MultisetBound(u, t', x, key, key(y));
        u + [y]
  }

  /** `s.sort((a, b) => key(a) - key(b))`: a stable sort (insertion sort)
      by ascending key; the result is ordered and a permutation of `s`. */
  function SortBy<T>(s: seq<T>, key: T -> int): (r: seq<T>)
    ensures |r| == |s|
    ensures multiset(r) == multiset(s)
    ensures SortedBy(r, key)
    decreases |s|
  {
    if s == [] then []
    else
      assert s == s[..|s| - 1] + [s[|s| - 1]];
      Insert(SortBy(s[..|s| - 1], key), s[|s| - 1], key)
  }

  /** A prefix of a permutation of `t` holds elements of `t` only, in order. */
  lemma PrefixOfSorted<T>(s: seq<T>, t: seq<T>, key: T -> int, k: nat)
    requires multiset(s) == multiset(t) && SortedBy(s, key) && k <= |s|
    ensures SortedBy(s[..k], key)
    ensures forall x :: x in s[..k] ==> x in t
  {
    forall x | x in s[..k] ensures x in t {
      assert x in multiset(s);
    }
  }

  /** The first element of a sorted sequence has the least key. */
  lemma SortedHeadIsMin<T>(s: seq<T>, key: T -> int)
    requires SortedBy(s, key) && s != []
    ensures forall x :: x in s ==> key(s[0]) <= key(x)
  {
    forall x | x in s ensures key(s[0]) <= key(x) {
      var i :| 0 <= i < |s| && s[i] == x;
      if i > 0 { assert key(s[0]) <= key(s[i]); }
    }
  }

  /** What `Insert` does to the elements of one key: `x` comes after the
      elements of `t` with the same key. */
  lemma {:induction false} InsertStable<T(!new)>(t: seq<T>, x: T, key: T -> int, k: int)
    requires SortedBy(t, key)
    ensures Filter(Insert(t, x, key), HasKey(key, k)) ==
            Filter(t, HasKey(key, k)) + (if key(x) == k then [x] else [])
    decreases |t|
  {
    var p := HasKey(key, k);
    FilterSingleton(x, p);
    if t != [] {
      var y := t[|t| - 1];
      var t' := t[..|t| - 1];
      assert t == t' + [y];
      if key(y) <= key(x) {
        assert Insert(t, x, key) == t + [x];
        FilterAppend(t, [x], p);
      } else {
        InsertStable(t', x, key, k);
        InsertPast(t', x, y, key, k);
      }
    }
  }

  /** The step of `InsertStable` where `x` moves before a larger last element
      `y`: the keys of `x` and `y` differ, so their order within a key is
      not at stake. */
  lemma InsertPast<T(!new)>(t': seq<T>, x: T, y: T, key: T -> int, k: int)
    requires SortedBy(t', key) && SortedBy(t' + [y], key) && key(x) < key(y)
    requires Filter(Insert(t', x, key), HasKey(key, k)) ==
             Filter(t', HasKey(key, k)) + (if key(x) == k then [x] else [])
    ensures Filter(Insert(t' + [y], x, key), HasKey(key, k)) ==
            Filter(t' + [y], HasKey(key, k)) + (if key(x) == k then [x] else [])
  {
    var p := HasKey(key, k);
    var t := t' + [y];
    assert t[..|t| - 1] == t' && t[|t| - 1] == y;
    var u := Insert(t', x, key);
    assert Insert(t, x, key) == u + [y];
    FilterSingleton(x, p);
    FilterSwap(u, t', x, y, p);
  }

  /** Two sequences of which one is empty commute after a common prefix. */
  lemma SwapEmpty<T>(a: seq<T>, b: seq<T>, c: seq<T>)
    requires b == [] || c == []
    ensures a + b + c == a + c + b
  {
    if b == [] {
      assert a + b == a;
      assert a + c + b == a + c;
    } else {
      assert a + c == a;
      assert a + b + c == a + b;
    }
  }

  /** Appending `y` after a sequence `u` that filters like `t'` then `x`,
      where `x` and `y` do not both pass. */
  lemma FilterSwap<T(!new)>(u: seq<T>, t': seq<T>, x: T, y: T, p: T -> bool)
    requires Filter(u, p) == Filter(t', p) + Filter([x], p)
    requires !(p(x) && p(y))
    ensures Filter(u + [y], p) == Filter(t' + [y], p) + Filter([x], p)
  {
    FilterSingleton(x, p);
    FilterSingleton(y, p);
    FilterAppend(u, [y], p);
    FilterAppend(t', [y], p);
    SwapEmpty(Filter(t', p), Filter([x], p), Filter([y], p));
  }

  /** `SortBy` is stable: the elements of each key keep their input order. */
  lemma {:induction false} SortByStable<T(!new)>(s: seq<T>, key: T -> int, k: int)
    ensures Filter(SortBy(s, key), HasKey(key, k)) == Filter(s, HasKey(key, k))
    decreases |s|
  {
    if s != [] {
      var init := s[..|s| - 1];
      assert s == init + [s[|s| - 1]];
      SortByStable(init, key, k);
      InsertStable(SortBy(init, key), s[|s| - 1], key, k);
    }
  }

  /** The head after an insertion: `x` only when it is strictly smaller. */
  lemma {:induction false} InsertHead<T>(t: seq<T>, x: T, key: T -> int)
    requires SortedBy(t, key) && t != []
    ensures Insert(t, x, key)[0] == if key(x) < key(t[0]) then x else t[0]
    decreases |t|
  {
    var y := t[|t| - 1];
    var t' := t[..|t| - 1];
    if key(y) > key(x) && t' != [] {
      InsertHead(t', x, key);
      assert t'[0] == t[0];
    }
  }

  /** The head of the sorted sequence is the first element with the least key. */
  lemma {:induction false} SortByHead<T>(s: seq<T>, key: T -> int)
    requires s != []
    ensures SortBy(s, key)[0] == s[FirstMinIndex(s, key)]
    decreases |s|
  {
    var init := s[..|s| - 1];
    if |s| > 1 {
      SortByHead(init, key);
      InsertHead(SortBy(init, key), s[|s| - 1], key);
    }
  }

  /** `s.reduce((m, c) => key(c) < key(m) ? c : m)`: the index of the first
      element with the least key. */
  function FirstMinIndex<T>(s: seq<T>, key: T -> int): (r: nat)
    requires s != []
    ensures r < |s|
    ensures forall j :: 0 <= j < |s| ==> key(s[r]) <= key(s[j])
    ensures forall j :: 0 <= j < r ==> key(s[r]) < key(s[j])
    decreases |s|
  {
    if |s| == 1 then 0
    else
      var b := FirstMinIndex(s[..|s| - 1], key);
      if key(s[|s| - 1]) < key(s[b]) then |s| - 1 else b
  }

  /** Position `i` of `s` holds the first minimum of the elements that pass
      `p`: it passes, no passing element has a smaller key, and every passing
      element before it has a larger one. */
  ghost predicate FirstMinAt<T(!new)>(s: seq<T>, p: T -> bool, key: T -> int, i: int) {
    0 <= i < |s| && p(s[i]) &&
    (forall j :: 0 <= j < |s| && p(s[j]) ==> key(s[i]) <= key(s[j])) &&
    (forall j :: 0 <= j < i && p(s[j]) ==> key(s[i]) < key(s[j]))
  }

  /** Position `i` of `s` is the first minimum in the sense of
      `FirstMinAt` and holds what `FirstMinIndex` selects from the filtered
      sequence. */
  ghost predicate FilteredMinAt<T(!new)>(s: seq<T>, p: T -> bool, key: T -> int, i: int) {
    FirstMinAt(s, p, key, i) && Filter(s, p) != [] &&
    s[i] == Filter(s, p)[FirstMinIndex(Filter(s, p), key)]
  }

  /** Appending an element that fails `p` changes neither side. */
  lemma FilteredMinSkip<T(!new)>(init: seq<T>, y: T, p: T -> bool, key: T -> int, i: int)
    requires FilteredMinAt(init, p, key, i) && !p(y)
    ensures FilteredMinAt(init + [y], p, key, i)
  {
    var s := init + [y];
    assert s[..|s| - 1] == init;
    assert Filter(s, p) == Filter(init, p);
    assert s[i] == init[i];
    forall j | 0 <= j < |s| && p(s[j]) ensures key(s[i]) <= key(s[j]) {
      assert s[j] == init[j];
    }
    forall j | 0 <= j < i && p(s[j]) ensures key(s[i]) < key(s[j]) {
      assert s[j] == init[j];
    }
  }

  /** The first minimum after appending `y`: `y` when it undercuts the old
      minimum, and otherwise the old minimum. */
  lemma FirstMinIndexSnoc<T>(t: seq<T>, y: T, key: T -> int)
    requires t != []
    ensures FirstMinIndex(t + [y], key) ==
      if key(y) < key(t[FirstMinIndex(t, key)]) then |t| else FirstMinIndex(t, key)
  {
    var u := t + [y];
    assert u[..|u| - 1] == t;
  }

  /** Appending a passing element that does not undercut the minimum. */
  lemma FilteredMinKeep<T(!new)>(init: seq<T>, y: T, p: T -> bool, key: T -> int, i: int)
    requires FilteredMinAt(init, p, key, i) && p(y) && key(init[i]) <= key(y)
    ensures FilteredMinAt(init + [y], p, key, i)
  {
    var s := init + [y];
    assert s[..|s| - 1] == init;
    var f' := Filter(init, p);
    var f := Filter(s, p);
    assert f == f' + [y];
    FirstMinIndexSnoc(f', y, key);
    assert f[FirstMinIndex(f, key)] == f'[FirstMinIndex(f', key)];
    assert s[i] == init[i];
    forall j | 0 <= j < |s| && p(s[j]) ensures key(s[i]) <= key(s[j]) {
      if j < |init| { assert s[j] == init[j]; }
    }
    forall j | 0 <= j < i && p(s[j]) ensures key(s[i]) < key(s[j]) {
      assert s[j] == init[j];
    }
  }

  /** An appended passing element that undercuts every passing element of
      `init` is the first minimum of the whole. */
  lemma LastFirstMin<T(!new)>(init: seq<T>, y: T, p: T -> bool, key: T -> int)
    requires p(y)
    requires forall j :: 0 <= j < |init| && p(init[j]) ==> key(y) < key(init[j])
    ensures FirstMinAt(init + [y], p, key, |init|)
  {
    var s := init + [y];
    forall j | 0 <= j < |init| && p(s[j]) ensures key(y) < key(s[j]) {
      assert s[j] == init[j];
    }
  }

  /** Appending a passing element that undercuts every passing element of
      `init` (vacuously so when none passes) makes it the minimum. */
  lemma FilteredMinLast<T(!new)>(init: seq<T>, y: T, p: T -> bool, key: T -> int)
    requires p(y)
    requires forall j :: 0 <= j < |init| && p(init[j]) ==> key(y) < key(init[j])
    ensures FilteredMinAt(init + [y], p, key, |init|)
  {
    LastFirstMin(init, y, p, key);
    FilterAppend(init, [y], p);
    FilterSingleton(y, p);
    var f' := Filter(init, p);
    var f := Filter(init + [y], p);
    assert f == f' + [y];
    if f' != [] {
      var x := f'[FirstMinIndex(f', key)];
      assert x in f';
      var j :| 0 <= j < |init| && init[j] == x;
      assert key(y) < key(x);
      FirstMinIndexSnoc(f', y, key);
    }
    assert f[FirstMinIndex(f, key)] == y;
  }

  /** The first minimum among the elements that pass `p`, located in `s`
      itself: it is at the earliest position whose key no passing element
      undercuts. */
  lemma {:induction false} FilterFirstMin<T(!new)>(s: seq<T>, p: T -> bool, key: T -> int)
    requires Filter(s, p) != []
    ensures exists i :: FilteredMinAt(s, p, key, i)
    decreases |s|
  {
    var init := s[..|s| - 1];
    var y := s[|s| - 1];
    assert s == init + [y];
    var f' := Filter(init, p);
    if f' == [] {
      assert p(y);
      forall j | 0 <= j < |init| ensures !p(init[j]) {
        assert init[j] in init;
      }
      FilteredMinLast(init, y, p, key);
    } else {
      FilterFirstMin(init, p, key);
      var i :| FilteredMinAt(init, p, key, i);
      if !p(y) {
        FilteredMinSkip(init, y, p, key, i);
      } else if key(y) < key(init[i]) {
        FilteredMinLast(init, y, p, key);
      } else {
        FilteredMinKeep(init, y, p, key, i);
      }
    }
  }
}
