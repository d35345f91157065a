/** Sequence operations shared by the model: filtering (a SQL `WHERE` clause, a
    JavaScript `Array.filter`), ordered chains (an `ORDER BY` result, a table whose
    ids ascend) and a sort that stands for `ORDER BY ... DESC`. */
module Seqs {
  import opened Wrappers

  /** The elements of `s` that satisfy `p`, in their order in `s`. */
  function Filter<T(!new)>(s: seq<T>, p: T -> bool): (r: seq<T>)
    ensures |r| <= |s|
    ensures forall x :: x in r <==> x in s && p(x)
  {
    if s == [] then [] else (if p(s[0]) then [s[0]] else []) + Filter(s[1..], p)
  }

  lemma {:induction false} FilterAppend<T(!new)>(a: seq<T>, b: seq<T>, p: T -> bool)
    ensures Filter(a + b, p) == Filter(a, p) + Filter(b, p)
  {
    if a == [] {
      assert a + b == b;
    } else {
      assert (a + b)[1..] == a[1..] + b;
      FilterAppend(a[1..], b, p);
    }
  }

  /** The filter keeps every element exactly when every element passes. */
  lemma {:induction false} FilterFull<T(!new)>(s: seq<T>, p: T -> bool)
    ensures |Filter(s, p)| == |s| <==> forall x :: x in s ==> p(x)
  {
    if s != [] {
      FilterFull(s[1..], p);
      assert forall x :: x in s <==> x == s[0] || x in s[1..];
    }
  }

  /** The filter keeps nothing exactly when no element passes. */
  lemma FilterEmpty<T(!new)>(s: seq<T>, p: T -> bool)
    ensures |Filter(s, p)| == 0 <==> forall x :: x in s ==> !p(x)
  {
    var r := Filter(s, p);
    if r != [] {
      assert r[0] in r;
    }
  }

  /** Filtering one more element keeps it exactly when it passes. */
  lemma FilterSnoc<T(!new)>(s: seq<T>, x: T, p: T -> bool)
    ensures Filter(s + [x], p) == Filter(s, p) + (if p(x) then [x] else [])
  {
    FilterAppend(s, [x], p);
    assert [x][1..] == [];
  }

  /** Filtering with a predicate every element satisfies keeps everything. */
  lemma {:induction false} FilterAll<T(!new)>(s: seq<T>, p: T -> bool)
    requires forall x :: x in s ==> p(x)
    ensures Filter(s, p) == s
  {
    if s != [] {
      FilterAll(s[1..], p);
    }
  }

  /** Filtering with a predicate no element satisfies keeps nothing. */
  lemma FilterNone<T(!new)>(s: seq<T>, p: T -> bool)
    requires forall x :: x in s ==> !p(x)
    ensures Filter(s, p) == []
  {
  }

  /** Filtering by `p` after a weaker `q` is filtering by `p` alone. */
  lemma {:induction false} FilterNarrow<T(!new)>(s: seq<T>, p: T -> bool, q: T -> bool)
    requires forall x :: x in s && p(x) ==> q(x)
    ensures Filter(Filter(s, q), p) == Filter(s, p)
  {
    if s != [] {
      FilterNarrow(s[1..], p, q);
      if q(s[0]) {
        var f := Filter(s, q);
        assert f == [s[0]] + Filter(s[1..], q);
        assert f[1..] == Filter(s[1..], q);
        assert Filter(f, p) == (if p(s[0]) then [s[0]] else []) + Filter(f[1..], p);
      } else {
        assert Filter(s, q) == Filter(s[1..], q);
      }
    }
  }

  /** When every element satisfies exactly one of `p` and `q`, the two filters
      split the sequence: their sizes add up, as do their multisets. */
  lemma {:induction false} FilterSplit<T(!new)>(s: seq<T>, p: T -> bool, q: T -> bool)
    requires forall x :: x in s ==> (p(x) <==> !q(x))
    ensures |Filter(s, p)| + |Filter(s, q)| == |s|
    ensures multiset(Filter(s, p)) + multiset(Filter(s, q)) == multiset(s)
  {
    if s != [] {
      FilterSplit(s[1..], p, q);
      assert s == [s[0]] + s[1..];
    }
  }

  /** Three-way version of FilterSplit. */
  lemma {:induction false} FilterSplit3<T(!new)>(s: seq<T>, p: T -> bool, q: T -> bool, r: T -> bool)
    requires forall x :: x in s ==> (p(x) && !q(x) && !r(x)) || (!p(x) && q(x) && !r(x)) || (!p(x) && !q(x) && r(x))
    ensures |Filter(s, p)| + |Filter(s, q)| + |Filter(s, r)| == |s|
    ensures multiset(Filter(s, p)) + multiset(Filter(s, q)) + multiset(Filter(s, r)) == multiset(s)
  {
    if s != [] {
      FilterSplit3(s[1..], p, q, r);
      assert s == [s[0]] + s[1..];
    }
  }

  /** Every pair of elements, in the order they appear, is related by `R`: a table
      whose ids ascend, a listing sorted by some key. */
  ghost predicate Chain<T(!new)>(s: seq<T>, R: (T, T) -> bool) {
    forall i, j :: 0 <= i < j < |s| ==> R(s[i], s[j])
  }

  /** Filtering keeps the relative order of what it keeps. */
  lemma {:induction false} FilterChain<T(!new)>(s: seq<T>, p: T -> bool, R: (T, T) -> bool)
    requires Chain(s, R)
    ensures Chain(Filter(s, p), R)
  {
    if s != [] {
      ChainTail(s, R);
      FilterChain(s[1..], p, R);
      if p(s[0]) {
        ChainCons(s[0], Filter(s[1..], p), R);
        assert Filter(s, p) == [s[0]] + Filter(s[1..], p);
      } else {
        assert Filter(s, p) == Filter(s[1..], p);
      }
    }
  }

  /** The tail of a chain is a chain, and its head is related to all of it. */
  lemma ChainTail<T(!new)>(s: seq<T>, R: (T, T) -> bool)
    requires Chain(s, R) && s != []
    ensures Chain(s[1..], R)
    ensures forall y :: y in s[1..] ==> R(s[0], y)
  {
    forall i, j | 0 <= i < j < |s[1..]| ensures R(s[1..][i], s[1..][j]) {
      assert s[1..][i] == s[i + 1] && s[1..][j] == s[j + 1];
    }
    forall y | y in s[1..] ensures R(s[0], y) {
      var k :| 0 <= k < |s[1..]| && s[1..][k] == y;
      assert s[k + 1] == y;
    }
  }

  /** Prepending an element related to everything present keeps a chain. */
  lemma ChainCons<T(!new)>(x: T, s: seq<T>, R: (T, T) -> bool)
    requires Chain(s, R)
    requires forall y :: y in s ==> R(x, y)
    ensures Chain([x] + s, R)
  {
    forall i, j | 0 <= i < j < |[x] + s| ensures R(([x] + s)[i], ([x] + s)[j]) {
      if i == 0 {
        assert ([x] + s)[j] in s;
      } else {
        assert ([x] + s)[i] == s[i - 1] && ([x] + s)[j] == s[j - 1];
      }
    }
  }

  /** Appending an element related to everything already present keeps a chain. */
  lemma ChainAppend<T(!new)>(s: seq<T>, x: T, R: (T, T) -> bool)
    requires Chain(s, R)
    requires forall y :: y in s ==> R(y, x)
    ensures Chain(s + [x], R)
  {
    forall i, j | 0 <= i < j < |s + [x]| ensures R((s + [x])[i], (s + [x])[j]) {
      if j == |s| {
        assert (s + [x])[i] in s;
      } else {
        assert (s + [x])[i] == s[i] && (s + [x])[j] == s[j];
      }
    }
  }

  /** `r` is `s` with some elements left out, without reordering the others. */
  ghost predicate IsSubsequence<T(!new)>(r: seq<T>, s: seq<T>)
    decreases |s|
  {
    if r == [] then true
    else if s == [] then false
    else if r[0] == s[0] then IsSubsequence(r[1..], s[1..])
    else IsSubsequence(r, s[1..])
  }

  lemma {:induction false} FilterIsSubsequence<T(!new)>(s: seq<T>, p: T -> bool)
    ensures IsSubsequence(Filter(s, p), s)
  {
    if s != [] {
      FilterIsSubsequence(s[1..], p);
      if p(s[0]) {
        assert Filter(s, p) == [s[0]] + Filter(s[1..], p);
        assert Filter(s, p)[1..] == Filter(s[1..], p);
      } else {
        assert Filter(s, p) == Filter(s[1..], p);
        if Filter(s, p) != [] {
          assert Filter(s, p)[0] in Filter(s, p);
        }
      }
    }
  }

  /** `before` is a total preorder: any two elements can be ordered, consistently. */
  ghost predicate TotalPreorder<T(!new)>(before: (T, T) -> bool) {
    && (forall a, b :: before(a, b) || before(b, a))
    && (forall a, b, c :: before(a, b) && before(b, c) ==> before(a, c))
  }

  /** Insert `x` into the sorted `s` ahead of the first element it may precede. */
  function Insert<T(!new)>(x: T, s: seq<T>, before: (T, T) -> bool): (r: seq<T>)
    requires TotalPreorder(before)
    requires Chain(s, before)
    ensures multiset(r) == multiset(s) + multiset{x}
    ensures Chain(r, before)
  {
    if s == [] then [x]
    else if before(x, s[0]) then
      InsertFront(x, s, before);
      [x] + s
    else
      ChainTail(s, before);
      var rest := Insert(x, s[1..], before);
      InsertBehind(x, s, rest, before);
      assert s == [s[0]] + s[1..];
      [s[0]] + rest
  }

  /** An element that may precede the head of a sorted sequence goes first. */
  lemma InsertFront<T(!new)>(x: T, s: seq<T>, before: (T, T) -> bool)
    requires TotalPreorder(before) && Chain(s, before) && s != [] && before(x, s[0])
    ensures Chain([x] + s, before)
  {
    forall y | y in s ensures before(x, y) {
      var k :| 0 <= k < |s| && s[k] == y;
      if k > 0 { assert before(s[0], s[k]); }
    }
    ChainCons(x, s, before);
  }

  /** When `x` goes behind the head, the head precedes the rest with `x` in it. */
  lemma InsertBehind<T(!new)>(x: T, s: seq<T>, rest: seq<T>, before: (T, T) -> bool)
    requires TotalPreorder(before) && s != [] && !before(x, s[0])
    requires Chain(rest, before) && multiset(rest) == multiset(s[1..]) + multiset{x}
    requires forall y :: y in s[1..] ==> before(s[0], y)
    ensures Chain([s[0]] + rest, before)
  {
    forall y | y in rest ensures before(s[0], y) {
      assert y in multiset(rest);
      if y != x {
        assert y in multiset(s[1..]);
      }
    }
    ChainCons(s[0], rest, before);
  }

  /** `s` sorted so that each element may precede every later one under `before`:
      a stand-in for the order a SQL `ORDER BY` returns. Rows that `before`
      ranks equal come out in some order; only sortedness and the permutation are
      promised, as SQL promises no more. */
  function Sort<T(!new)>(s: seq<T>, before: (T, T) -> bool): (r: seq<T>)
    requires TotalPreorder(before)
    ensures multiset(r) == multiset(s)
    ensures |r| == |s|
    ensures Chain(r, before)
  {
    if s == [] then []
    else
      assert s == [s[0]] + s[1..];
      var r := Insert(s[0], Sort(s[1..], before), before);
      assert |r| == |multiset(r)|;
      r
  }

  /** In a sorted sequence, an element that strictly precedes every other element
      comes first. */
  lemma SortedFirst<T(!new)>(s: seq<T>, x: T, before: (T, T) -> bool)
    requires TotalPreorder(before)
    requires x in s
    requires forall y :: y in s && y != x ==> !before(y, x)
    ensures Sort(s, before)[0] == x
  {
    var r := Sort(s, before);
    assert x in multiset(r);
    assert r[0] in multiset(s);
    assert r[0] == x || before(r[0], x) by {
      var k :| 0 <= k < |r| && r[k] == x;
      assert k == 0 || before(r[0], r[k]);
    }
  }

  // ---------------------------------------------------------------------------
  // Tables keyed by an integer id

  /** The key of each element, in order: a table's `id` column. */
  function Keys<T(!new)>(s: seq<T>, key: T -> int): (r: seq<int>)
    ensures |r| == |s|
    ensures forall i :: 0 <= i < |s| ==> r[i] == key(s[i])
  {
    seq(|s|, i requires 0 <= i < |s| => key(s[i]))
  }

  lemma KeysMember<T(!new)>(s: seq<T>, key: T -> int, k: int)
    ensures k in Keys(s, key) <==> exists x :: x in s && key(x) == k
  {
    if k in Keys(s, key) {
      var i :| 0 <= i < |s| && Keys(s, key)[i] == k;
      assert s[i] in s;
    }
  }

  lemma KeysAppend<T(!new)>(s: seq<T>, x: T, key: T -> int)
    ensures Keys(s + [x], key) == Keys(s, key) + [key(x)]
  {
  }

  ghost predicate Ascending(k: seq<int>) {
    forall i, j :: 0 <= i < j < |k| ==> k[i] < k[j]
  }

  function KeyLess<T>(key: T -> int): (T, T) -> bool {
    (a, b) => key(a) < key(b)
  }

  lemma AscendingChain<T(!new)>(s: seq<T>, key: T -> int)
    ensures Ascending(Keys(s, key)) <==> Chain(s, KeyLess(key))
  {
  }

  /** Removing rows keeps the remaining keys ascending. */
  lemma FilterAscending<T(!new)>(s: seq<T>, p: T -> bool, key: T -> int)
    requires Ascending(Keys(s, key))
    ensures Ascending(Keys(Filter(s, p), key))
  {
    AscendingChain(s, key);
    FilterChain(s, p, KeyLess(key));
    AscendingChain(Filter(s, p), key);
  }

  /** Keys are unique in an ascending table: a key names at most one row. */
  lemma AscendingUnique<T(!new)>(s: seq<T>, key: T -> int, i: int, j: int)
    requires Ascending(Keys(s, key)) && 0 <= i < |s| && 0 <= j < |s| && key(s[i]) == key(s[j])
    ensures i == j
  {
    assert Keys(s, key)[i] == Keys(s, key)[j];
  }

  /** The rows whose key is not `id`. */
  function KeyIsNot<T>(key: T -> int, id: int): T -> bool {
    x => key(x) != id
  }

  /** `UPDATE ... WHERE id = $n`: every row with key `id` replaced by `f` of it. */
  function UpdateWhere<T(!new)>(s: seq<T>, key: T -> int, id: int, f: T -> T): (r: seq<T>)
    ensures |r| == |s|
    ensures forall i :: 0 <= i < |s| ==> r[i] == if key(s[i]) == id then f(s[i]) else s[i]
  {
    seq(|s|, i requires 0 <= i < |s| => if key(s[i]) == id then f(s[i]) else s[i])
  }

  /** An update that keeps the key leaves the table's keys as they were. */
  lemma UpdateWhereKeys<T(!new)>(s: seq<T>, key: T -> int, id: int, f: T -> T)
    requires forall x :: key(f(x)) == key(x)
    ensures Keys(UpdateWhere(s, key, id, f), key) == Keys(s, key)
  {
  }

  /** An update of a key no row has changes nothing. */
  lemma UpdateWhereAbsent<T(!new)>(s: seq<T>, key: T -> int, id: int, f: T -> T)
    requires id !in Keys(s, key)
    ensures UpdateWhere(s, key, id, f) == s
  {
    forall i | 0 <= i < |s| ensures UpdateWhere(s, key, id, f)[i] == s[i] {
      assert Keys(s, key)[i] == key(s[i]);
    }
  }

  /** Removing the rows with key `id` from a table that has one leaves one row fewer. */
  lemma {:induction false} RemoveOne<T(!new)>(s: seq<T>, key: T -> int, id: int)
    requires Ascending(Keys(s, key)) && id in Keys(s, key)
    ensures |Filter(s, KeyIsNot(key, id))| == |s| - 1
  {
    var i :| 0 <= i < |s| && Keys(s, key)[i] == id;
    var p := KeyIsNot(key, id);
    OthersBefore(s, key, i);
    OthersAfter(s, key, i);
    assert s == s[..i] + [s[i]] + s[i + 1..];
    FilterDropOne(s[..i], s[i], s[i + 1..], p);
  }

  /** Filtering out one element that fails `p`, between runs that pass it. */
  lemma FilterDropOne<T(!new)>(a: seq<T>, x: T, b: seq<T>, p: T -> bool)
    requires (forall y :: y in a ==> p(y)) && (forall y :: y in b ==> p(y)) && !p(x)
    ensures |Filter(a + [x] + b, p)| == |a| + |b|
  {
    FilterAppend(a + [x], b, p);
    FilterAppend(a, [x], p);
    FilterAll(a, p);
    FilterAll(b, p);
    assert Filter([x], p) == [];
  }

  /** In an ascending table, the rows before row `i` have other keys. */
  lemma OthersBefore<T(!new)>(s: seq<T>, key: T -> int, i: int)
    requires Ascending(Keys(s, key)) && 0 <= i < |s|
    ensures forall x :: x in s[..i] ==> KeyIsNot(key, key(s[i]))(x)
  {
    forall x | x in s[..i] ensures key(x) != key(s[i]) {
      var k :| 0 <= k < i && s[..i][k] == x;
      assert Keys(s, key)[k] < Keys(s, key)[i];
    }
  }

  /** In an ascending table, the rows after row `i` have other keys. */
  lemma OthersAfter<T(!new)>(s: seq<T>, key: T -> int, i: int)
    requires Ascending(Keys(s, key)) && 0 <= i < |s|
    ensures forall x :: x in s[i + 1..] ==> KeyIsNot(key, key(s[i]))(x)
  {
    forall x | x in s[i + 1..] ensures key(x) != key(s[i]) {
      var k :| 0 <= k < |s| - i - 1 && s[i + 1..][k] == x;
      assert Keys(s, key)[i] < Keys(s, key)[i + 1 + k];
    }
  }

  lemma AscendingAppend(k: seq<int>, x: int)
    requires Ascending(k)
    requires forall i :: 0 <= i < |k| ==> k[i] < x
    ensures Ascending(k + [x])
  {
  }

  /** The negation of a row predicate. */
  function Not<T>(p: T -> bool): T -> bool {
    x => !p(x)
  }

  /** The first element with key `id`, if any: a lookup by primary key, or
      JavaScript's `Array.find` on an id. */
  function Find<T(!new)>(s: seq<T>, key: T -> int, id: int): (r: Option<T>)
    ensures r.Some? <==> id in Keys(s, key)
    ensures r.Some? ==> r.value in s && key(r.value) == id
  {
    if s == [] then None
    else if key(s[0]) == id then Some(s[0])
    else
      assert Keys(s, key) == [key(s[0])] + Keys(s[1..], key);
      Find(s[1..], key, id)
  }

  /** Find returns the first match: no earlier element has that key. */
  lemma {:induction false} FindFirst<T(!new)>(s: seq<T>, key: T -> int, id: int)
    requires id in Keys(s, key)
    ensures exists i :: 0 <= i < |s| && s[i] == Find(s, key, id).value && forall j :: 0 <= j < i ==> key(s[j]) != id
  {
    if key(s[0]) == id {
      assert s[0] == Find(s, key, id).value;
    } else {
      assert Keys(s, key) == [key(s[0])] + Keys(s[1..], key);
      FindFirst(s[1..], key, id);
      var i :| 0 <= i < |s[1..]| && s[1..][i] == Find(s[1..], key, id).value
               && forall j :: 0 <= j < i ==> key(s[1..][j]) != id;
      assert s[i + 1] == Find(s, key, id).value;
      forall j | 0 <= j < i + 1 ensures key(s[j]) != id {
        if j > 0 { assert s[j] == s[1..][j - 1]; }
      }
    }
  }

  /** In an ascending table the row with a given key is the one Find returns. */
  lemma FindUnique<T(!new)>(s: seq<T>, key: T -> int, x: T)
    requires Ascending(Keys(s, key)) && x in s
    ensures Find(s, key, key(x)) == Some(x)
  {
    var i :| 0 <= i < |s| && s[i] == x;
    assert Keys(s, key)[i] == key(x);
    var y := Find(s, key, key(x)).value;
    var j :| 0 <= j < |s| && s[j] == y;
    AscendingUnique(s, key, i, j);
  }

  lemma KeyOf<T(!new)>(s: seq<T>, key: T -> int, x: T)
    requires x in s
    ensures key(x) in Keys(s, key)
  {
    var i :| 0 <= i < |s| && s[i] == x;
    assert Keys(s, key)[i] == key(x);
  }

  /** Filtering keeps only keys the table had. */
  lemma FilterKeys<T(!new)>(s: seq<T>, p: T -> bool, key: T -> int)
    ensures forall k :: k in Keys(Filter(s, p), key) ==> k in Keys(s, key)
  {
    forall k | k in Keys(Filter(s, p), key) ensures k in Keys(s, key) {
      KeysMember(Filter(s, p), key, k);
      var x :| x in Filter(s, p) && key(x) == k;
      KeyOf(s, key, x);
    }
  }
}
