/** Stable sorting by an order, and when its result depends only on what was sorted. */
module Sorting {

  /** Total and transitive; two different values may still be level. */
  ghost predicate Preorder<T(!new)>(le: (T, T) -> bool) {
    && (forall x, y :: le(x, y) || le(y, x))
    && (forall x, y, z :: le(x, y) && le(y, z) ==> le(x, z))
  }

  function Insert<T>(le: (T, T) -> bool, x: T, s: seq<T>): seq<T> {
    if s == [] then [x]
    else if le(x, s[0]) then [x] + s
    else [s[0]] + Insert(le, x, s[1..])
  }

  function Sort<T>(le: (T, T) -> bool, s: seq<T>): seq<T> {
    if s == [] then [] else Insert(le, s[0], Sort(le, s[1..]))
  }

  ghost predicate Sorted<T>(le: (T, T) -> bool, s: seq<T>) {
    forall i, j | 0 <= i < j < |s| :: le(s[i], s[j])
  }

  lemma {:induction false} InsertKeeps<T>(le: (T, T) -> bool, x: T, s: seq<T>)
    ensures multiset(Insert(le, x, s)) == multiset{x} + multiset(s)
  {
    if s == [] || le(x, s[0]) {
    } else {
      InsertKeeps(le, x, s[1..]);
      assert s == [s[0]] + s[1..];
    }
  }

  lemma {:induction false} InsertSorted<T(!new)>(le: (T, T) -> bool, x: T, s: seq<T>)
    requires Preorder(le) && Sorted(le, s)
    ensures Sorted(le, Insert(le, x, s))
  {
    if s == [] || le(x, s[0]) {
    } else {
      InsertSorted(le, x, s[1..]);
      InsertKeeps(le, x, s[1..]);
      var rest := Insert(le, x, s[1..]);
      forall k | 0 <= k < |rest|
        ensures le(s[0], rest[k])
      {
        assert rest[k] in multiset(rest);
        assert rest[k] == x || rest[k] in s[1..];
      }
    }
  }

  lemma {:induction false} SortKeeps<T>(le: (T, T) -> bool, s: seq<T>)
    ensures multiset(Sort(le, s)) == multiset(s)
    ensures |Sort(le, s)| == |s|
  {
    if s == [] {
    } else {
      SortKeeps(le, s[1..]);
      InsertKeeps(le, s[0], Sort(le, s[1..]));
      assert s == [s[0]] + s[1..];
    }
    assert |multiset(Sort(le, s))| == |multiset(s)|;
  }

  lemma {:induction false} SortSorts<T(!new)>(le: (T, T) -> bool, s: seq<T>)
    requires Preorder(le)
    ensures Sorted(le, Sort(le, s))
  {
    if s == [] {
    } else {
      SortSorts(le, s[1..]);
      InsertSorted(le, s[0], Sort(le, s[1..]));
    }
  }

  /** Members that are level under the order are the same member. */
  ghost predicate NoTies<T(!new)>(le: (T, T) -> bool, m: multiset<T>) {
    forall x, y | x in m && y in m && le(x, y) && le(y, x) :: x == y
  }

  lemma {:induction false} HeadsAgree<T(!new)>(le: (T, T) -> bool, s: seq<T>, t: seq<T>)
    requires Preorder(le) && Sorted(le, s) && Sorted(le, t) && s != [] && t != []
    requires multiset(s) == multiset(t) && NoTies(le, multiset(s))
    ensures s[0] == t[0]
  {
    assert s[0] in multiset(t) && t[0] in multiset(s);
    assert le(s[0], t[0]) by {
      assert t[0] in s;
    }
    assert le(t[0], s[0]) by {
      assert s[0] in t;
    }
  }

  lemma {:induction false} TailsAgree<T>(s: seq<T>, t: seq<T>)
    requires multiset(s) == multiset(t) && s != [] && t != [] && s[0] == t[0]
    ensures multiset(s[1..]) == multiset(t[1..])
  {
    assert s == [s[0]] + s[1..] && t == [t[0]] + t[1..];
    assert multiset(s[1..]) == multiset(s) - multiset{s[0]};
    assert multiset(t[1..]) == multiset(t) - multiset{t[0]};
  }

  lemma {:induction false} TailHasNoTies<T(!new)>(le: (T, T) -> bool, s: seq<T>)
    requires NoTies(le, multiset(s)) && s != []
    ensures NoTies(le, multiset(s[1..]))
  {
    assert s == [s[0]] + s[1..];
    assert multiset(s) == multiset{s[0]} + multiset(s[1..]);
  }

  /** Without ties there is only one sorted arrangement. */
  lemma {:induction false} SortedUnique<T(!new)>(le: (T, T) -> bool, s: seq<T>, t: seq<T>)
    requires Preorder(le) && Sorted(le, s) && Sorted(le, t)
    requires multiset(s) == multiset(t) && NoTies(le, multiset(s))
    ensures s == t
  {
    assert |multiset(s)| == |s| && |multiset(t)| == |t|;
    if s == [] {
    } else {
      HeadsAgree(le, s, t);
      TailsAgree(s, t);
      TailHasNoTies(le, s);
      hide NoTies;
      SortedUnique(le, s[1..], t[1..]);
      assert s == [s[0]] + s[1..] && t == [t[0]] + t[1..];
    }
  }

  /** Without ties, sorting forgets the order it started from. */
  lemma {:induction false} SortForgetsOrder<T(!new)>(le: (T, T) -> bool, s: seq<T>, t: seq<T>)
    requires Preorder(le) && multiset(s) == multiset(t) && NoTies(le, multiset(s))
    ensures Sort(le, s) == Sort(le, t)
  {
    SortSorts(le, s);
    SortSorts(le, t);
    SortKeeps(le, s);
    SortKeeps(le, t);
    SortedUnique(le, Sort(le, s), Sort(le, t));
  }

  lemma {:induction false} IndexedNoTies<T(!new)>(le: (T, T) -> bool, s: seq<T>)
    requires forall i, j | 0 <= i < j < |s| :: !(le(s[i], s[j]) && le(s[j], s[i]))
    ensures NoTies(le, multiset(s))
  {
    forall u, v | u in multiset(s) && v in multiset(s) && le(u, v) && le(v, u)
      ensures u == v
    {
      var i :| 0 <= i < |s| && s[i] == u;
      var j :| 0 <= j < |s| && s[j] == v;
    }
  }

  /** Exchanging a member for one that is level with it exchanges it in the sorted arrangement. */
  lemma {:induction false} SortReplaced<T(!new)>(le: (T, T) -> bool, s: seq<T>, k: nat, x: T) returns (p: nat)
    requires Preorder(le) && k < |s| && le(s[k], x) && le(x, s[k])
    requires forall i, j | 0 <= i < j < |s| :: !(le(s[i], s[j]) && le(s[j], s[i]))
    ensures p < |Sort(le, s)| && Sort(le, s)[p] == s[k]
    ensures Sort(le, s[k := x]) == Sort(le, s)[p := x]
  {
    hide Sort;
    var sorted, changed := Sort(le, s), s[k := x];
    SortKeeps(le, s);
    SortSorts(le, s);
    SortKeeps(le, changed);
    SortSorts(le, changed);
    assert s[k] in multiset(sorted);
    p :| 0 <= p < |sorted| && sorted[p] == s[k];
    forall i, j | 0 <= i < j < |s|
      ensures !(le(changed[i], changed[j]) && le(changed[j], changed[i]))
    {
      assert !(le(s[i], s[j]) && le(s[j], s[i]));
    }
    IndexedNoTies(le, changed);
    SortedUnique(le, Sort(le, changed), sorted[p := x]);
  }

  // ---------- Mapping and collecting ----------

  function Map<T, U>(f: T -> U, s: seq<T>): (r: seq<U>)
    ensures |r| == |s| && forall i | 0 <= i < |s| :: r[i] == f(s[i])
  {
    if s == [] then [] else [f(s[0])] + Map(f, s[1..])
  }

  function Collect<T, U>(f: T -> seq<U>, s: seq<T>): seq<U> {
    if s == [] then [] else f(s[0]) + Collect(f, s[1..])
  }

  lemma NothingCollected<T, U>(f: T -> seq<U>)
    ensures Collect(f, []) == []
  {
  }

  lemma {:induction false} CollectAppend<T, U>(f: T -> seq<U>, a: seq<T>, b: seq<T>)
    ensures Collect(f, a + b) == Collect(f, a) + Collect(f, b)
  {
    if a == [] {
      assert a + b == b;
    } else {
      assert (a + b)[1..] == a[1..] + b;
      CollectAppend(f, a[1..], b);
    }
  }

  lemma {:induction false} CollectLast<T, U>(f: T -> seq<U>, s: seq<T>, x: T)
    ensures Collect(f, s + [x]) == Collect(f, s) + f(x)
  {
    CollectAppend(f, s, [x]);
    assert Collect(f, [x]) == f(x) + Collect(f, [x][1..]);
    assert f(x) + [] == f(x);
  }

  lemma {:induction false} CollectEmptyIff<T, U>(f: T -> seq<U>, s: seq<T>)
    ensures Collect(f, s) == [] <==> forall x | x in s :: f(x) == []
  {
    if s == [] {
    } else {
      CollectEmptyIff(f, s[1..]);
      assert s == [s[0]] + s[1..];
    }
  }

  /** Taking one member out of the middle. */
  lemma {:induction false} CollectWithout<T, U>(f: T -> seq<U>, s: seq<T>, k: nat)
    requires k < |s|
    ensures multiset(Collect(f, s)) == multiset(f(s[k])) + multiset(Collect(f, s[..k] + s[k + 1..]))
  {
    assert s == s[..k] + ([s[k]] + s[k + 1..]);
    CollectAppend(f, s[..k], [s[k]] + s[k + 1..]);
    CollectAppend(f, s[..k], s[k + 1..]);
    assert ([s[k]] + s[k + 1..])[1..] == s[k + 1..];
  }

  /** What is collected, counted with multiplicity, does not depend on the order. */
  lemma {:induction false} CollectForgetsOrder<T, U>(f: T -> seq<U>, s: seq<T>, t: seq<T>)
    requires multiset(s) == multiset(t)
    ensures multiset(Collect(f, s)) == multiset(Collect(f, t))
  {
    assert |multiset(s)| == |s| && |multiset(t)| == |t|;
    if s == [] {
    } else {
      assert s == [s[0]] + s[1..];
      assert s[0] in multiset(t);
      var k :| 0 <= k < |t| && t[k] == s[0];
      var rest := t[..k] + t[k + 1..];
      assert t == t[..k] + [t[k]] + t[k + 1..];
      assert multiset(rest) == multiset(t) - multiset{t[k]};
      assert multiset(s[1..]) == multiset(s) - multiset{s[0]};
      CollectForgetsOrder(f, s[1..], rest);
      CollectWithout(f, t, k);
    }
  }

  lemma {:induction false} MapIsCollect<T, U>(f: T -> U, s: seq<T>)
    ensures Map(f, s) == Collect((x: T) => [f(x)], s)
  {
    if s == [] {
    } else {
      MapIsCollect(f, s[1..]);
    }
  }

  lemma {:induction false} MapForgetsOrder<T, U>(f: T -> U, s: seq<T>, t: seq<T>)
    requires multiset(s) == multiset(t)
    ensures multiset(Map(f, s)) == multiset(Map(f, t))
  {
    MapIsCollect(f, s);
    MapIsCollect(f, t);
    CollectForgetsOrder((x: T) => [f(x)], s, t);
  }

  lemma {:induction false} MapSorted<T, U>(f: T -> U, tle: (T, T) -> bool, ule: (U, U) -> bool, s: seq<T>)
    requires Sorted(tle, s) && forall x, y | x in s && y in s && tle(x, y) :: ule(f(x), f(y))
    ensures Sorted(ule, Map(f, s))
  {
  }

  lemma {:induction false} MapNoTies<T(!new), U(!new)>(f: T -> U, tle: (T, T) -> bool, ule: (U, U) -> bool, s: seq<T>)
    requires forall x, y :: ule(f(x), f(y)) ==> tle(x, y)
    requires forall i, j | 0 <= i < j < |s| :: !(tle(s[i], s[j]) && tle(s[j], s[i]))
    ensures NoTies(ule, multiset(Map(f, s)))
  {
    var m := Map(f, s);
    forall i, j | 0 <= i < j < |m|
      ensures !(ule(m[i], m[j]) && ule(m[j], m[i]))
    {
      assert m[i] == f(s[i]) && m[j] == f(s[j]);
    }
    IndexedNoTies(ule, m);
  }

  /**
   Two lists whose images are the same multiset have the same images in sorted order, when the order
   only looks at what the images keep and has no ties.
   */
  lemma {:induction false} MappedSortUnique<T(!new), U(!new)>(
    f: T -> U, g: T -> U, tle: (T, T) -> bool, ule: (U, U) -> bool, a: seq<T>, b: seq<T>)
    requires Preorder(tle) && Preorder(ule)
    requires forall x, y :: tle(x, y) <==> ule(f(x), f(y))
    requires forall x, y :: tle(x, y) <==> ule(g(x), g(y))
    requires multiset(Map(f, a)) == multiset(Map(g, b))
    requires forall i, j | 0 <= i < j < |a| :: !(tle(a[i], a[j]) && tle(a[j], a[i]))
    ensures Map(f, Sort(tle, a)) == Map(g, Sort(tle, b))
  {
    SortSorts(tle, a);
    SortSorts(tle, b);
    SortKeeps(tle, a);
    SortKeeps(tle, b);
    MapForgetsOrder(f, Sort(tle, a), a);
    MapForgetsOrder(g, Sort(tle, b), b);
    MapSorted(f, tle, ule, Sort(tle, a));
    MapSorted(g, tle, ule, Sort(tle, b));
    MapNoTies(f, tle, ule, a);
    SortedUnique(ule, Map(f, Sort(tle, a)), Map(g, Sort(tle, b)));
  }

  // ---------- Lexicographic order ----------

  function Lex<T(==)>(le: (T, T) -> bool, s: seq<T>, t: seq<T>): bool {
    if s == [] then true
    else if t == [] then false
    else if s[0] == t[0] then Lex(le, s[1..], t[1..])
    else le(s[0], t[0])
  }

  /** The lists agree up to a place where the first ends, or has the smaller of two different members. */
  ghost predicate AgreeUpTo<T>(le: (T, T) -> bool, s: seq<T>, t: seq<T>, k: nat) {
    && k <= |s| && k <= |t| && s[..k] == t[..k]
    && (k == |s| || (k < |t| && s[k] != t[k] && le(s[k], t[k])))
  }

  lemma {:induction false} LexIff<T>(le: (T, T) -> bool, s: seq<T>, t: seq<T>)
    ensures Lex(le, s, t) <==> exists k: nat :: AgreeUpTo(le, s, t, k)
  {
    if s == [] {
      assert AgreeUpTo(le, s, t, 0);
    } else if t == [] {
    } else if s[0] == t[0] {
      LexIff(le, s[1..], t[1..]);
      assert s == [s[0]] + s[1..] && t == [t[0]] + t[1..];
      if k: nat :| AgreeUpTo(le, s[1..], t[1..], k) {
        assert s[..k + 1] == [s[0]] + s[1..][..k] && t[..k + 1] == [t[0]] + t[1..][..k];
        assert AgreeUpTo(le, s, t, k + 1);
      }
      if k: nat :| AgreeUpTo(le, s, t, k) {
        assert k > 0;
        assert s[1..][..k - 1] == s[..k][1..] && t[1..][..k - 1] == t[..k][1..];
        assert AgreeUpTo(le, s[1..], t[1..], k - 1);
      }
    } else {
      if le(s[0], t[0]) {
        assert AgreeUpTo(le, s, t, 0);
      }
      if k: nat :| AgreeUpTo(le, s, t, k) {
        assert k > 0 ==> s[..k][0] == t[..k][0];
      }
    }
  }

  ghost predicate Order<T(!new)>(le: (T, T) -> bool) {
    Preorder(le) && forall x, y :: le(x, y) && le(y, x) ==> x == y
  }

  lemma {:induction false} LexTotal<T(!new)>(le: (T, T) -> bool, s: seq<T>, t: seq<T>)
    requires Order(le)
    ensures Lex(le, s, t) || Lex(le, t, s)
    ensures Lex(le, s, t) && Lex(le, t, s) ==> s == t
  {
    if s != [] && t != [] && s[0] == t[0] {
      LexTotal(le, s[1..], t[1..]);
      assert s == [s[0]] + s[1..] && t == [t[0]] + t[1..];
    }
  }

  lemma {:induction false} LexTransitive<T(!new)>(le: (T, T) -> bool, s: seq<T>, t: seq<T>, u: seq<T>)
    requires Order(le) && Lex(le, s, t) && Lex(le, t, u)
    ensures Lex(le, s, u)
  {
    if s != [] && s[0] == t[0] && t[0] == u[0] {
      LexTransitive(le, s[1..], t[1..], u[1..]);
    }
  }
}
