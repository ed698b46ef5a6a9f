/** Relational helpers: SQL's WHERE over a table kept as a sequence of rows, and
    SQL's SUM over a finite set of primary keys. */
module Tables {

  datatype Option<+T> = None | Some(value: T) {
    function GetOr(default: T): T {
      if Some? then value else default
    }
  }

  /** The rows of `s` that satisfy `p`, in table order. */
  function Where<T>(s: seq<T>, p: T -> bool): (r: seq<T>)
    ensures |r| <= |s|
    ensures forall x :: x in r ==> x in s && p(x)
    ensures forall x :: x in s && p(x) ==> x in r
  {
    if s == [] then [] else
      var rest := Where(s[..|s| - 1], p);
      if p(s[|s| - 1]) then rest + [s[|s| - 1]] else rest
  }

  lemma WhereAppend<T>(s: seq<T>, x: T, p: T -> bool)
    ensures Where(s + [x], p) == if p(x) then Where(s, p) + [x] else Where(s, p)
  {
    assert (s + [x])[..|s|] == s;
  }

  lemma {:induction false} WhereAgree<T>(s: seq<T>, p: T -> bool, q: T -> bool)
    requires forall x :: x in s ==> p(x) == q(x)
    ensures Where(s, p) == Where(s, q)
  {
    if s == [] {
    } else {
      WhereAgree(s[..|s| - 1], p, q);
    }
  }

  lemma {:induction false} WhereWhere<T>(s: seq<T>, p: T -> bool, q: T -> bool)
    ensures Where(Where(s, p), q) == Where(s, x => p(x) && q(x))
  {
    if s == [] {
    } else {
      var front, last := s[..|s| - 1], s[|s| - 1];
      WhereWhere(front, p, q);
      if p(last) {
        WhereAppend(Where(front, p), last, q);
      }
    }
  }

  lemma FilterTwice<T>(s: seq<T>, p: T -> bool, q: T -> bool, r: T -> bool)
    requires forall x :: x in s ==> (r(x) <==> p(x) && q(x))
    ensures Where(Where(s, p), q) == Where(s, r)
  {
    WhereWhere(s, p, q);
    WhereAgree(s, x => p(x) && q(x), r);
  }

  lemma {:induction false} WhereAll<T>(s: seq<T>, p: T -> bool)
    requires forall x :: x in s ==> p(x)
    ensures Where(s, p) == s
  {
    if s == [] {
    } else {
      WhereAll(s[..|s| - 1], p);
    }
  }

  lemma {:induction false} WhereNone<T>(s: seq<T>, p: T -> bool)
    requires forall x :: x in s ==> !p(x)
    ensures Where(s, p) == []
  {
    if s == [] {
    } else {
      WhereNone(s[..|s| - 1], p);
    }
  }

  /** Two disjoint conditions split the count of their union. */
  lemma {:induction false} WhereSplit<T>(s: seq<T>, p: T -> bool, q: T -> bool, u: T -> bool)
    requires forall x :: x in s ==> (u(x) <==> p(x) || q(x))
    requires forall x :: x in s ==> !(p(x) && q(x))
    ensures |Where(s, u)| == |Where(s, p)| + |Where(s, q)|
  {
    if s == [] {
    } else {
      WhereSplit(s[..|s| - 1], p, q, u);
    }
  }

  lemma {:induction false} WhereSubset<T>(s: seq<T>, p: T -> bool, q: T -> bool)
    requires forall x :: x in s && p(x) ==> q(x)
    ensures |Where(s, p)| <= |Where(s, q)|
  {
    if s == [] {
    } else {
      WhereSubset(s[..|s| - 1], p, q);
    }
  }

  lemma MergeNothing<K, V>(m: map<K, V>, n: map<K, V>)
    requires forall k :: k in n ==> k in m && n[k] == m[k]
    ensures m + n == m
  {
  }

  /** SUM(f(k)) over the rows whose primary keys are `ks`. */
  ghost function SumOver<K>(ks: set<K>, f: K -> int): int {
    if ks == {} then 0 else
      var k :| k in ks;
      f(k) + SumOver(ks - {k}, f)
  }

  /** The sum does not depend on the order in which rows are visited. */
  lemma {:induction false} SumRemove<K>(ks: set<K>, f: K -> int, k: K)
    requires k in ks
    ensures SumOver(ks, f) == f(k) + SumOver(ks - {k}, f)
    decreases ks
  {
    var j :| j in ks && SumOver(ks, f) == f(j) + SumOver(ks - {j}, f);
    if j != k {
      SumRemove(ks - {j}, f, k);
      SumRemove(ks - {k}, f, j);
      assert ks - {j} - {k} == ks - {k} - {j};
    }
  }

  lemma {:induction false} SumAgree<K>(ks: set<K>, f: K -> int, g: K -> int)
    requires forall k :: k in ks ==> f(k) == g(k)
    ensures SumOver(ks, f) == SumOver(ks, g)
    decreases ks
  {
    if ks == {} {
    } else {
      var k :| k in ks;
      SumRemove(ks, f, k);
      SumRemove(ks, g, k);
      SumAgree(ks - {k}, f, g);
    }
  }

  /** SUM over a REAL column. */
  ghost function SumOverReal<K>(ks: set<K>, f: K -> real): real {
    if ks == {} then 0.0 else
      var k :| k in ks;
      f(k) + SumOverReal(ks - {k}, f)
  }

  lemma SumOverOne<K>(k: K, f: K -> real)
    ensures SumOverReal({k}, f) == f(k)
  {
    var i :| i in {k} && SumOverReal({k}, f) == f(i) + SumOverReal({k} - {i}, f);
    assert {k} - {i} == {};
  }

  /** A REAL column that always holds an integral value sums to the integer sum. */
  lemma {:induction false} SumIntegral<K>(ks: set<K>, f: K -> real, g: K -> int)
    requires forall k :: k in ks ==> f(k) == g(k) as real
    ensures SumOverReal(ks, f) == SumOver(ks, g) as real
    decreases ks
  {
    if ks == {} {
    } else {
      var k :| k in ks && SumOverReal(ks, f) == f(k) + SumOverReal(ks - {k}, f);
      SumRemove(ks, g, k);
      SumIntegral(ks - {k}, f, g);
    }
  }

  /** SUM(w) over the rows of `s`. */
  function Weigh<T>(s: seq<T>, w: T -> int): int {
    if s == [] then 0 else Weigh(s[..|s| - 1], w) + w(s[|s| - 1])
  }

  lemma {:induction false} WeighCounts<T>(s: seq<T>, p: T -> bool, w: T -> int)
    requires forall x :: x in s ==> w(x) == if p(x) then 1 else 0
    ensures Weigh(s, w) == |Where(s, p)|
  {
    if s == [] {
    } else {
      WeighCounts(s[..|s| - 1], p, w);
    }
  }

  lemma {:induction false} WeighWhere<T>(s: seq<T>, p: T -> bool, w: T -> int, v: T -> int)
    requires forall x :: x in s ==> v(x) == if p(x) then w(x) else 0
    ensures Weigh(Where(s, p), w) == Weigh(s, v)
  {
    if s == [] {
    } else {
      var front, last := s[..|s| - 1], s[|s| - 1];
      WeighWhere(front, p, w, v);
      if p(last) {
        assert (Where(front, p) + [last])[..|Where(front, p)|] == Where(front, p);
      }
    }
  }

  lemma {:induction false} WeighSplit<T>(s: seq<T>, p: T -> int, q: T -> int, u: T -> int)
    requires forall x :: x in s ==> u(x) == p(x) + q(x)
    ensures Weigh(s, u) == Weigh(s, p) + Weigh(s, q)
  {
    if s == [] {
    } else {
      WeighSplit(s[..|s| - 1], p, q, u);
    }
  }

  lemma {:induction false} WeighZero<T>(s: seq<T>, w: T -> int)
    requires forall x :: x in s ==> w(x) == 0
    ensures Weigh(s, w) == 0
  {
    if s == [] {
    } else {
      WeighZero(s[..|s| - 1], w);
    }
  }

  /** Adding up key by key: when `f(k)` is the weight of the rows of `s` that map to `k`, the values
      for the keys in `ks` add up to the weight `u` of the rows whose key is in `ks`. */
  lemma {:induction false} SumOfFibres<T, K>(s: seq<T>, key: T -> K, ks: set<K>, w: T -> int,
                                             fibre: K -> T -> int, f: K -> int, u: T -> int)
    requires forall k, x :: k in ks && x in s ==> fibre(k)(x) == if key(x) == k then w(x) else 0
    requires forall k :: k in ks ==> f(k) == Weigh(s, fibre(k))
    requires forall x :: x in s ==> u(x) == if key(x) in ks then w(x) else 0
    ensures SumOver(ks, f) == Weigh(s, u)
    decreases ks
  {
    if ks == {} {
      WeighZero(s, u);
    } else {
      var k :| k in ks;
      SumRemove(ks, f, k);
      var rest := ks - {k};
      var v := x => if key(x) in rest then w(x) else 0;
      SumOfFibres(s, key, rest, w, fibre, f, v);
      WeighSplit(s, fibre(k), v, u);
    }
  }

  lemma {:induction false} WeighAgree<T>(s: seq<T>, p: T -> int, q: T -> int)
    requires forall x :: x in s ==> p(x) == q(x)
    ensures Weigh(s, p) == Weigh(s, q)
  {
    if s == [] {
    } else {
      WeighAgree(s[..|s| - 1], p, q);
    }
  }

  ghost function AnyOf<T>(s: set<T>): (x: T)
    requires s != {}
    ensures x in s
  {
    var x :| x in s; x
  }

  /** MIN and MAX of the non-NULL values of a column. */
  ghost function Least(s: set<int>): (r: Option<int>)
    ensures r == None <==> s == {}
    ensures r.Some? ==> r.value in s && forall x :: x in s ==> r.value <= x
  {
    if s == {} then None else
      var x := AnyOf(s);
      var rest := s - {x};
      assert forall z :: z in s ==> z == x || z in rest;
      match Least(rest)
      case None => Some(x)
      case Some(y) => Some(if x <= y then x else y)
  }

  ghost function Greatest(s: set<int>): (r: Option<int>)
    ensures r == None <==> s == {}
    ensures r.Some? ==> r.value in s && forall x :: x in s ==> x <= r.value
  {
    if s == {} then None else
      var x := AnyOf(s);
      var rest := s - {x};
      assert forall z :: z in s ==> z == x || z in rest;
      match Greatest(rest)
      case None => Some(x)
      case Some(y) => Some(if y <= x then x else y)
  }
}
