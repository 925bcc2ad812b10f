/** Sums over finite maps and sizes of finite sets, as the termination measures need them. */
module FiniteSums {

  ghost function SumOver(ks: set<nat>, m: map<nat, nat>): nat
    requires ks <= m.Keys
    decreases ks
  {
    if ks == {} then 0
    else var k :| k in ks; m[k] + SumOver(ks - {k}, m)
  }

  ghost function Sum(m: map<nat, nat>): nat { SumOver(m.Keys, m) }

  lemma {:induction false} SumSplit(ks: set<nat>, m: map<nat, nat>, k: nat)
    requires k in ks && ks <= m.Keys
    ensures SumOver(ks, m) == m[k] + SumOver(ks - {k}, m)
    decreases ks
  {
    var j :| j in ks && SumOver(ks, m) == m[j] + SumOver(ks - {j}, m);
    if j != k {
      SumSplit(ks - {j}, m, k);
      SumSplit(ks - {k}, m, j);
      assert ks - {j} - {k} == ks - {k} - {j};
    }
  }

  lemma {:induction false} SumSame(ks: set<nat>, m: map<nat, nat>, m': map<nat, nat>)
    requires ks <= m.Keys && ks <= m'.Keys && forall k :: k in ks ==> m'[k] == m[k]
    ensures SumOver(ks, m') == SumOver(ks, m)
    decreases ks
  {
    if k :| k in ks {
      SumSplit(ks, m, k);
      SumSplit(ks, m', k);
      SumSame(ks - {k}, m, m');
    }
  }

  /** Changing one summand changes the sum by as much. */
  lemma SumUpdate(m: map<nat, nat>, k: nat, v: nat)
    requires k in m
    ensures Sum(m[k := v]) + m[k] == Sum(m) + v
  {
    var m' := m[k := v];
    assert m'.Keys == m.Keys;
    SumSplit(m.Keys, m, k);
    SumSplit(m.Keys, m', k);
    SumSame(m.Keys - {k}, m, m');
  }

  ghost function Weighted(n: nat, w: nat): nat {
    if n == 0 then 0 else w + Weighted(n - 1, w)
  }

  lemma {:induction false} WeightedMonotone(x: nat, y: nat, w: nat)
    requires x <= y
    ensures Weighted(x, w) <= Weighted(y, w)
  {
    if x < y { WeightedMonotone(x, y - 1, w); }
  }

  /** A drop of a weighted count, or of one summand, lowers the total of both. */
  lemma TotalDrops(c: nat, c': nat, w: nat, m: map<nat, nat>, k: nat, v: nat, d: int)
    requires k in m && -1 <= d <= 1 && c' + d <= c
    requires v + (if d == -1 then w else 0) < m[k] + (if d == 1 then w else 0)
    ensures Weighted(c', w) + Sum(m[k := v]) < Weighted(c, w) + Sum(m)
  {
    SumUpdate(m, k, v);
    if d == 1 { WeightedMonotone(c' + 1, c, w); }
    else if d == 0 { WeightedMonotone(c', c, w); }
    else { WeightedMonotone(c', c + 1, w); }
  }

  lemma {:induction false} SubsetSize<T>(x: set<T>, y: set<T>)
    requires x <= y
    ensures |x| <= |y|
    decreases x
  {
    if x != {} {
      var e :| e in x;
      SubsetSize(x - {e}, y - {e});
    }
  }

  /** The number of elements of a that are not in x. */
  ghost function Outside(a: set<nat>, x: set<nat>): nat
    decreases a
  {
    if a == {} then 0
    else var e :| e in a; (if e in x then 0 else 1) + Outside(a - {e}, x)
  }

  lemma {:induction false} OutsideSplit(a: set<nat>, x: set<nat>, e: nat)
    requires e in a
    ensures Outside(a, x) == (if e in x then 0 else 1) + Outside(a - {e}, x)
    decreases a
  {
    var d :| d in a && Outside(a, x) == (if d in x then 0 else 1) + Outside(a - {d}, x);
    if d != e {
      OutsideSplit(a - {d}, x, e);
      OutsideSplit(a - {e}, x, d);
      assert a - {d} - {e} == a - {e} - {d};
    }
  }

  lemma {:induction false} OutsideGrows(a: set<nat>, x: set<nat>, x': set<nat>)
    requires x <= x'
    ensures Outside(a, x') <= Outside(a, x)
    ensures forall e :: e in a && e in x' && e !in x ==> Outside(a, x') < Outside(a, x)
    decreases a
  {
    if a != {} {
      var d :| d in a;
      OutsideSplit(a, x, d);
      OutsideSplit(a, x', d);
      OutsideGrows(a - {d}, x, x');
    }
  }

  lemma {:induction false} OutsideZero(a: set<nat>, x: set<nat>)
    ensures Outside(a, x) == 0 <==> a <= x
    decreases a
  {
    if a != {} {
      var d :| d in a;
      OutsideSplit(a, x, d);
      OutsideZero(a - {d}, x);
      assert a <= x <==> d in x && a - {d} <= x;
    }
  }

  lemma {:induction false} OutsideFull(a: set<nat>, x: set<nat>)
    requires forall e :: e in a ==> e !in x
    ensures Outside(a, x) == |a|
    decreases a
  {
    if a != {} {
      var d :| d in a;
      OutsideSplit(a, x, d);
      OutsideFull(a - {d}, x);
    }
  }

  lemma {:induction false} OutsideIsSize(a: set<nat>, x: set<nat>)
    ensures Outside(a, x) == |a - x|
    decreases a
  {
    if a != {} {
      var d :| d in a;
      OutsideSplit(a, x, d);
      OutsideIsSize(a - {d}, x);
      if d in x { assert a - x == a - {d} - x; } else { assert a - x == (a - {d} - x) + {d}; }
    }
  }

  lemma OutsideAdd(a: set<nat>, x: set<nat>, e: nat)
    ensures Outside(a, x) == Outside(a, x + {e}) + (if e in a && e !in x then 1 else 0)
  {
    if e in a {
      OutsideSplit(a, x, e);
      OutsideSplit(a, x + {e}, e);
      OutsideSame(a - {e}, x, x + {e});
    } else {
      OutsideSame(a, x, x + {e});
    }
  }

  lemma {:induction false} OutsideSame(a: set<nat>, x: set<nat>, x': set<nat>)
    requires forall e :: e in a ==> (e in x <==> e in x')
    ensures Outside(a, x) == Outside(a, x')
    decreases a
  {
    if a != {} {
      var d :| d in a;
      OutsideSplit(a, x, d);
      OutsideSplit(a, x', d);
      OutsideSame(a - {d}, x, x');
    }
  }

  ghost function Elems<T>(q: seq<T>): set<T> { set g | g in q }

  lemma {:induction false} Distinct<T>(q: seq<T>)
    requires forall i, j :: 0 <= i < j < |q| ==> q[i] != q[j]
    ensures |Elems(q)| == |q|
  {
    if q != [] {
      var r := q[..|q| - 1];
      Distinct(r);
      assert Elems(q) == Elems(r) + {q[|q| - 1]};
    }
  }

  ghost predicate DropsAt(ms: seq<nat>, i: int) { 0 < i < |ms| ==> ms[i] < ms[i - 1] }

  lemma {:induction false} Descent(ms: seq<nat>, n: nat)
    requires n < |ms| && forall i {:trigger DropsAt(ms, i)} :: 0 < i < |ms| ==> DropsAt(ms, i)
    ensures n + ms[n] <= ms[0]
  {
    if n > 0 {
      assert DropsAt(ms, n);
      Descent(ms, n - 1);
    }
  }

  lemma {:induction false} UpperBound(x: set<nat>) returns (n: nat)
    ensures forall e :: e in x ==> e < n
    decreases x
  {
    if x == {} {
      n := 0;
    } else {
      var d :| d in x;
      n := UpperBound(x - {d});
      if n <= d { n := d + 1; }
      assert forall e :: e in x ==> e == d || e in x - {d};
    }
  }
}
