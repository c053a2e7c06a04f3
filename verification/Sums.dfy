/** Sums over finite sets. */
module Sums {

  ghost function Sum<T(!new)>(objects: set<T>, f: T -> int): int {
    if objects == {} then 0
    else
      var e :| e in objects;
      f(e) + Sum(objects - {e}, f)
  }

  lemma {:induction false} SumTake<T(!new)>(objects: set<T>, f: T -> int, e: T)
    requires e in objects
    ensures Sum(objects, f) == f(e) + Sum(objects - {e}, f)
  {
    var x :| x in objects && Sum(objects, f) == f(x) + Sum(objects - {x}, f);
    if x != e {
      SumTake(objects - {x}, f, e);
      SumTake(objects - {e}, f, x);
      assert objects - {x} - {e} == objects - {e} - {x};
    }
  }

  lemma {:induction false} SumSame<T(!new)>(objects: set<T>, f: T -> int, g: T -> int)
    requires forall e <- objects :: f(e) == g(e)
    ensures Sum(objects, f) == Sum(objects, g)
  {
    if e :| e in objects {
      SumTake(objects, f, e);
      SumTake(objects, g, e);
      SumSame(objects - {e}, f, g);
    }
  }

  lemma {:induction false} SumNarrow<T(!new)>(objects: set<T>, part: set<T>, f: T -> int)
    requires part <= objects && forall e <- objects - part :: f(e) == 0
    ensures Sum(objects, f) == Sum(part, f)
  {
    if objects != part {
      var e :| e in objects && e !in part;
      SumTake(objects, f, e);
      SumNarrow(objects - {e}, part, f);
    }
  }

  lemma {:induction false} SumSplit<T(!new)>(objects: set<T>, f: T -> int, g: T -> int, h: T -> int)
    requires forall e <- objects :: h(e) == f(e) + g(e)
    ensures Sum(objects, h) == Sum(objects, f) + Sum(objects, g)
  {
    if e :| e in objects {
      SumTake(objects, f, e);
      SumTake(objects, g, e);
      SumTake(objects, h, e);
      SumSplit(objects - {e}, f, g, h);
    }
  }

  /** Two tallies that differ only within a pair differ by the pair's share. */
  lemma SumPair<T(!new)>(objects: set<T>, f: T -> int, g: T -> int, d: T, t: T)
    requires d in objects && t in objects && d != t
    requires forall e <- objects - {d, t} :: f(e) == g(e)
    ensures Sum(objects, f) + g(d) + g(t) == Sum(objects, g) + f(d) + f(t)
  {
    SumTake(objects, f, d);
    SumTake(objects - {d}, f, t);
    SumTake(objects, g, d);
    SumTake(objects - {d}, g, t);
    SumSame(objects - {d} - {t}, f, g);
  }
}
