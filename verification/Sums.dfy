/** Sums of an integer-valued function over a finite set, for supply arguments. */
module Sums {

  ghost function Sum<K(!new)>(s: set<K>, f: K -> int): int {
    if s == {} then 0 else var x :| x in s; f(x) + Sum(s - {x}, f)
  }

  lemma {:induction false} Split<K(!new)>(s: set<K>, f: K -> int, y: K)
    requires y in s
    ensures Sum(s, f) == f(y) + Sum(s - {y}, f)
    decreases s
  {
    var x :| x in s && Sum(s, f) == f(x) + Sum(s - {x}, f);
    if x != y {
      Split(s - {x}, f, y);
      Split(s - {y}, f, x);
      assert s - {x} - {y} == s - {y} - {x};
    }
  }

  lemma {:induction false} Same<K(!new)>(s: set<K>, f: K -> int, g: K -> int)
    requires forall x | x in s :: f(x) == g(x)
    ensures Sum(s, f) == Sum(s, g)
    decreases s
  {
    if s != {} {
      var x :| x in s;
      Split(s, f, x);
      Split(s, g, x);
      Same(s - {x}, f, g);
    }
  }

  lemma Change<K(!new)>(s: set<K>, f: K -> int, g: K -> int, y: K)
    requires y in s && forall x | x in s && x != y :: f(x) == g(x)
    ensures Sum(s, g) == Sum(s, f) - f(y) + g(y)
  {
    Split(s, f, y);
    Split(s, g, y);
    Same(s - {y}, f, g);
  }

  lemma {:induction false} Widen<K(!new)>(s: set<K>, t: set<K>, f: K -> int)
    requires s <= t && forall x | x in t && x !in s :: f(x) == 0
    ensures Sum(t, f) == Sum(s, f)
    decreases t
  {
    if x :| x in t && x !in s {
      Split(t, f, x);
      Widen(s, t - {x}, f);
    } else {
      assert s == t;
    }
  }

  lemma {:induction false} NonNegative<K(!new)>(s: set<K>, f: K -> int)
    requires forall x | x in s :: f(x) >= 0
    ensures Sum(s, f) >= 0
    decreases s
  {
    if s != {} {
      var x :| x in s;
      Split(s, f, x);
      NonNegative(s - {x}, f);
    }
  }

  lemma Pair<K(!new)>(s: set<K>, f: K -> int, y: K, z: K)
    requires y in s && z in s && y != z && forall x | x in s :: f(x) >= 0
    ensures f(y) + f(z) <= Sum(s, f)
  {
    Split(s, f, y);
    Split(s - {y}, f, z);
    NonNegative(s - {y} - {z}, f);
  }
}
