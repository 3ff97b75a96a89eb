/**
 * Python's ordering of strings (code point by code point, a proper prefix
 * first) and `sorted` over a set of file names.
 */
module Order {

  /** `a <= b` for Python strings. */
  predicate Below(a: string, b: string)
    decreases |a|
  {
    a == [] || (b != [] && (a[0] < b[0] || (a[0] == b[0] && Below(a[1..], b[1..]))))
  }

  lemma {:induction false} BelowTotal(a: string, b: string)
    ensures Below(a, b) || Below(b, a)
    decreases |a|
  {
    if a != [] && b != [] && a[0] == b[0] {
      BelowTotal(a[1..], b[1..]);
    }
  }

  lemma {:induction false} BelowAntisymmetric(a: string, b: string)
    requires Below(a, b) && Below(b, a)
    ensures a == b
    decreases |a|
  {
    if a != [] {
      BelowAntisymmetric(a[1..], b[1..]);
      assert a == [a[0]] + a[1..] && b == [b[0]] + b[1..];
    }
  }

  lemma {:induction false} BelowTransitive(a: string, b: string, c: string)
    requires Below(a, b) && Below(b, c)
    ensures Below(a, c)
    decreases |a|
  {
    if a != [] && a[0] == b[0] && b[0] == c[0] {
      BelowTransitive(a[1..], b[1..], c[1..]);
    }
  }

  /** `m` comes first among `names`. */
  predicate IsLeast(m: string, names: set<string>) {
    m in names && forall o | o in names :: Below(m, o)
  }

  lemma {:induction false} LeastExists(names: set<string>)
    requires names != {}
    ensures exists m :: IsLeast(m, names)
    decreases names
  {
    var x :| x in names;
    var rest := names - {x};
    if rest == {} {
      assert names == {x};
      BelowTotal(x, x);
      assert IsLeast(x, names);
    } else {
      LeastExists(rest);
      var m :| IsLeast(m, rest);
      BelowTotal(x, m);
      if Below(x, m) {
        forall o | o in names ensures Below(x, o) {
          if o != x {
            BelowTransitive(x, m, o);
          } else {
            BelowTotal(x, x);
          }
        }
        assert IsLeast(x, names);
      } else {
        assert IsLeast(m, names);
      }
    }
  }

  lemma LeastUnique()
    ensures forall m, n, names: set<string> :: IsLeast(m, names) && IsLeast(n, names) ==> m == n
  {
    forall m, n, names: set<string> | IsLeast(m, names) && IsLeast(n, names) ensures m == n {
      BelowAntisymmetric(m, n);
    }
  }

  /** `sorted(names)`: every name once, in ascending order. */
  function SortedNames(names: set<string>): (r: seq<string>)
    ensures forall x :: x in r <==> x in names
    ensures forall i, j | 0 <= i < j < |r| :: Below(r[i], r[j]) && r[i] != r[j]
    decreases names
  {
    if names == {} then []
    else
      LeastExists(names);
      LeastUnique();
      var m :| IsLeast(m, names);
      [m] + SortedNames(names - {m})
  }
}
