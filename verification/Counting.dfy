/** Finite sets of modules and how many they hold. */
module Counting {
  import opened Arithmetic

  datatype Cell = Cell(x: int, y: int)

  ghost function Interval(a: int, b: int): (r: set<int>)
    ensures forall x :: x in r <==> a <= x < b
    ensures |r| == if a <= b then b - a else 0
    decreases b - a
  {
    if a >= b then {} else Interval(a, b - 1) + {b - 1}
  }

  ghost function Product(xs: set<int>, ys: set<int>): set<Cell> {
    set x, y | x in xs && y in ys :: Cell(x, y)
  }

  lemma Pick<T>(s: set<T>) returns (x: T)
    requires s != {}
    ensures x in s
  {
    x :| x in s;
  }

  lemma {:induction false} ColumnSize(x: int, ys: set<int>)
    ensures |Product({x}, ys)| == |ys|
  {
    if |ys| > 0 {
      var y := Pick(ys);
      ColumnSize(x, ys - {y});
      assert Product({x}, ys) == Product({x}, ys - {y}) + {Cell(x, y)};
    } else {
      assert Product({x}, ys) == {};
    }
  }

  lemma DisjointUnion<T>(a: set<T>, b: set<T>, c: set<T>)
    requires forall x :: x in c <==> x in a || x in b
    requires forall x :: !(x in a && x in b)
    ensures |c| == |a| + |b|
  {
    assert c == a + b && a !! b;
  }

  lemma {:induction false} ProductSize(xs: set<int>, ys: set<int>)
    ensures |Product(xs, ys)| == |xs| * |ys|
  {
    if |xs| > 0 {
      var x := Pick(xs);
      ProductSize(xs - {x}, ys);
      ColumnSize(x, ys);
      DisjointUnion(Product(xs - {x}, ys), Product({x}, ys), Product(xs, ys));
      OneMore(|xs| - 1, |ys|);
    } else {
      assert Product(xs, ys) == {};
    }
  }

  lemma SubsetSize<T>(a: set<T>, b: set<T>)
    requires a <= b
    ensures |a| <= |b|
  {
    assert b == a + (b - a);
  }
}
