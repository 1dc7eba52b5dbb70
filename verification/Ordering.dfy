/** The rows of a query in the order it asks for. */
module Ordering {
  import opened Common

  /** `below` decides between any two different rows, consistently. */
  ghost predicate Orders<T(!new)>(below: (T, T) -> bool, rows: set<T>) {
    && (forall a, b | a in rows && b in rows :: a == b || below(a, b) || below(b, a))
    && (forall a, b | a in rows && b in rows && below(a, b) :: a != b && !below(b, a))
    && (forall a, b, c | a in rows && b in rows && c in rows && below(a, b) && below(b, c) :: below(a, c))
  }

  ghost predicate IsLeast<T(!new)>(x: T, rows: set<T>, below: (T, T) -> bool) {
    x in rows && forall y | y in rows && y != x :: below(x, y)
  }

  lemma {:induction false} HasLeast<T(!new)>(rows: set<T>, below: (T, T) -> bool)
    requires rows != {} && Orders(below, rows)
    ensures exists x :: IsLeast(x, rows, below)
    decreases rows
  {
    var y :| y in rows;
    if rows == {y} {
      assert IsLeast(y, rows, below);
    } else {
      assert rows - {y} != {};
      HasLeast(rows - {y}, below);
      var x :| IsLeast(x, rows - {y}, below);
      assert IsLeast(if below(y, x) then y else x, rows, below);
    }
  }

  /** The rows, lowest first. */
  ghost function Listing<T(!new)>(rows: set<T>, below: (T, T) -> bool): (items: seq<T>)
    requires Orders(below, rows)
    decreases rows
  {
    if rows == {} then []
    else
      HasLeast(rows, below);
      var x :| IsLeast(x, rows, below);
      [x] + Listing(rows - {x}, below)
  }

  lemma OneLeast<T(!new)>(rows: set<T>, below: (T, T) -> bool, x: T, y: T)
    requires Orders(below, rows) && IsLeast(x, rows, below) && IsLeast(y, rows, below)
    ensures x == y
  {
  }

  lemma LeastComesFirst<T(!new)>(rows: set<T>, below: (T, T) -> bool, x: T)
    requires Orders(below, rows) && IsLeast(x, rows, below)
    ensures Listing(rows, below) == [x] + Listing(rows - {x}, below)
  {
    var y :| IsLeast(y, rows, below) && Listing(rows, below) == [y] + Listing(rows - {y}, below);
    OneLeast(rows, below, x, y);
  }

  /** A listing is sorted and holds every row once. */
  lemma {:induction false} ListingIsSorted<T(!new)>(rows: set<T>, below: (T, T) -> bool)
    requires Orders(below, rows)
    ensures |Listing(rows, below)| == |rows|
    ensures forall x :: x in Listing(rows, below) <==> x in rows
    ensures forall i, j | 0 <= i < j < |rows| :: below(Listing(rows, below)[i], Listing(rows, below)[j])
    decreases rows
  {
    if rows != {} {
      HasLeast(rows, below);
      var x :| IsLeast(x, rows, below);
      LeastComesFirst(rows, below, x);
      ListingIsSorted(rows - {x}, below);
    }
  }

  lemma NextItem<T(!new)>(items: seq<T>, rest: set<T>, below: (T, T) -> bool, x: T)
    requires Orders(below, rest) && IsLeast(x, rest, below)
    ensures items + Listing(rest, below) == (items + [x]) + Listing(rest - {x}, below)
  {
    LeastComesFirst(rest, below, x);
  }

  method PickLeast<T(!new, ==)>(rows: set<T>, below: (T, T) -> bool) returns (x: T)
    requires rows != {} && Orders(below, rows)
    ensures IsLeast(x, rows, below)
  {
    x := Pick(rows);
    var rest := rows - {x};
    while rest != {}
      invariant x in rows && rest <= rows && x !in rest
      invariant forall y | y in rows && y !in rest && y != x :: below(x, y)
      decreases |rest|
    {
      var y := Pick(rest);
      if below(y, x) {
        x := y;
      }
      rest := rest - {y};
    }
  }

  method Sorted<T(!new, ==)>(rows: set<T>, below: (T, T) -> bool) returns (items: seq<T>)
    requires Orders(below, rows)
    ensures items == Listing(rows, below)
  {
    items := [];
    var rest := rows;
    while rest != {}
      invariant rest <= rows && Orders(below, rest)
      invariant items + Listing(rest, below) == Listing(rows, below)
      decreases |rest|
    {
      var x := PickLeast(rest, below);
      NextItem(items, rest, below, x);
      items := items + [x];
      rest := rest - {x};
    }
  }

  /** Every key belongs to one row and every row to a key: there are as many rows as keys. */
  lemma {:induction false} SameSize<K, T>(keys: set<K>, rows: set<T>, keyOf: T -> K)
    requires forall x | x in rows :: keyOf(x) in keys
    requires forall k | k in keys :: exists x | x in rows :: keyOf(x) == k
    requires forall x, y | x in rows && y in rows && keyOf(x) == keyOf(y) :: x == y
    ensures |rows| == |keys|
    decreases |keys|
  {
    if keys == {} {
      assert rows == {};
    } else {
      var k :| k in keys;
      var x :| x in rows && keyOf(x) == k;
      forall other | other in keys - {k} ensures exists y | y in rows - {x} :: keyOf(y) == other {
        var y :| y in rows && keyOf(y) == other;
        assert y in rows - {x};
      }
      SameSize(keys - {k}, rows - {x}, keyOf);
    }
  }
}
