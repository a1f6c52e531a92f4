// Queues without duplicates, and sizes of sets.
module Collections {
  function Min(a: int, b: int): int { if a < b then a else b }
  function Max(a: int, b: int): int { if a < b then b else a }

  lemma Associates<T>(a: seq<T>, b: seq<T>, c: seq<T>)
    ensures (a + b) + c == a + (b + c)
  {
  }

  lemma {:induction false} SubsetSize<T>(a: set<T>, b: set<T>)
    requires a <= b
    ensures |a| <= |b|
  {
    if a != {} {
      var x :| x in a;
      SubsetSize(a - {x}, b - {x});
    }
  }

  /** All occurrences of one item removed. */
  function Without<T(==,!new)>(items: seq<T>, item: T): (r: seq<T>)
    ensures forall x :: x in r <==> x in items && x != item
    ensures |r| <= |items| && (item in items ==> |r| < |items|)
  {
    if items == [] then [] else (if items[0] == item then [] else [items[0]]) + Without(items[1..], item)
  }

  predicate NoDuplicates<T(==)>(items: seq<T>) {
    forall i, j :: 0 <= i < j < |items| ==> items[i] != items[j]
  }

  /** Moving an item to the back keeps a queue free of duplicates. */
  lemma {:induction false} WithoutNoDuplicates<T(!new)>(items: seq<T>, item: T)
    requires NoDuplicates(items)
    ensures NoDuplicates(Without(items, item)) && NoDuplicates(Without(items, item) + [item])
    ensures |Without(items, item)| == if item in items then |items| - 1 else |items|
  {
    if items == [] {
      assert Without(items, item) == [];
    } else {
      var tail := Without(items[1..], item);
      assert NoDuplicates(items[1..]);
      WithoutNoDuplicates(items[1..], item);
      assert items[0] !in items[1..];
      ConsNoDuplicates(items[0], tail);
      AppendNoDuplicates(Without(items, item), item);
    }
  }

  lemma ConsNoDuplicates<T>(x: T, items: seq<T>)
    requires NoDuplicates(items) && x !in items
    ensures NoDuplicates([x] + items)
  {
  }

  lemma AppendNoDuplicates<T>(items: seq<T>, x: T)
    requires NoDuplicates(items) && x !in items
    ensures NoDuplicates(items + [x])
  {
  }

  lemma {:induction false} WithoutAbsent<T(!new)>(items: seq<T>, item: T)
    requires item !in items
    ensures Without(items, item) == items && Without(items + [item], item) == items
  {
    if items != [] {
      WithoutAbsent(items[1..], item);
      assert (items + [item])[1..] == items[1..] + [item];
    }
  }

  lemma WithoutHead<T(!new)>(items: seq<T>, item: T)
    requires items != []
    ensures Without(items, item) == (if items[0] == item then [] else [items[0]]) + Without(items[1..], item)
  {
  }

  lemma {:induction false} WithoutConcat<T(!new)>(a: seq<T>, b: seq<T>, item: T)
    ensures Without(a + b, item) == Without(a, item) + Without(b, item)
  {
    hide Without;
    if a == [] {
      assert a + b == b;
      assert Without(a, item) == [];
    } else {
      WithoutConcat(a[1..], b, item);
      WithoutHead(a, item);
      WithoutHead(a + b, item);
      assert (a + b)[1..] == a[1..] + b && (a + b)[0] == a[0];
      var head := if a[0] == item then [] else [a[0]];
      assert head + (Without(a[1..], item) + Without(b, item)) == (head + Without(a[1..], item)) + Without(b, item);
    }
  }

  lemma {:induction false} OrderSize<T>(items: set<T>, order: seq<T>)
    requires NoDuplicates(order) && items == set x | x in order
    ensures |items| == |order|
  {
    if order != [] {
      var front, last := order[..|order| - 1], order[|order| - 1];
      assert order == front + [last];
      assert items - {last} == set x | x in front;
      OrderSize(items - {last}, front);
    }
  }
}
