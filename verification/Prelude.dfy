/** Datatypes and sorting facts shared by the other modules. */
module Prelude {

  datatype Option<+T> = None | Some(value: T)

  function Max(a: real, b: real): real {
    if a < b then b else a
  }

  lemma PrefixSnoc<T>(s: seq<T>, k: nat)
    requires 0 < k <= |s|
    ensures s[..k] == s[..k - 1] + [s[k - 1]]
  {
  }

  /** A set that is mapped into another without collisions is no larger. */
  lemma {:induction false} Injects<A, B>(a: set<A>, b: set<B>, f: A -> B)
    requires forall x | x in a :: f(x) in b
    requires forall x, y | x in a && y in a && f(x) == f(y) :: x == y
    ensures |a| <= |b|
    decreases a
  {
    if a != {} {
      var x :| x in a;
      Injects(a - {x}, b - {f(x)}, f);
    }
  }

  // Sorting by a strict order that is total on what is sorted.

  ghost predicate StrictOrder<T(!new)>(less: (T, T) -> bool) {
    && (forall x :: !less(x, x))
    && (forall x, y, z :: less(x, y) && less(y, z) ==> less(x, z))
  }

  ghost predicate TotalOn<T>(less: (T, T) -> bool, s: set<T>) {
    forall x, y | x in s && y in s :: x == y || less(x, y) || less(y, x)
  }

  ghost predicate Sorted<T>(s: seq<T>, less: (T, T) -> bool) {
    forall i, j | 0 <= i < j < |s| :: less(s[i], s[j])
  }

  function Elements<T>(s: seq<T>): set<T> {
    set x | x in s
  }

  /** The first of a sorted list comes before or equals every element. */
  lemma FirstIsLeast<T>(s: seq<T>, less: (T, T) -> bool, x: T)
    requires Sorted(s, less) && x in Elements(s)
    ensures s != [] && (x == s[0] || less(s[0], x))
  {
  }

  lemma NonEmpty<T>(s: seq<T>)
    requires s != []
    ensures Elements(s) != {}
  {
    assert s[0] in Elements(s);
  }

  lemma EmptyList<T>(s: seq<T>)
    requires Elements(s) == {}
    ensures s == []
  {
    if s != [] {
      NonEmpty(s);
      assert false;
    }
  }

  /** There is one way to list a set in order. */
  lemma {:induction false} SortedUnique<T(!new)>(a: seq<T>, b: seq<T>, less: (T, T) -> bool)
    requires StrictOrder(less) && Sorted(a, less) && Sorted(b, less) && Elements(a) == Elements(b)
    ensures a == b
  {
    if a == [] {
      if b != [] {
        NonEmpty(b);
      }
    } else {
      var x := a[0];
      assert x in Elements(b);
      var y := b[0];
      assert y in Elements(a);
      FirstIsLeast(a, less, y);
      FirstIsLeast(b, less, x);
      assert less(x, y) && less(y, x) ==> less(x, x);
      forall x
        ensures x in Elements(a[1..]) <==> x in Elements(b[1..])
      {
        assert x in Elements(a) <==> x == a[0] || x in a[1..];
        assert x in Elements(b) <==> x == b[0] || x in b[1..];
      }
      SortedUnique(a[1..], b[1..], less);
    }
  }

  function Insert<T>(x: T, s: seq<T>, less: (T, T) -> bool): seq<T> {
    if s == [] || less(x, s[0]) then [x] + s else [s[0]] + Insert(x, s[1..], less)
  }

  function Sort<T>(s: seq<T>, less: (T, T) -> bool): seq<T> {
    if s == [] then [] else Insert(s[0], Sort(s[1..], less), less)
  }

  lemma {:induction false} InsertKeepsSorted<T(!new)>(x: T, s: seq<T>, less: (T, T) -> bool)
    requires StrictOrder(less) && TotalOn(less, Elements(s) + {x}) && Sorted(s, less) && x !in s
    ensures Sorted(Insert(x, s, less), less)
    ensures Elements(Insert(x, s, less)) == Elements(s) + {x}
  {
    if s != [] && !less(x, s[0]) {
      assert Elements(s[1..]) <= Elements(s) && s[0] in Elements(s);
      InsertKeepsSorted(x, s[1..], less);
      var r := Insert(x, s[1..], less);
      forall y | y in r
        ensures less(s[0], y)
      {
        assert y in Elements(r);
      }
      assert Elements(s) == Elements(s[1..]) + {s[0]};
      assert Elements([s[0]] + r) == Elements(r) + {s[0]};
    } else {
      assert Elements([x] + s) == Elements(s) + {x};
      assert forall y | y in s :: less(x, y);
    }
  }

  ghost predicate Distinct<T>(s: seq<T>) {
    forall i, j | 0 <= i < j < |s| :: s[i] != s[j]
  }

  lemma {:induction false} SortIsSorted<T(!new)>(s: seq<T>, less: (T, T) -> bool)
    requires StrictOrder(less) && TotalOn(less, Elements(s)) && Distinct(s)
    ensures Sorted(Sort(s, less), less)
    ensures Elements(Sort(s, less)) == Elements(s)
  {
    if s != [] {
      assert Elements(s[1..]) <= Elements(s);
      SortIsSorted(s[1..], less);
      var r := Sort(s[1..], less);
      forall y | y in r
        ensures y in s[1..]
      {
        assert y in Elements(r);
      }
      assert Elements(r) + {s[0]} <= Elements(s);
      InsertKeepsSorted(s[0], Sort(s[1..], less), less);
      assert Elements(s) == Elements(s[1..]) + {s[0]};
    }
  }

  /** A set's elements in whatever order the map iteration yields. */
  method AnyOrder<T(==)>(all: set<T>) returns (list: seq<T>)
    ensures Distinct(list) && Elements(list) == all
  {
    var rest := all;
    list := [];
    while rest != {}
      invariant rest <= all && Distinct(list) && Elements(list) == all - rest
      decreases rest
    {
      var x :| x in rest;
      assert x !in Elements(list);
      assert Elements(list + [x]) == Elements(list) + {x};
      list, rest := list + [x], rest - {x};
    }
  }

  // Strings in dictionary order.

  predicate StringLess(a: string, b: string) {
    b != [] && (a == [] || a[0] < b[0] || (a[0] == b[0] && StringLess(a[1..], b[1..])))
  }

  lemma {:induction false} StringTotal(a: string, b: string)
    ensures a == b || StringLess(a, b) || StringLess(b, a)
    ensures !(StringLess(a, b) && StringLess(b, a)) && !StringLess(a, a)
  {
    if a != [] {
      StringTotal(a[1..], a[1..]);
    }
    if a != [] && b != [] {
      StringTotal(a[1..], b[1..]);
      assert a[0] == b[0] && a[1..] == b[1..] ==> a == [a[0]] + a[1..] == [b[0]] + b[1..] == b;
    }
  }

  lemma {:induction false} StringTransitive(a: string, b: string, c: string)
    requires StringLess(a, b) && StringLess(b, c)
    ensures StringLess(a, c)
  {
    if a != [] && a[0] == b[0] == c[0] {
      StringTransitive(a[1..], b[1..], c[1..]);
    }
  }

  /** At the first difference the smaller character comes first; a prefix comes before what it begins. */
  lemma {:induction false} DictionaryOrder(a: string, b: string)
    ensures StringLess(a, b)
            <==> exists k: nat :: k <= |a| && k < |b| && a[..k] == b[..k] && (k == |a| || a[k] < b[k])
  {
    if a != [] && b != [] && a[0] == b[0] {
      DictionaryOrder(a[1..], b[1..]);
      if k: nat :| k < |a| && k < |b| - 1 && a[1..][..k] == b[1..][..k] && (k == |a| - 1 || a[1..][k] < b[1..][k]) {
        assert a[..k + 1] == [a[0]] + a[1..][..k] && b[..k + 1] == [b[0]] + b[1..][..k];
      }
      if k: nat :| k <= |a| && k < |b| && a[..k] == b[..k] && (k == |a| || a[k] < b[k]) {
        assert k > 0;
        assert a[1..][..k - 1] == a[..k][1..] && b[1..][..k - 1] == b[..k][1..];
      }
    } else if a == [] && b != [] {
      assert a[..0] == b[..0];
    } else if a != [] && b != [] {
      assert a[..0] == b[..0];
      forall k: nat | 0 < k <= |a| && k < |b|
        ensures a[..k] != b[..k]
      {
        assert a[..k][0] == a[0] && b[..k][0] == b[0];
      }
    }
  }

  lemma StringOrder(s: set<string>)
    ensures StrictOrder(StringLess) && TotalOn(StringLess, s)
  {
    forall a: string, b: string
      ensures a == b || StringLess(a, b) || StringLess(b, a)
      ensures !StringLess(a, a)
    {
      StringTotal(a, b);
    }
    forall a: string, b: string, c: string | StringLess(a, b) && StringLess(b, c)
      ensures StringLess(a, c)
    {
      StringTransitive(a, b, c);
    }
  }

  lemma SortNames(s: seq<string>)
    requires Distinct(s)
    ensures Sorted(Sort(s, StringLess), StringLess)
    ensures Elements(Sort(s, StringLess)) == Elements(s)
  {
    StringOrder(Elements(s));
    SortIsSorted(s, StringLess);
  }

  lemma NamesUnique(a: seq<string>, b: seq<string>)
    requires Sorted(a, StringLess) && Sorted(b, StringLess) && Elements(a) == Elements(b)
    ensures a == b
  {
    StringOrder({});
    SortedUnique(a, b, StringLess);
  }
}
