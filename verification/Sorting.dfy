/** Python's `sorted` on the elements of a set, under a strict total order. */
module Sorting {
  predicate StringLess(a: string, b: string) {
    b != "" && (a == "" || a[0] < b[0] || (a[0] == b[0] && StringLess(a[1..], b[1..])))
  }

  lemma {:induction false} StringOrder(a: string, b: string, c: string)
    ensures !StringLess(a, a)
    ensures a == b || StringLess(a, b) || StringLess(b, a)
    ensures StringLess(a, b) && StringLess(b, c) ==> StringLess(a, c)
  {
    if a != "" && b != "" {
      StringOrder(a[1..], b[1..], if c == "" then "" else c[1..]);
      assert a == [a[0]] + a[1..] && b == [b[0]] + b[1..];
    } else if a != "" {
      StringOrder(a[1..], "", "");
    }
  }

  ghost predicate Total<T(!new)>(less: (T, T) -> bool) {
    && (forall a :: !less(a, a)) && (forall a, b :: a == b || less(a, b) || less(b, a))
    && (forall a, b, c :: less(a, b) && less(b, c) ==> less(a, c))
  }

  lemma StringsTotal()
    ensures Total(StringLess)
  {
    forall a, b, c { StringOrder(a, b, c); }
  }

  predicate Sorted<T>(less: (T, T) -> bool, s: seq<T>) {
    forall i, j | 0 <= i < j < |s| :: less(s[i], s[j])
  }

  /** `s` lists exactly these elements, in order. */
  ghost predicate Lists<T(!new)>(less: (T, T) -> bool, s: seq<T>, elements: set<T>) {
    Sorted(less, s) && forall e :: e in s <==> e in elements
  }

  method SortSet<T(!new, ==)>(less: (T, T) -> bool, elements: set<T>) returns (s: seq<T>)
    requires Total(less)
    ensures Lists(less, s, elements)
  {
    s := [];
    var rest := elements;
    while rest != {}
      invariant rest <= elements && Sorted(less, s)
      invariant forall e :: e in s <==> e in elements - rest
      invariant forall a, b | a in s && b in rest :: less(a, b)
      decreases rest
    {
      var least := Least(less, rest);
      s, rest := s + [least], rest - {least};
    }
  }

  method Least<T(!new, ==)>(less: (T, T) -> bool, elements: set<T>) returns (least: T)
    requires Total(less) && elements != {}
    ensures least in elements && forall e | e in elements && e != least :: less(least, e)
  {
    var rest := elements;
    least :| least in rest;
    rest := rest - {least};
    while rest != {}
      invariant rest <= elements && least in elements - rest
      invariant forall e | e in elements - rest && e != least :: less(least, e)
      decreases rest
    {
      var e :| e in rest;
      LeastSoFar(less, elements - rest, least, e);
      if less(e, least) { least := e; }
      rest := rest - {e};
    }
  }

  lemma LeastSoFar<T(!new)>(less: (T, T) -> bool, seen: set<T>, least: T, e: T)
    requires Total(less) && forall x | x in seen && x != least :: less(least, x)
    ensures less(e, least) ==> forall x | x in seen :: less(e, x)
    ensures e == least || less(e, least) || less(least, e)
  {
    forall x | x in seen && less(e, least)
      ensures less(e, x)
    {
      assert x == least || less(least, x);
    }
  }

  lemma EmptyListing<T(!new)>(less: (T, T) -> bool, s: seq<T>, elements: set<T>)
    requires Lists(less, s, elements)
    ensures s == [] <==> elements == {}
  {
    if s != [] { assert s[0] in s; }
  }

  /** A set has only one sorted listing. */
  lemma {:induction false} ListingUnique<T(!new)>(less: (T, T) -> bool, s: seq<T>, t: seq<T>, elements: set<T>)
    requires Total(less) && Lists(less, s, elements) && Lists(less, t, elements)
    ensures s == t
  {
    EmptyListing(less, s, elements);
    EmptyListing(less, t, elements);
    if s != [] {
      assert s[0] in t && t[0] in s;
      var i :| 0 <= i < |t| && t[i] == s[0];
      var j :| 0 <= j < |s| && s[j] == t[0];
      assert i == 0;
      TailLists(less, s, elements);
      TailLists(less, t, elements);
      ListingUnique(less, s[1..], t[1..], elements - {s[0]});
    }
  }

  lemma TailLists<T(!new)>(less: (T, T) -> bool, s: seq<T>, elements: set<T>)
    requires Total(less) && Lists(less, s, elements) && s != []
    ensures Lists(less, s[1..], elements - {s[0]})
  {
    assert s == [s[0]] + s[1..];
  }

  /** The texts agree on their first `k` characters, and there `a` ends or has the smaller one. */
  predicate DifferAt(a: string, b: string, k: nat) {
    k <= |a| && k < |b| && a[..k] == b[..k] && (k == |a| || a[k] < b[k])
  }

  /** The order of texts: the first difference decides, and a beginning comes before the whole. */
  lemma {:induction false} FirstDifferenceDecides(a: string, b: string)
    ensures StringLess(a, b) <==> exists k: nat :: DifferAt(a, b, k)
  {
    if a != "" && b != "" && a[0] == b[0] {
      FirstDifferenceDecides(a[1..], b[1..]);
      if k: nat :| DifferAt(a[1..], b[1..], k) {
        assert a[..k + 1] == [a[0]] + a[1..][..k] && b[..k + 1] == [b[0]] + b[1..][..k];
        assert DifferAt(a, b, k + 1);
      }
      if k: nat :| DifferAt(a, b, k) {
        assert k > 0 && a[1..][..k - 1] == a[..k][1..] == b[..k][1..] == b[1..][..k - 1];
        assert DifferAt(a[1..], b[1..], k - 1);
      }
    } else if b != "" {
      if a == "" || a[0] < b[0] { assert DifferAt(a, b, 0); }
      forall k: nat | a != "" && a[0] != b[0] && 0 < k <= |a| && k < |b|
        ensures a[..k] != b[..k]
      {
        assert a[..k][0] == a[0] && b[..k][0] == b[0];
      }
    }
  }
}
