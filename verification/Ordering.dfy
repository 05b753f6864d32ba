/** Key order of the broker's ordered maps, and their in-order traversal. */
module Ordering {
  import opened Common

  ghost predicate TotalOrder<T(!new)>(leq: (T, T) -> bool) {
    && (forall a :: leq(a, a))
    && (forall a, b :: leq(a, b) || leq(b, a))
    && (forall a, b :: leq(a, b) && leq(b, a) ==> a == b)
    && (forall a, b, c :: leq(a, b) && leq(b, c) ==> leq(a, c))
  }

  predicate IsLeast<T>(leq: (T, T) -> bool, x: T, s: set<T>) {
    x in s && forall y | y in s :: leq(x, y)
  }

  lemma {:induction false} LeastExists<T(!new)>(leq: (T, T) -> bool, s: set<T>)
    requires TotalOrder(leq) && s != {}
    ensures exists x :: IsLeast(leq, x, s)
  {
    var y :| y in s;
    if s == {y} {
      assert IsLeast(leq, y, s);
    } else {
      LeastExists(leq, s - {y});
      var x :| IsLeast(leq, x, s - {y});
      assert s == (s - {y}) + {y};
      if leq(x, y) {
        assert IsLeast(leq, x, s);
      } else {
        assert IsLeast(leq, y, s);
      }
    }
  }

  ghost function Least<T(!new)>(leq: (T, T) -> bool, s: set<T>): (x: T)
    requires TotalOrder(leq) && s != {}
    ensures IsLeast(leq, x, s)
  {
    LeastExists(leq, s);
    var x :| IsLeast(leq, x, s);
    x
  }

  /** The elements of `s` in ascending order: what iterating a `BTreeMap` keyed by `s` yields. */
  ghost function InOrder<T(!new)>(leq: (T, T) -> bool, s: set<T>): (r: seq<T>)
    requires TotalOrder(leq)
    ensures Elements(r) == s
    ensures NoDuplicates(r)
    ensures forall i, j :: 0 <= i <= j < |r| ==> leq(r[i], r[j])
  {
    if s == {} then []
    else
      var x := Least(leq, s);
      var rest := InOrder(leq, s - {x});
      LeastFirst(leq, s, x, rest);
      [x] + rest
  }

  lemma LeastFirst<T(!new)>(leq: (T, T) -> bool, s: set<T>, x: T, rest: seq<T>)
    requires TotalOrder(leq) && IsLeast(leq, x, s)
    requires Elements(rest) == s - {x} && NoDuplicates(rest)
    requires forall i, j :: 0 <= i <= j < |rest| ==> leq(rest[i], rest[j])
    ensures Elements([x] + rest) == s
    ensures NoDuplicates([x] + rest)
    ensures forall i, j :: 0 <= i <= j < |rest| + 1 ==> leq(([x] + rest)[i], ([x] + rest)[j])
  {
    var r := [x] + rest;
    forall y ensures y in Elements(r) <==> y in s {
      assert y in r <==> y == x || y in rest;
      assert y in rest <==> y in Elements(rest);
    }
    forall i, j | 0 <= i <= j < |r| ensures leq(r[i], r[j]) && (i < j ==> r[i] != r[j]) {
      assert leq(x, x);
      if i == 0 && j > 0 { assert rest[j - 1] in Elements(rest); }
    }
  }

  lemma TakeLeast<T(!new)>(leq: (T, T) -> bool, s: set<T>, x: T)
    requires TotalOrder(leq) && IsLeast(leq, x, s)
    ensures InOrder(leq, s) == [x] + InOrder(leq, s - {x})
  {
    assert leq(x, Least(leq, s)) && leq(Least(leq, s), x);
  }

  lemma Reassociate<T>(a: seq<T>, x: T, b: seq<T>)
    ensures a + ([x] + b) == a + [x] + b
  {
  }

  /** The traversal itself, taking the least remaining key at each step. */
  method Traverse<T(!new, ==)>(leq: (T, T) -> bool, s: set<T>) returns (r: seq<T>)
    requires TotalOrder(leq)
    ensures r == InOrder(leq, s)
  {
    r := [];
    var rest := s;
    while rest != {}
      invariant rest <= s
      invariant InOrder(leq, s) == r + InOrder(leq, rest)
      decreases rest
    {
      LeastExists(leq, rest);
      var x :| x in rest && IsLeast(leq, x, rest);
      TakeLeast(leq, rest, x);
      Reassociate(r, x, InOrder(leq, rest - {x}));
      r := r + [x];
      rest := rest - {x};
    }
  }

  /** Byte-lexicographic order, the `Ord` of Rust's `String`. */
  predicate TextLeq(a: Text, b: Text) {
    a == [] || (b != [] && (a[0] < b[0] || (a[0] == b[0] && TextLeq(a[1..], b[1..]))))
  }

  lemma {:induction false} TextTransitive(a: Text, b: Text, c: Text)
    requires TextLeq(a, b) && TextLeq(b, c)
    ensures TextLeq(a, c)
  {
    if a != [] && a[0] == b[0] == c[0] {
      TextTransitive(a[1..], b[1..], c[1..]);
    }
  }

  lemma {:induction false} TextAntisymmetric(a: Text, b: Text)
    requires TextLeq(a, b) && TextLeq(b, a)
    ensures a == b
  {
    if a == [] {
    } else {
      TextAntisymmetric(a[1..], b[1..]);
      assert a == [a[0]] + a[1..] && b == [b[0]] + b[1..];
    }
  }

  lemma {:induction false} TextTotal(a: Text, b: Text)
    ensures TextLeq(a, b) || TextLeq(b, a)
  {
    if a != [] && b != [] {
      TextTotal(a[1..], b[1..]);
    }
  }

  lemma {:induction false} TextOrder()
    ensures TotalOrder(TextLeq)
  {
    forall a, b ensures TextLeq(a, b) || TextLeq(b, a) { TextTotal(a, b); }
    forall a, b | TextLeq(a, b) && TextLeq(b, a) ensures a == b { TextAntisymmetric(a, b); }
    forall a, b, c | TextLeq(a, b) && TextLeq(b, c) ensures TextLeq(a, c) { TextTransitive(a, b, c); }
  }

  /** Byte by byte: a text comes before another if it is a prefix of it, or has the smaller byte where they first
      differ. */
  ghost predicate ComesFirst(a: Text, b: Text) {
    a <= b || exists i :: 0 <= i < |a| && i < |b| && a[..i] == b[..i] && a[i] < b[i]
  }

  lemma {:induction false} TextLeqIsLexicographic(a: Text, b: Text)
    ensures TextLeq(a, b) <==> ComesFirst(a, b)
  {
    if a == [] {
    } else if b != [] && a[0] == b[0] {
      TextLeqIsLexicographic(a[1..], b[1..]);
      assert a == [a[0]] + a[1..] && b == [b[0]] + b[1..];
      if a[1..] <= b[1..] { assert b == [a[0]] + (a[1..] + b[1..][|a| - 1..]); }
      if i :| 0 <= i < |a[1..]| && i < |b[1..]| && a[1..][..i] == b[1..][..i] && a[1..][i] < b[1..][i] {
        assert a[..i + 1] == [a[0]] + a[1..][..i] && b[..i + 1] == [b[0]] + b[1..][..i];
        assert a[i + 1] < b[i + 1];
      }
      if i :| 0 <= i < |a| && i < |b| && a[..i] == b[..i] && a[i] < b[i] {
        assert i > 0 && a[1..][..i - 1] == a[..i][1..] && b[1..][..i - 1] == b[..i][1..];
        assert a[1..][i - 1] < b[1..][i - 1];
      }
    } else if b != [] {
      if a[0] < b[0] { assert a[..0] == b[..0]; }
      if i :| 0 <= i < |a| && i < |b| && a[..i] == b[..i] && a[i] < b[i] {
        assert i == 0 || (a[..i][0] == a[0] && b[..i][0] == b[0]);
      }
    }
  }
}
