/**
 The string order that the program relies on wherever it sorts keys: code point by code point,
 a proper prefix first. `Sorted` is the result of Python's `sorted` on a set of strings.
 */
module Lex {

  predicate Le(a: string, b: string) {
    a == "" || (b != "" && (a[0] < b[0] || (a[0] == b[0] && Le(a[1..], b[1..]))))
  }

  predicate Lt(a: string, b: string) {
    a != b && Le(a, b)
  }

  lemma {:induction false} Total(a: string, b: string)
    ensures Le(a, b) || Le(b, a)
  {
    if a != "" && b != "" && a[0] == b[0] {
      Total(a[1..], b[1..]);
    }
  }

  lemma {:induction false} Antisymmetric(a: string, b: string)
    requires Le(a, b) && Le(b, a)
    ensures a == b
  {
    if a != "" {
      Antisymmetric(a[1..], b[1..]);
      assert a == [a[0]] + a[1..] && b == [b[0]] + b[1..];
    }
  }

  lemma {:induction false} Transitive(a: string, b: string, c: string)
    requires Le(a, b) && Le(b, c)
    ensures Le(a, c)
  {
    if a != "" && a[0] == b[0] && b[0] == c[0] {
      Transitive(a[1..], b[1..], c[1..]);
    }
  }

  lemma {:induction false} CommonPrefix(p: string, a: string, b: string)
    ensures Le(p + a, p + b) <==> Le(a, b)
  {
    if p == "" {
      assert p + a == a && p + b == b;
    } else {
      assert (p + a)[1..] == p[1..] + a && (p + b)[1..] == p[1..] + b;
      CommonPrefix(p[1..], a, b);
    }
  }

  ghost predicate IsLeast(m: string, s: set<string>) {
    m in s && forall x | x in s :: Le(m, x)
  }

  lemma {:induction false} HasLeast(s: set<string>)
    requires s != {}
    ensures exists m :: IsLeast(m, s)
  {
    var x :| x in s;
    var rest := s - {x};
    Total(x, x);
    if rest == {} {
      assert s == {x};
      assert IsLeast(x, s);
    } else {
      HasLeast(rest);
      var m :| IsLeast(m, rest);
      Total(x, m);
      var least := if Le(x, m) then x else m;
      forall y | y in s ensures Le(least, y) {
        if y != x && Le(x, m) {
          Transitive(x, m, y);
        }
      }
      assert IsLeast(least, s);
    }
  }

  ghost function Least(s: set<string>): (m: string)
    requires s != {}
    ensures IsLeast(m, s)
  {
    HasLeast(s);
    var m :| IsLeast(m, s);
    m
  }

  /** The elements of `s`, ascending. */
  ghost function Sorted(s: set<string>): (r: seq<string>)
    decreases |s|
  {
    if s == {} then [] else
      var m := Least(s);
      assert |s - {m}| < |s|;
      [m] + Sorted(s - {m})
  }

  ghost predicate Distinct<T>(r: seq<T>) {
    forall i, j | 0 <= i < j < |r| :: r[i] != r[j]
  }

  ghost predicate Ascending(r: seq<string>) {
    forall i, j | 0 <= i < j < |r| :: Lt(r[i], r[j])
  }

  lemma {:induction false} SortedIsSorted(s: set<string>)
    ensures forall x :: x in Sorted(s) <==> x in s
    ensures Ascending(Sorted(s)) && Distinct(Sorted(s))
    ensures |Sorted(s)| == |s|
    decreases |s|
  {
    if s != {} {
      var m := Least(s);
      SortedIsSorted(s - {m});
      var tail := Sorted(s - {m});
      var r := Sorted(s);
      forall i, j | 0 <= i < j < |r| ensures Lt(r[i], r[j]) {
        if i == 0 {
          assert r[j] == tail[j - 1] && tail[j - 1] in tail;
        } else {
          assert r[i] == tail[i - 1] && r[j] == tail[j - 1];
        }
      }
    }
  }

  lemma TailMembers(a: seq<string>)
    requires a != [] && Ascending(a)
    ensures forall x :: x in a[1..] <==> x in a && x != a[0]
  {
    assert a == [a[0]] + a[1..];
    forall x | x in a[1..] ensures x != a[0] {
      var k :| 0 <= k < |a[1..]| && a[1..][k] == x;
      assert Lt(a[0], a[k + 1]);
    }
  }

  lemma {:induction false} AscendingIsUnique(a: seq<string>, b: seq<string>)
    requires Ascending(a) && Ascending(b)
    requires forall x :: x in a <==> x in b
    ensures a == b
  {
    assert b != [] ==> b[0] in b;
    if a != [] {
      assert a[0] in b && b != [];
      assert b[0] in a;
      var i :| 0 <= i < |b| && b[i] == a[0];
      var j :| 0 <= j < |a| && a[j] == b[0];
      if i > 0 && j > 0 {
        Antisymmetric(a[0], b[0]);
      }
      assert a[0] == b[0];
      TailMembers(a);
      TailMembers(b);
      AscendingIsUnique(a[1..], b[1..]);
    }
  }

  /** `min(s)`, by one pass over the elements. */
  method FindLeast(s: set<string>) returns (m: string)
    requires s != {}
    ensures m == Least(s)
  {
    m :| m in s;
    var rest := s - {m};
    Total(m, m);
    while rest != {}
      invariant rest <= s && m in s && m !in rest
      invariant forall x | x in s - rest :: Le(m, x)
      decreases rest
    {
      var x :| x in rest;
      Total(m, x);
      if !Le(m, x) {
        forall y | y in s - rest ensures Le(x, y) { Transitive(x, m, y); }
        Total(x, x);
        m := x;
      }
      rest := rest - {x};
    }
    Antisymmetric(m, Least(s));
  }

  /** `sorted(s)`, by repeated selection. */
  method Sort(s: set<string>) returns (r: seq<string>)
    ensures r == Sorted(s)
  {
    r := [];
    var rest := s;
    while rest != {}
      invariant r + Sorted(rest) == Sorted(s)
      decreases |rest|
    {
      var m := FindLeast(rest);
      assert Sorted(rest) == [m] + Sorted(rest - {m});
      r, rest := r + [m], rest - {m};
    }
  }
}
