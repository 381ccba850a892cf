/** Facts about sets and sequences that several modules need. */
module Collections {

  lemma {:induction false} SubsetIsNoLarger<T>(a: set<T>, b: set<T>)
    requires a <= b
    ensures |a| <= |b|
  {
    if a != {} {
      var x :| x in a;
      SubsetIsNoLarger(a - {x}, b - {x});
    }
  }

  lemma SameSizeSubset<T>(a: set<T>, b: set<T>)
    requires a <= b && |a| == |b|
    ensures a == b
  {
    if b - a == {} {
      assert forall s | s in b :: s in a || s in b - a;
    } else {
      var s :| s in b - a;
      SubsetIsNoLarger(a, b - {s});
    }
  }

  /** What holds at the start and goes on from each step to the next holds at the end. */
  lemma StepByStep(steps: iset<nat>, n: nat)
    requires 0 in steps && forall i: nat | i in steps && i < n :: i + 1 in steps
    ensures n in steps
  {
    var i := 0;
    while i < n
      invariant i <= n && i in steps
    {
      i := i + 1;
    }
  }

  lemma Associative<T>(a: seq<T>, b: seq<T>, c: seq<T>)
    ensures a + b + c == a + (b + c)
  {
  }

  lemma PrefixMore<T>(s: seq<T>, i: nat)
    requires i < |s|
    ensures s[..i + 1] == s[..i] + [s[i]]
  {
  }

  lemma SuffixMore<T>(s: seq<T>, i: nat)
    requires i < |s|
    ensures s[i..] == [s[i]] + s[i + 1..]
  {
  }

  lemma LastSplit<T>(s: seq<T>)
    requires s != []
    ensures s == s[..|s| - 1] + [s[|s| - 1]]
  {
  }

  /** What `f` adds up to along a sequence. */
  function Total<T>(f: T -> nat, s: seq<T>): nat {
    if s == [] then 0 else Total(f, s[..|s| - 1]) + f(s[|s| - 1])
  }

  lemma {:induction false} TotalAfterUpdate<T>(f: T -> nat, s: seq<T>, i: nat, x: T)
    requires i < |s|
    ensures Total(f, s[i := x]) + f(s[i]) == Total(f, s) + f(x)
  {
    var n := |s| - 1;
    if i == n {
      assert s[i := x][..n] == s[..n];
    } else {
      assert s[i := x][..n] == s[..n][i := x];
      TotalAfterUpdate(f, s[..n], i, x);
    }
  }

  ghost predicate AllDifferent<T>(s: seq<T>) {
    forall i, k | 0 <= i < k < |s| :: s[i] != s[k]
  }

  lemma {:induction false} TotalWithout<T>(f: T -> nat, s: seq<T>, i: nat)
    requires i < |s|
    ensures Total(f, s) == Total(f, s[..i] + s[i + 1..]) + f(s[i])
  {
    var n := |s| - 1;
    if i == n {
      assert s[..i] + s[i + 1..] == s[..n];
    } else {
      TotalWithout(f, s[..n], i);
      var rest := s[..i] + s[i + 1..];
      assert rest[..|rest| - 1] == s[..n][..i] + s[..n][i + 1..];
    }
  }

  /** Some different members add up to no more than all of them. */
  lemma {:induction false} TotalOfPart<T>(f: T -> nat, a: seq<T>, b: seq<T>)
    requires AllDifferent(a) && forall x | x in a :: x in b
    ensures Total(f, a) <= Total(f, b)
  {
    if a != [] {
      var init, x := a[..|a| - 1], a[|a| - 1];
      LastSplit(a);
      assert x in a && forall y | y in init :: y in a;
      var i :| 0 <= i < |b| && b[i] == x;
      var rest := b[..i] + b[i + 1..];
      TotalWithout(f, b, i);
      forall y | y in init ensures y in rest {
        var k :| 0 <= k < |b| && b[k] == y;
        if k < i { assert rest[k] == y; } else { assert k > i && rest[k - 1] == y; }
      }
      TotalOfPart(f, init, rest);
    }
  }

  /** The order does not matter. */
  lemma {:induction false} TotalOfSameMembers<T>(f: T -> nat, a: seq<T>, b: seq<T>)
    requires AllDifferent(a) && AllDifferent(b) && forall x :: x in a <==> x in b
    ensures Total(f, a) == Total(f, b)
  {
    if b != [] { assert b[0] in b && b[0] in a; }
    if a != [] {
      var init, x := a[..|a| - 1], a[|a| - 1];
      assert x in b;
      var i :| 0 <= i < |b| && b[i] == x;
      var rest := b[..i] + b[i + 1..];
      TotalWithout(f, b, i);
      forall y ensures y in init <==> y in rest {
        if y in init { assert y in a && y != x && y in b; }
        if y in rest { assert y in b && y != x && y in a; }
      }
      TotalOfSameMembers(f, init, rest);
    }
  }
}
