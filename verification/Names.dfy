/** Python's `sorted` on distinct strings. */
module Names {

  /** Lexicographic order by code point. */
  predicate Le(a: string, b: string) {
    a == [] || (b != [] && (a[0] < b[0] || (a[0] == b[0] && Le(a[1..], b[1..]))))
  }

  lemma {:induction false} LeTotal(a: string, b: string)
    ensures Le(a, b) || Le(b, a)
  {
    if a != [] && b != [] && a[0] == b[0] {
      LeTotal(a[1..], b[1..]);
    }
  }

  lemma {:induction false} LeTransitive(a: string, b: string, c: string)
    requires Le(a, b) && Le(b, c)
    ensures Le(a, c)
  {
    if a != [] && a[0] == b[0] && b[0] == c[0] {
      LeTransitive(a[1..], b[1..], c[1..]);
    }
  }

  predicate Ordered(s: seq<string>) {
    forall i, j | 0 <= i < j < |s| :: Le(s[i], s[j])
  }

  predicate NoDuplicates<T(==)>(s: seq<T>) {
    forall i, j | 0 <= i < j < |s| :: s[i] != s[j]
  }

  function Insert(x: string, s: seq<string>): (r: seq<string>)
    ensures multiset(r) == multiset(s) + multiset{x}
  {
    if s == [] || Le(x, s[0]) then [x] + s
    else
      assert s == [s[0]] + s[1..];
      [s[0]] + Insert(x, s[1..])
  }

  function Sorted(s: seq<string>): (r: seq<string>)
    ensures multiset(r) == multiset(s)
  {
    if s == [] then []
    else
      assert s == [s[0]] + s[1..];
      Insert(s[0], Sorted(s[1..]))
  }

  lemma {:induction false} InsertOrdered(x: string, s: seq<string>)
    requires Ordered(s)
    ensures Ordered(Insert(x, s))
  {
    if s != [] {
      if Le(x, s[0]) {
        forall i | 0 <= i < |s|
          ensures Le(x, s[i])
        {
          if i > 0 {
            LeTransitive(x, s[0], s[i]);
          }
        }
      } else {
        LeTotal(x, s[0]);
        InsertOrdered(x, s[1..]);
        forall y | y in Insert(x, s[1..])
          ensures Le(s[0], y)
        {
          assert y in multiset(Insert(x, s[1..]));
          assert y == x || y in s[1..];
        }
      }
    }
  }

  /** The result is in order and holds the same names; no name is repeated that was not before. */
  lemma {:induction false} SortedIsOrdered(s: seq<string>)
    ensures Ordered(Sorted(s))
    ensures forall x :: x in Sorted(s) <==> x in s
    ensures NoDuplicates(s) ==> NoDuplicates(Sorted(s))
  {
    if s != [] {
      SortedIsOrdered(s[1..]);
      InsertOrdered(s[0], Sorted(s[1..]));
    }
    forall x
      ensures x in Sorted(s) <==> x in s
    {
      assert x in multiset(Sorted(s)) <==> x in multiset(s);
    }
    if NoDuplicates(s) {
      DistinctByCount(s);
      CountIsDistinct(Sorted(s));
    }
  }

  lemma {:induction false} DistinctByCount<T>(s: seq<T>)
    requires NoDuplicates(s)
    ensures forall x :: multiset(s)[x] <= 1
  {
    if s != [] {
      var n := |s| - 1;
      DistinctByCount(s[..n]);
      assert s == s[..n] + [s[n]];
      assert multiset(s) == multiset(s[..n]) + multiset{s[n]};
      assert s[n] !in s[..n];
    }
  }

  lemma CountIsDistinct<T>(s: seq<T>)
    requires forall x :: multiset(s)[x] <= 1
    ensures NoDuplicates(s)
  {
    forall i, j | 0 <= i < j < |s|
      ensures s[i] != s[j]
    {
      assert s == s[..j] + [s[j]] + s[j + 1..];
      assert multiset(s) == multiset(s[..j]) + multiset{s[j]} + multiset(s[j + 1..]);
      assert s[i] in s[..j];
      assert multiset(s[..j])[s[i]] >= 1 && multiset(s)[s[i]] <= 1;
    }
  }
}
