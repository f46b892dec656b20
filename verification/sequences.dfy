/** Facts about sequences and the Python string and list operations several modules need. */
module Sequences {

  predicate Distinct<T(==)>(s: seq<T>) {
    forall i, j :: 0 <= i < j < |s| ==> s[i] != s[j]
  }

  /** The keys of a dict built from s, in insertion order. */
  function FirstOccurrences<T(==, !new)>(s: seq<T>): (r: seq<T>)
    ensures Distinct(r)
    ensures forall x :: x in r <==> x in s
  {
    if s == [] then
      []
    else
      var n := |s| - 1;
      var r := FirstOccurrences(s[..n]);
      assert s == s[..n] + [s[n]];
      if s[n] in s[..n] then r else r + [s[n]]
  }

  lemma {:induction false} AllFirst<T(!new)>(s: seq<T>)
    requires Distinct(s)
    ensures FirstOccurrences(s) == s
  {
    if s == [] {
    } else {
      AllFirst(s[..|s| - 1]);
      assert s == s[..|s| - 1] + [s[|s| - 1]];
    }
  }

  /** The place of the first x in s. */
  function IndexOf<T(==)>(s: seq<T>, x: T): (i: nat)
    requires x in s
    ensures i < |s| && s[i] == x && x !in s[..i]
  {
    if s[0] == x then 0
    else
      assert s == [s[0]] + s[1..];
      var i := IndexOf(s[1..], x);
      assert s[..i + 1] == [s[0]] + s[1..][..i];
      i + 1
  }

  lemma IndexIs<T>(s: seq<T>, x: T, i: nat)
    requires i < |s| && s[i] == x && x !in s[..i]
    ensures IndexOf(s, x) == i
  {
  }

  /** A first place in a is the first place in a + b; one in b alone is moved by the length of a. */
  lemma IndexInConcat<T>(a: seq<T>, b: seq<T>, x: T)
    requires x in a + b
    ensures IndexOf(a + b, x) == if x in a then IndexOf(a, x) else |a| + IndexOf(b, x)
  {
    if x in a {
      assert (a + b)[..IndexOf(a, x)] == a[..IndexOf(a, x)];
      IndexIs(a + b, x, IndexOf(a, x));
    } else {
      assert x in b;
      assert (a + b)[..|a| + IndexOf(b, x)] == a + b[..IndexOf(b, x)];
      IndexIs(a + b, x, |a| + IndexOf(b, x));
    }
  }

  function Elements<T(==)>(s: seq<T>): set<T> {
    set x | x in s
  }

  function Flatten<T>(ss: seq<seq<T>>): seq<T> {
    if ss == [] then [] else Flatten(ss[..|ss| - 1]) + ss[|ss| - 1]
  }

  function Map<A, B>(f: A -> B, s: seq<A>): (r: seq<B>)
    ensures |r| == |s| && forall i :: 0 <= i < |s| ==> r[i] == f(s[i])
  {
    if s == [] then [] else [f(s[0])] + Map(f, s[1..])
  }

  lemma MapConcat<A, B>(f: A -> B, a: seq<A>, b: seq<A>)
    ensures Map(f, a + b) == Map(f, a) + Map(f, b)
  {
  }

  lemma MapNext<A, B>(f: A -> B, s: seq<A>, n: nat)
    requires n < |s|
    ensures Map(f, s[..n + 1]) == Map(f, s[..n]) + [f(s[n])]
  {
  }

  /** separator.join(parts) */
  function Join(parts: seq<string>, separator: string): string {
    if parts == [] then ""
    else if |parts| == 1 then parts[0]
    else parts[0] + separator + Join(parts[1..], separator)
  }

  const HEX := "0123456789abcdef"

  /** str(n) */
  function Digits(n: nat): string {
    (if n < 10 then "" else Digits(n / 10)) + ["0123456789"[n % 10]]
  }

  /** The number a decimal text stands for. */
  function ReadNumber(s: string): nat
    requires forall i :: 0 <= i < |s| ==> '0' <= s[i] <= '9'
  {
    if s == "" then 0 else 10 * ReadNumber(s[..|s| - 1]) + (s[|s| - 1] as int - '0' as int)
  }

  /** str(n) is the decimal text of n, without leading zeros. */
  lemma {:induction false} DigitsReadBack(n: nat)
    ensures forall i :: 0 <= i < |Digits(n)| ==> '0' <= Digits(n)[i] <= '9'
    ensures ReadNumber(Digits(n)) == n && Digits(n) != "" && (n > 0 ==> Digits(n)[0] != '0') && (n == 0 ==> |Digits(n)| == 1)
  {
    var digit := "0123456789"[n % 10];
    assert digit as int == '0' as int + n % 10;
    if n < 10 {
      assert Digits(n) == [digit];
    } else {
      DigitsReadBack(n / 10);
      assert Digits(n) == Digits(n / 10) + [digit];
      assert Digits(n)[..|Digits(n)| - 1] == Digits(n / 10);
    }
  }

  lemma {:induction false} JoinConcat(a: seq<string>, b: seq<string>, separator: string)
    requires a != [] && b != []
    ensures Join(a + b, separator) == Join(a, separator) + separator + Join(b, separator)
  {
    if |a| == 1 {
      assert (a + b)[1..] == b;
    } else {
      JoinConcat(a[1..], b, separator);
      assert (a + b)[1..] == a[1..] + b;
    }
  }

  /** s[:n] for any integer n: a negative n counts from the end. */
  function SliceTo<T>(s: seq<T>, n: int): seq<T> {
    if n > |s| then s
    else if n >= 0 then s[..n]
    else if |s| + n >= 0 then s[..|s| + n]
    else []
  }

  lemma {:induction false} DistinctCount<T>(a: seq<T>, t: T)
    requires Distinct(a)
    ensures multiset(a)[t] == if t in a then 1 else 0
  {
    if a == [] {
    } else {
      var n := |a| - 1;
      DistinctCount(a[..n], t);
      assert a == a[..n] + [a[n]];
    }
  }

  lemma SameElementsSameMultiset<T(!new)>(a: seq<T>, b: seq<T>)
    requires Distinct(a) && Distinct(b)
    requires forall t :: t in a <==> t in b
    ensures multiset(a) == multiset(b)
  {
    forall t
      ensures multiset(a)[t] == multiset(b)[t]
    {
      DistinctCount(a, t);
      DistinctCount(b, t);
    }
  }

  lemma SubsetIsSmaller<T>(a: set<T>, b: set<T>, x: T)
    requires a <= b && x in b && x !in a
    ensures |a| < |b|
  {
    CardinalityBound(a, b - {x});
  }

  lemma AppendSlice<T>(a: seq<T>, b: seq<T>, n: nat)
    requires n < |b|
    ensures a + b[..n + 1] == a + b[..n] + [b[n]]
  {
  }

  lemma FlattenSnoc<T>(ss: seq<seq<T>>, n: nat)
    requires n < |ss|
    ensures Flatten(ss[..n + 1]) == Flatten(ss[..n]) + ss[n]
  {
    assert ss[..n + 1][..n] == ss[..n];
  }

  lemma {:induction false} CardinalityBound<T>(a: set<T>, b: set<T>)
    requires a <= b
    ensures |a| <= |b|
  {
    if a == {} {
    } else {
      var x :| x in a;
      CardinalityBound(a - {x}, b - {x});
    }
  }
}
