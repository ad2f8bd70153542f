/** Facts about sequences, sets and multisets that several components share. */
module Collections {

  datatype Option<T> = None | Some(value: T)

  /** Lower case of an ASCII letter. */
  function LowerChar(c: char): char {
    if 'A' <= c <= 'Z' then c + 32 as char else c
  }

  /** The same character, up to the case of an ASCII letter. */
  predicate SameLetter(c: char, d: char) {
    || c == d
    || ('A' <= c <= 'Z' && d as int == c as int + 32)
    || ('A' <= d <= 'Z' && c as int == d as int + 32)
  }

  lemma {:induction false} SameLetterIff(c: char, d: char)
    ensures SameLetter(c, d) <==> LowerChar(c) == LowerChar(d)
  {
    assert 'A' as int == 65 && 'Z' as int == 90;
  }

  function SumOver<A, T>(f: A -> multiset<T>, xs: seq<A>): multiset<T> {
    if xs == [] then multiset{}
    else SumOver(f, xs[..|xs| - 1]) + f(xs[|xs| - 1])
  }

  lemma {:induction false} SumOverSnoc<A, T>(f: A -> multiset<T>, xs: seq<A>, x: A)
    ensures SumOver(f, xs + [x]) == SumOver(f, xs) + f(x)
  {
    assert (xs + [x])[..|xs|] == xs;
  }

  function Elements<T>(xs: seq<T>): set<T> {
    set x | x in xs
  }

  lemma ElementsAppend<T>(a: seq<T>, b: seq<T>)
    ensures Elements(a + b) == Elements(a) + Elements(b)
  {
  }

  lemma PrefixSnoc<T>(xs: seq<T>, i: nat)
    requires i < |xs|
    ensures xs[..i + 1] == xs[..i] + [xs[i]]
  {
  }

  function Min(a: int, b: int): int { if a < b then a else b }

  function Max(a: int, b: int): int { if a < b then b else a }

  function Take<T>(xs: seq<T>, n: nat): seq<T> {
    if n < |xs| then xs[..n] else xs
  }

  function Filter<T>(p: T -> bool, xs: seq<T>): (r: seq<T>)
    ensures |r| <= |xs|
  {
    if xs == [] then []
    else
      var rest := Filter(p, xs[..|xs| - 1]);
      if p(xs[|xs| - 1]) then rest + [xs[|xs| - 1]] else rest
  }

  lemma {:induction false} FilterMembers<T>(p: T -> bool, xs: seq<T>)
    ensures forall x :: x in Filter(p, xs) <==> x in xs && p(x)
  {
    if xs != [] {
      var n := |xs| - 1;
      FilterMembers(p, xs[..n]);
      assert forall x :: x in xs <==> x in xs[..n] || x == xs[n];
    }
  }

  lemma {:induction false} FilterNone<T>(p: T -> bool, xs: seq<T>)
    requires forall x :: x in xs ==> !p(x)
    ensures Filter(p, xs) == []
  {
    if xs != [] {
      assert xs[|xs| - 1] in xs;
      FilterNone(p, xs[..|xs| - 1]);
    }
  }

  lemma {:induction false} FilterAppend<T>(p: T -> bool, a: seq<T>, b: seq<T>)
    ensures Filter(p, a + b) == Filter(p, a) + Filter(p, b)
  {
    if b == [] {
      assert a + b == a;
    } else {
      var n := |b| - 1;
      FilterAppend(p, a, b[..n]);
      assert (a + b)[..|a + b| - 1] == a + b[..n];
    }
  }

  /** What lies between the outer elements for which `p` holds. */
  function Trim<T>(p: T -> bool, s: seq<T>): seq<T>
    decreases |s|
  {
    if s == [] then []
    else if p(s[0]) then Trim(p, s[1..])
    else if p(s[|s| - 1]) then Trim(p, s[..|s| - 1])
    else s
  }

  lemma {:induction false} TrimIs<T>(p: T -> bool, s: seq<T>) returns (i: nat, j: nat)
    ensures i <= j <= |s| && Trim(p, s) == s[i..j]
    ensures forall k :: 0 <= k < i || j <= k < |s| ==> p(s[k])
    ensures i < j ==> !p(s[i]) && !p(s[j - 1])
    decreases |s|
  {
    if s == [] {
      i, j := 0, 0;
    } else if p(s[0]) {
      i, j := TrimIs(p, s[1..]);
      assert forall k :: 0 <= k < |s[1..]| ==> s[1..][k] == s[k + 1];
      assert s[1..][i..j] == s[i + 1..j + 1];
      i, j := i + 1, j + 1;
    } else if p(s[|s| - 1]) {
      i, j := TrimIs(p, s[..|s| - 1]);
      assert s[..|s| - 1][i..j] == s[i..j];
    } else {
      i, j := 0, |s|;
    }
  }

  lemma {:induction false} TrimMiddle<T>(p: T -> bool, s: seq<T>, i: nat, j: nat)
    requires i <= j <= |s|
    requires forall k :: 0 <= k < i || j <= k < |s| ==> p(s[k])
    requires i < j ==> !p(s[i]) && !p(s[j - 1])
    ensures Trim(p, s) == s[i..j]
  {
    var i', j' := TrimIs(p, s);
    if i < j {
      assert !(i < i' || j' <= i) && !(j - 1 < i' || j' <= j - 1);
    }
    if i' < j' {
      assert !(i' < i || j <= i') && !(j' - 1 < i || j <= j' - 1);
    }
  }

  /** The largest element of a finite set, 0 when empty. */
  ghost function MaxOf(s: set<nat>): (m: nat)
    ensures s == {} ==> m == 0
    ensures s != {} ==> m in s
    ensures forall x :: x in s ==> x <= m
  {
    if s == {} then 0
    else
      var x :| x in s;
      var m := MaxOf(s - {x});
      assert forall y :: y in s ==> y == x || y in s - {x};
      if m < x then x else m
  }

  lemma MergeTwice<K, V>(m: map<K, V>, n: map<K, V>)
    ensures (m + n) + n == m + n
  {
  }

  lemma UnionTwice<T>(a: set<T>, b: set<T>)
    ensures (a + b) + b == a + b
  {
  }

  ghost predicate Distinct<T>(xs: seq<T>) {
    forall i, j :: 0 <= i < j < |xs| ==> xs[i] != xs[j]
  }

  lemma DistinctSnoc<T>(xs: seq<T>, x: T)
    requires Distinct(xs) && x !in xs
    ensures Distinct(xs + [x])
  {
  }

  lemma {:induction false} DistinctSize<T>(xs: seq<T>)
    requires Distinct(xs)
    ensures |Elements(xs)| == |xs|
  {
    if xs != [] {
      var n := |xs| - 1;
      DistinctSize(xs[..n]);
      assert Elements(xs) == Elements(xs[..n]) + {xs[n]};
    }
  }

  lemma {:induction false} SubsetSize<T>(a: set<T>, b: set<T>)
    requires a <= b
    ensures |a| <= |b| && (|a| == |b| ==> a == b)
  {
    assert b == a + (b - a);
  }

  function Concat<T>(parts: seq<seq<T>>): seq<T> {
    if parts == [] then [] else Concat(parts[..|parts| - 1]) + parts[|parts| - 1]
  }

  lemma {:induction false} ConcatSnoc<T>(parts: seq<seq<T>>, last: seq<T>)
    ensures Concat(parts + [last]) == Concat(parts) + last
  {
    assert (parts + [last])[..|parts|] == parts;
  }
}
