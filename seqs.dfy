/** Operations on the ordered user lists the bot keeps (queues, rosters,
    ballots): duplicate-freedom, removal of one user (`Array.filter(u =>
    u !== x)`) and occurrence counting. */
module Seqs {

  /** No element occurs twice. */
  predicate NoDup<T(==)>(s: seq<T>) {
    forall i, j :: 0 <= i < j < |s| ==> s[i] != s[j]
  }

  /** The two lists share no element. */
  predicate Disjoint<T(==)>(a: seq<T>, b: seq<T>) {
    forall i :: 0 <= i < |a| ==> a[i] !in b
  }

  /** `s.filter(u => u !== x)`: every occurrence of `x` dropped, the rest
      kept in order. */
  function Without<T(==, !new)>(s: seq<T>, x: T): (r: seq<T>)
    ensures forall y :: y in r <==> y in s && y != x
    ensures |r| <= |s|
  {
    if s == [] then []
    else (if s[0] == x then [] else [s[0]]) + Without(s[1..], x)
  }

  /** Number of occurrences of `x` in `s`. */
  function Count<T(==)>(s: seq<T>, x: T): (n: nat)
    ensures n <= |s|
    ensures n == 0 <==> x !in s
  {
    if s == [] then 0
    else (if s[0] == x then 1 else 0) + Count(s[1..], x)
  }

  /** A list is the part before position i, the element there, and the
      part after it. */
  lemma Decompose<T>(s: seq<T>, i: nat)
    requires i < |s|
    ensures s == s[..i] + ([s[i]] + s[i + 1..])
  {
  }

  /** Filtering distributes over concatenation: it keeps relative order. */
  lemma {:induction false} WithoutAppend<T(!new)>(a: seq<T>, b: seq<T>, x: T)
    ensures Without(a + b, x) == Without(a, x) + Without(b, x)
  {
    if a != [] {
      assert (a + b)[0] == a[0] && (a + b)[1..] == a[1..] + b;
      WithoutAppend(a[1..], b, x);
    } else {
      assert a + b == b;
    }
  }

  /** Removing an absent element changes nothing. */
  lemma {:induction false} WithoutAbsent<T(!new)>(s: seq<T>, x: T)
    requires x !in s
    ensures Without(s, x) == s
  {
    if s != [] {
      WithoutAbsent(s[1..], x);
    }
  }

  /** In a duplicate-free list the element at position i occurs neither
      before nor after it. */
  lemma NoDupSplit<T(!new)>(s: seq<T>, i: nat)
    requires NoDup(s) && i < |s|
    ensures s == s[..i] + ([s[i]] + s[i + 1..])
    ensures s[i] !in s[..i] && s[i] !in s[i + 1..]
  {
    assert s[i] !in s[..i] by {
      forall j | 0 <= j < i ensures s[..i][j] != s[i] { assert s[..i][j] == s[j]; }
    }
    assert s[i] !in s[i + 1..] by {
      forall j | i < j < |s| ensures s[j] != s[i] { }
    }
  }

  /** Removing an element that occurs once, between `pre` and `post`. */
  lemma {:induction false} WithoutMiddle<T(!new)>(pre: seq<T>, x: T, post: seq<T>)
    requires x !in pre && x !in post
    ensures Without(pre + ([x] + post), x) == pre + post
  {
    var s := pre + ([x] + post);
    if pre == [] {
      assert s == [x] + post && s[1..] == post;
      WithoutAbsent(post, x);
    } else {
      assert s[0] == pre[0] && s[1..] == pre[1..] + ([x] + post);
      WithoutMiddle(pre[1..], x, post);
      assert pre + post == [pre[0]] + (pre[1..] + post);
    }
  }

  /** In a duplicate-free list, removing the element at position i leaves
      exactly the elements before and after it, in order. */
  lemma WithoutAt<T(!new)>(s: seq<T>, i: nat)
    requires NoDup(s) && i < |s|
    ensures Without(s, s[i]) == s[..i] + s[i + 1..]
  {
    NoDupSplit(s, i);
    WithoutMiddle(s[..i], s[i], s[i + 1..]);
  }

  /** Removing from a duplicate-free list keeps it duplicate-free. */
  lemma {:induction false} WithoutNoDup<T(!new)>(s: seq<T>, x: T)
    requires NoDup(s)
    ensures NoDup(Without(s, x))
  {
    if s != [] {
      WithoutNoDup(s[1..], x);
      var r := Without(s, x);
      if s[0] != x {
        assert r == [s[0]] + Without(s[1..], x);
        assert s[0] !in s[1..];
        forall i, j | 0 <= i < j < |r| ensures r[i] != r[j] {
          if i == 0 { assert r[j] in Without(s[1..], x); }
        }
      }
    }
  }

  /** Removing a present element of a duplicate-free list shortens it by one. */
  lemma WithoutLength<T(!new)>(s: seq<T>, x: T)
    requires NoDup(s) && x in s
    ensures |Without(s, x)| == |s| - 1
  {
    var i :| 0 <= i < |s| && s[i] == x;
    WithoutAt(s, i);
  }

  /** Appending a fresh element keeps a list duplicate-free. */
  lemma AppendNoDup<T(!new)>(s: seq<T>, x: T)
    requires NoDup(s) && x !in s
    ensures NoDup(s + [x])
  {
  }

  /** Counting distributes over concatenation. */
  lemma {:induction false} CountAppend<T(!new)>(a: seq<T>, b: seq<T>, x: T)
    ensures Count(a + b, x) == Count(a, x) + Count(b, x)
  {
    if a != [] {
      assert (a + b)[0] == a[0] && (a + b)[1..] == a[1..] + b;
      CountAppend(a[1..], b, x);
    } else {
      assert a + b == b;
    }
  }

  /** A duplicate-free list holds each of its members exactly once. */
  lemma {:induction false} CountNoDup<T(!new)>(s: seq<T>, x: T)
    requires NoDup(s) && x in s
    ensures Count(s, x) == 1
  {
    if s[0] != x {
      CountNoDup(s[1..], x);
    } else {
      assert x !in s[1..];
    }
  }

  /** Concatenating two duplicate-free lists with no common element gives
      a duplicate-free list. */
  lemma ConcatNoDup<T>(a: seq<T>, b: seq<T>)
    requires NoDup(a) && NoDup(b) && Disjoint(a, b)
    ensures NoDup(a + b)
  {
    var s := a + b;
    forall i, j | 0 <= i < j < |s| ensures s[i] != s[j] {
      if i < |a| && |a| <= j {
        assert s[j] == b[j - |a|];
      }
    }
  }

  /** Two different elements together occur at most once per position. */
  lemma {:induction false} CountTwo<T(!new)>(s: seq<T>, x: T, y: T)
    requires x != y
    ensures Count(s, x) + Count(s, y) <= |s|
  {
    if s != [] {
      CountTwo(s[1..], x, y);
    }
  }
}
