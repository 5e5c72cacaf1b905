/** Sequence operations the board and the store use as library calls:
    `Array.prototype.filter`, `splice` (insert one, remove one), `indexOf`. */
module Seqs {

  function Min(a: int, b: int): int
  {
    if a < b then a else b
  }

  /** `s.filter(p)`: the elements of `s` satisfying `p`, in their order in `s`. */
  function Filter<T(==,!new)>(s: seq<T>, p: T -> bool): (r: seq<T>)
    ensures |r| <= |s|
    ensures forall x :: x in r <==> x in s && p(x)
  {
    if s == [] then [] else (if p(s[0]) then [s[0]] else []) + Filter(s[1..], p)
  }

  /** `a` is obtained from `b` by deleting elements: the relative order is kept. */
  ghost predicate Subseq<T>(a: seq<T>, b: seq<T>)
    decreases |b|
  {
    if a == [] then true
    else if b == [] then false
    else (a[0] == b[0] && Subseq(a[1..], b[1..])) || Subseq(a, b[1..])
  }

  lemma {:induction false} FilterConcat<T(!new)>(a: seq<T>, b: seq<T>, p: T -> bool)
    ensures Filter(a + b, p) == Filter(a, p) + Filter(b, p)
  {
    if a == [] {
      assert a + b == b;
    } else {
      assert (a + b)[1..] == a[1..] + b;
      FilterConcat(a[1..], b, p);
    }
  }

  lemma {:induction false} FilterAll<T(!new)>(s: seq<T>, p: T -> bool)
    requires forall x :: x in s ==> p(x)
    ensures Filter(s, p) == s
  {
    if s != [] {
      FilterAll(s[1..], p);
    }
  }

  lemma {:induction false} FilterNone<T(!new)>(s: seq<T>, p: T -> bool)
    requires forall x :: x in s ==> !p(x)
    ensures Filter(s, p) == []
  {
    if s != [] {
      FilterNone(s[1..], p);
    }
  }

  /** A filter that keeps as many elements as it was given kept all of them. */
  lemma {:induction false} FilterKeepsLength<T(!new)>(s: seq<T>, p: T -> bool)
    requires |Filter(s, p)| == |s|
    ensures Filter(s, p) == s
  {
    if s != [] {
      if p(s[0]) {
        FilterKeepsLength(s[1..], p);
      } else {
        assert false;
      }
    }
  }

  /** The multiplicity of every element after filtering. */
  lemma {:induction false} FilterCount<T(!new)>(s: seq<T>, p: T -> bool, x: T)
    ensures multiset(Filter(s, p))[x] == if p(x) then multiset(s)[x] else 0
  {
    if s != [] {
      FilterCount(s[1..], p, x);
      assert s == [s[0]] + s[1..];
    }
  }

  lemma {:induction false} FilterSubseq<T(!new)>(s: seq<T>, p: T -> bool)
    ensures Subseq(Filter(s, p), s)
  {
    if s != [] {
      FilterSubseq(s[1..], p);
      if p(s[0]) {
        var r := Filter(s, p);
        assert r[0] == s[0] && r[1..] == Filter(s[1..], p);
      } else {
        SubseqExtend(Filter(s[1..], p), s[1..], s[0]);
        assert s == [s[0]] + s[1..];
        assert Filter(s, p) == Filter(s[1..], p);
      }
    }
  }

  lemma {:induction false} SubseqExtend<T>(a: seq<T>, b: seq<T>, x: T)
    requires Subseq(a, b)
    ensures Subseq(a, [x] + b)
  {
    assert ([x] + b)[1..] == b;
  }

  lemma {:induction false} SubseqTrans<T>(a: seq<T>, b: seq<T>, c: seq<T>)
    requires Subseq(a, b) && Subseq(b, c)
    ensures Subseq(a, c)
    decreases |c|
  {
    if a == [] {
    } else if Subseq(b, c[1..]) {
      SubseqTrans(a, b, c[1..]);
    } else {
      assert b[0] == c[0] && Subseq(b[1..], c[1..]);
      if a[0] == b[0] && Subseq(a[1..], b[1..]) {
        SubseqTrans(a[1..], b[1..], c[1..]);
      } else {
        SubseqTrans(a, b[1..], c[1..]);
      }
    }
  }

  lemma {:induction false} SubseqRefl<T>(s: seq<T>)
    ensures Subseq(s, s)
  {
    if s != [] {
      SubseqRefl(s[1..]);
    }
  }

  /** Lengths follow multisets: one element more in the multiset is one more in the sequence. */
  lemma LengthFromMultiset<T>(a: seq<T>, b: seq<T>, x: T)
    requires multiset(a) + multiset{x} == multiset(b)
    ensures |a| + 1 == |b|
  {
    assert |multiset(a) + multiset{x}| == |multiset(b)|;
  }

  /** `s.splice(i, 0, x)`: `x` goes before position `i`, or at the end when `i`
      is at or past the end. Everything before keeps its index, everything after
      moves up by one. */
  function InsertAt<T>(s: seq<T>, i: nat, x: T): (r: seq<T>)
    ensures |r| == |s| + 1
    ensures r[Min(i, |s|)] == x
    ensures r[..Min(i, |s|)] == s[..Min(i, |s|)]
    ensures r[Min(i, |s|) + 1..] == s[Min(i, |s|)..]
  {
    if i < |s| then s[..i] + [x] + s[i..] else s + [x]
  }

  /** After inserting, every element is an old one or the new one. */
  lemma InsertAtMembers<T>(s: seq<T>, i: nat, x: T)
    ensures forall y :: y in InsertAt(s, i, x) ==> y in s || y == x
  {
    InsertAtCount(s, i, x);
    forall y | y in InsertAt(s, i, x) ensures y in s || y == x {
      assert y in multiset(InsertAt(s, i, x));
    }
  }

  /** Inserting adds exactly the one element. */
  lemma InsertAtCount<T>(s: seq<T>, i: nat, x: T)
    ensures multiset(InsertAt(s, i, x)) == multiset(s) + multiset{x}
  {
    var k := Min(i, |s|);
    var r := InsertAt(s, i, x);
    assert s == s[..k] + s[k..];
    assert r == r[..k] + [x] + r[k + 1..];
  }

  /** `s.splice(k, 1)`: the element at `k` leaves, the rest close up. */
  function RemoveAt<T>(s: seq<T>, k: nat): (r: seq<T>)
    requires k < |s|
    ensures |r| == |s| - 1
    ensures r[..k] == s[..k] && r[k..] == s[k + 1..]
  {
    s[..k] + s[k + 1..]
  }

  /** Removing takes away exactly the element at `k`. */
  lemma RemoveAtCount<T>(s: seq<T>, k: nat)
    requires k < |s|
    ensures multiset(RemoveAt(s, k)) == multiset(s) - multiset{s[k]}
  {
    assert s == s[..k] + [s[k]] + s[k + 1..];
  }

  /** `s.push(x)` is `s.splice(|s|, 0, x)`. */
  lemma PushIsInsertAtEnd<T>(s: seq<T>, x: T)
    ensures InsertAt(s, |s|, x) == s + [x]
  {
  }

  /** Inserting an element back where it was removed restores the sequence. */
  lemma RemoveThenInsert<T>(s: seq<T>, k: nat)
    requires k < |s|
    ensures InsertAt(RemoveAt(s, k), k, s[k]) == s
  {
    var r := InsertAt(RemoveAt(s, k), k, s[k]);
    assert r[..k] == s[..k] && r[k + 1..] == s[k + 1..];
    assert s == s[..k] + [s[k]] + s[k + 1..];
    assert r == r[..k] + [r[k]] + r[k + 1..];
  }

  /** Taking an element out and putting it back elsewhere permutes the sequence. */
  lemma MoveWithin<T>(s: seq<T>, from: nat, to: nat)
    requires from < |s| && to < |s|
    ensures multiset(InsertAt(RemoveAt(s, from), to, s[from])) == multiset(s)
    ensures forall x :: x in InsertAt(RemoveAt(s, from), to, s[from]) ==> x in s
  {
    var r := InsertAt(RemoveAt(s, from), to, s[from]);
    RemoveAtCount(s, from);
    InsertAtCount(RemoveAt(s, from), to, s[from]);
    assert multiset(r) == multiset(s);
    forall x | x in r ensures x in s {
      assert x in multiset(r);
    }
  }

  /** `s.indexOf(x)`: the first index holding `x`, or -1. */
  function IndexOf<T(==)>(s: seq<T>, x: T): (k: int)
    ensures -1 <= k < |s|
    ensures k == -1 <==> x !in s
    ensures 0 <= k ==> s[k] == x && x !in s[..k]
  {
    if s == [] then -1
    else if s[0] == x then 0
    else
      var k := IndexOf(s[1..], x);
      if k == -1 then -1
      else
        assert s[..k + 1] == [s[0]] + s[1..][..k];
        k + 1
  }
}
