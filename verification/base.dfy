/** Shared vocabulary for both board versions: identifiers, optional values
    with JavaScript truthiness, and the array built-ins the board code uses
    (`findIndex`, `splice`), modelled over immutable sequences. */
module Base {

  /** Task and column identifiers. The board compares them with `===`. */
  type Id = string

  datatype Option<T> = None | Some(value: T)

  /** JavaScript truthiness of a possibly-`undefined` identifier: both
      `undefined` and the empty string are falsy. */
  predicate Truthy(o: Option<Id>)
    ensures o.None? ==> !Truthy(o)
    ensures o.Some? ==> (Truthy(o) <==> |o.value| != 0)
  {
    o.Some? && o.value != ""
  }

  /** `Array.prototype.findIndex`: the first index whose element satisfies
      `p`, or -1 when there is none. */
  function FindIndex<T>(s: seq<T>, p: T -> bool): (r: int)
    ensures -1 <= r < |s|
    ensures r == -1 <==> forall i :: 0 <= i < |s| ==> !p(s[i])
    ensures 0 <= r ==> p(s[r]) && forall i :: 0 <= i < r ==> !p(s[i])
  {
    if |s| == 0 then -1
    else if p(s[0]) then 0
    else
      var r := FindIndex(s[1..], p);
      if r < 0 then -1 else r + 1
  }

  /** `s.splice(k, 1)` on a copy: the sequence without its element at `k`. */
  function RemoveAt<T>(s: seq<T>, k: nat): (r: seq<T>)
    requires k < |s|
    ensures |r| == |s| - 1
    ensures forall i :: 0 <= i < k ==> r[i] == s[i]
    ensures forall i :: k <= i < |r| ==> r[i] == s[i + 1]
    ensures multiset(r) + multiset{s[k]} == multiset(s)
  {
    assert s == s[..k] + [s[k]] + s[k+1..];
    s[..k] + s[k+1..]
  }

  /** The position at which `splice(start, …)` acts on an array of length
      `len`: a negative start counts back from the end (and stops at 0), a
      start past the end is the end. */
  function SpliceStart(len: nat, start: int): (k: nat)
    ensures k <= len
    ensures 0 <= start <= len ==> k == start
    ensures start > len ==> k == len
    ensures start < 0 && len + start >= 0 ==> k + (-start) == len
    ensures start < 0 && len + start < 0 ==> k == 0
  {
    if start < 0 then (if len + start < 0 then 0 else len + start)
    else if start > len then len
    else start
  }

  /** `s.splice(start, 0, x)` on a copy: `x` inserted at the position
      `SpliceStart` selects, everything else kept in order around it. */
  function SpliceInsert<T>(s: seq<T>, start: int, x: T): (r: seq<T>)
    ensures |r| == |s| + 1
    ensures var k := SpliceStart(|s|, start);
            r[k] == x && r[..k] == s[..k] && r[k+1..] == s[k..]
    ensures multiset(r) == multiset(s) + multiset{x}
  {
    var k := SpliceStart(|s|, start);
    assert s == s[..k] + s[k..];
    s[..k] + [x] + s[k..]
  }

  /** `Array.prototype.map` with a total function. */
  function MapSeq<A, B>(s: seq<A>, f: A -> B): (r: seq<B>)
    ensures |r| == |s|
    ensures forall i :: 0 <= i < |s| ==> r[i] == f(s[i])
  {
    seq(|s|, i requires 0 <= i < |s| => f(s[i]))
  }

  lemma MapConcat<A, B>(s: seq<A>, t: seq<A>, f: A -> B)
    ensures MapSeq(s + t, f) == MapSeq(s, f) + MapSeq(t, f)
  {
  }

  /** Mapping commutes with removing one element, so the mapped multiset
      loses exactly the image of the removed element. */
  lemma MapRemoveAt<A, B>(s: seq<A>, k: nat, f: A -> B)
    requires k < |s|
    ensures MapSeq(RemoveAt(s, k), f) == RemoveAt(MapSeq(s, f), k)
    ensures multiset(MapSeq(RemoveAt(s, k), f)) + multiset{f(s[k])} == multiset(MapSeq(s, f))
  {
    var l, r := MapSeq(RemoveAt(s, k), f), RemoveAt(MapSeq(s, f), k);
    assert |l| == |r|;
    forall i | 0 <= i < |l|
      ensures l[i] == r[i]
    {
      if i < k {
        assert l[i] == f(s[i]);
      } else {
        assert l[i] == f(s[i + 1]);
      }
    }
  }

  /** Mapping commutes with `splice` insertion, so the mapped multiset gains
      exactly the image of the inserted element. */
  lemma MapSpliceInsert<A, B>(s: seq<A>, start: int, x: A, f: A -> B)
    ensures MapSeq(SpliceInsert(s, start, x), f) == SpliceInsert(MapSeq(s, f), start, f(x))
    ensures multiset(MapSeq(SpliceInsert(s, start, x), f)) == multiset(MapSeq(s, f)) + multiset{f(x)}
  {
    var k := SpliceStart(|s|, start);
    var l, r := MapSeq(SpliceInsert(s, start, x), f), SpliceInsert(MapSeq(s, f), start, f(x));
    assert |l| == |r|;
    forall i | 0 <= i < |l|
      ensures l[i] == r[i]
    {
      var ins := SpliceInsert(s, start, x);
      var mapped := MapSeq(s, f);
      if i < k {
        assert ins[i] == ins[..k][i] == s[..k][i];
        assert r[i] == r[..k][i] == mapped[..k][i];
      } else if i == k {
      } else {
        assert ins[i] == ins[k+1..][i - k - 1] == s[k..][i - k - 1];
        assert r[i] == r[k+1..][i - k - 1] == mapped[k..][i - k - 1];
      }
    }
  }

  /** Two distinct positions holding the same value give it multiplicity two. */
  lemma {:induction false} DuplicateCount<T>(s: seq<T>, i: nat, j: nat)
    requires i < j < |s| && s[i] == s[j]
    ensures multiset(s)[s[i]] >= 2
  {
    assert s == s[..i] + [s[i]] + s[i+1..j] + [s[j]] + s[j+1..];
    assert multiset(s) == multiset(s[..i]) + multiset{s[i]} + multiset(s[i+1..j])
                          + multiset{s[j]} + multiset(s[j+1..]);
  }

  /** No value occurs at two positions of `s`. */
  predicate NoRepeats<T(==)>(s: seq<T>)
  {
    forall i, j :: 0 <= i < j < |s| ==> s[i] != s[j]
  }

  /** A sequence without repeated elements holds each value at most once. */
  lemma {:induction false} DistinctCount<T>(s: seq<T>)
    requires NoRepeats(s)
    ensures forall x :: multiset(s)[x] <= 1
  {
    if |s| > 0 {
      var t := s[1..];
      assert NoRepeats(t) by {
        forall i, j | 0 <= i < j < |t|
          ensures t[i] != t[j]
        {
          assert t[i] == s[i + 1] && t[j] == s[j + 1];
        }
      }
      DistinctCount(t);
      assert s[0] !in t by {
        forall i | 0 <= i < |t|
          ensures t[i] != s[0]
        {
          assert t[i] == s[i + 1];
        }
      }
      assert s == [s[0]] + t;
      assert multiset(s) == multiset{s[0]} + multiset(t);
    }
  }

  /** Multiset bookkeeping of a move between two parts of a whole: what the
      first update takes out of the source comes back in the destination. */
  lemma MultisetSwap<T>(a: multiset<T>, a1: multiset<T>, b: multiset<T>, s: multiset<T>, s': multiset<T>,
                        d: multiset<T>, d': multiset<T>, m: multiset<T>)
    requires a1 + s == b + s' && a + d == a1 + d'
    requires s' + m == s && d' == d + m
    ensures a == b
  {
    forall e
      ensures a[e] == b[e]
    {
      assert (a1 + s)[e] == (b + s')[e];
      assert (a + d)[e] == (a1 + d')[e];
      assert (s' + m)[e] == s[e];
      assert d'[e] == (d + m)[e];
    }
  }

  lemma MultisetCancel<T>(a: multiset<T>, b: multiset<T>, x: multiset<T>)
    requires a + x == b + x
    ensures a == b
  {
    forall e
      ensures a[e] == b[e]
    {
      assert (a + x)[e] == (b + x)[e];
    }
  }

  /** Adding the same part on the left keeps a multiset equation. */
  lemma MultisetPrefix<T>(h: multiset<T>, x: multiset<T>, y: multiset<T>, m: multiset<T>, v: multiset<T>)
    requires x + m == y + v
    ensures (h + x) + m == (h + y) + v
  {
    forall e
      ensures ((h + x) + m)[e] == ((h + y) + v)[e]
    {
      assert (x + m)[e] == (y + v)[e];
    }
  }
}
