/** Order-preserving sequence combinators: the model's counterpart of boolean-mask
    selection, element-wise mapping and keep-first de-duplication on a table. */
module Seqs {

  import opened Wrappers

  /** `a` can be obtained from `b` by deleting elements, without reordering. */
  predicate IsSubseq<T(==,!new)>(a: seq<T>, b: seq<T>)
    decreases |b|
  {
    || a == []
    || (b != [] && ((a[0] == b[0] && IsSubseq(a[1..], b[1..])) || IsSubseq(a, b[1..])))
  }

  /** The elements of `s` that satisfy `p`, in their original order. */
  function Filter<T(==,!new)>(p: T -> bool, s: seq<T>): (r: seq<T>)
    ensures |r| <= |s|
    ensures forall x :: x in r <==> x in s && p(x)
  {
    if s == [] then []
    else
      assert s == [s[0]] + s[1..];
      if p(s[0]) then [s[0]] + Filter(p, s[1..]) else Filter(p, s[1..])
  }

  /** Filtering keeps every occurrence of a selected element and none of the others. */
  lemma {:induction false} FilterCounts<T(!new)>(p: T -> bool, s: seq<T>)
    ensures forall x :: multiset(Filter(p, s))[x] == if p(x) then multiset(s)[x] else 0
  {
    if s != [] {
      FilterCounts(p, s[1..]);
      assert s == [s[0]] + s[1..];
    }
  }

  /** `f` applied to every element of `s`. */
  function Map<T, U>(f: T -> U, s: seq<T>): (r: seq<U>)
    ensures |r| == |s|
    ensures forall i :: 0 <= i < |s| ==> r[i] == f(s[i])
  {
    seq(|s|, i requires 0 <= i < |s| => f(s[i]))
  }

  /** The keys that occur in `s`. */
  function KeySet<T(==,!new), K>(key: T -> K, s: seq<T>): set<K>
  {
    set x | x in s :: key(x)
  }

  /** The first element of `s` whose key is `k`, if there is one. */
  function FirstWith<T(==,!new), K(==)>(key: T -> K, s: seq<T>, k: K): (r: Option<T>)
    ensures r.Some? ==> r.value in s && key(r.value) == k
    ensures r.None? <==> k !in KeySet(key, s)
  {
    if s == [] then None
    else if key(s[0]) == k then Some(s[0])
    else
      assert KeySet(key, s) == {key(s[0])} + KeySet(key, s[1..]) by {
        assert s == [s[0]] + s[1..];
      }
      FirstWith(key, s[1..], k)
  }

  /** Keep-first de-duplication by `key`: an element survives exactly when no earlier
      element has the same key. */
  function FirstWins<T(==,!new), K(==)>(key: T -> K, s: seq<T>): (r: seq<T>)
    ensures IsSubseq(r, s)
    ensures forall x :: x in r ==> x in s
    ensures forall i, j :: 0 <= i < j < |r| ==> key(r[i]) != key(r[j])
    ensures KeySet(key, r) == KeySet(key, s)
    ensures forall x :: x in r ==> FirstWith(key, s, key(x)) == Some(x)
    decreases |s|
  {
    if s == [] then []
    else
      var k := key(s[0]);
      var others := Filter((y: T) => key(y) != k, s[1..]);
      var rest := FirstWins(key, others);
      FirstWinsStep(key, s, others, rest);
      [s[0]] + rest
  }

  /** The inductive step of FirstWins: prepending the head to the de-duplicated tail
      of the elements whose key differs from the head's. */
  lemma FirstWinsStep<T(!new), K>(key: T -> K, s: seq<T>, others: seq<T>, rest: seq<T>)
    requires s != []
    requires others == Filter((y: T) => key(y) != key(s[0]), s[1..])
    requires IsSubseq(rest, others)
    requires forall x :: x in rest ==> x in others
    requires forall i, j :: 0 <= i < j < |rest| ==> key(rest[i]) != key(rest[j])
    requires KeySet(key, rest) == KeySet(key, others)
    requires forall x :: x in rest ==> FirstWith(key, others, key(x)) == Some(x)
    ensures IsSubseq([s[0]] + rest, s)
    ensures forall x :: x in [s[0]] + rest ==> x in s
    ensures forall i, j :: 0 <= i < j < |[s[0]] + rest| ==> key(([s[0]] + rest)[i]) != key(([s[0]] + rest)[j])
    ensures KeySet(key, [s[0]] + rest) == KeySet(key, s)
    ensures forall x :: x in [s[0]] + rest ==> FirstWith(key, s, key(x)) == Some(x)
  {
    var k := key(s[0]);
    var r := [s[0]] + rest;
    FilterIsSubseq((y: T) => key(y) != k, s[1..]);
    SubseqTrans(rest, others, s[1..]);
    assert r[1..] == rest;
    assert s == [s[0]] + s[1..];
    forall i, j | 0 <= i < j < |r|
      ensures key(r[i]) != key(r[j])
    {
      if i == 0 {
        assert r[j] == rest[j - 1];
        assert rest[j - 1] in others;
      } else {
        assert r[i] == rest[i - 1] && r[j] == rest[j - 1];
      }
    }
    assert KeySet(key, s) == {k} + KeySet(key, s[1..]);
    assert KeySet(key, r) == {k} + KeySet(key, rest);
    forall c | c in KeySet(key, s[1..])
      ensures c in {k} + KeySet(key, others)
    {
      var y :| y in s[1..] && key(y) == c;
      if c != k {
        assert y in others;
      }
    }
    forall x | x in r
      ensures FirstWith(key, s, key(x)) == Some(x)
    {
      if x != s[0] {
        assert x in rest;
        assert key(x) != k;
        FirstWithFilter(key, (y: T) => key(y) != k, s[1..], key(x));
      }
    }
  }

  /** No element before position `k` has the key of `s[k]`. */
  predicate IsFirstAt<T, K(==)>(key: T -> K, s: seq<T>, k: int)
    requires 0 <= k < |s|
  {
    forall j :: 0 <= j < k ==> key(s[j]) != key(s[k])
  }

  /** The elements `s[i]`, for increasing `i` from `k`, whose key no earlier element has. */
  function FirstsFrom<T, K(==)>(key: T -> K, s: seq<T>, k: nat): seq<T>
    requires k <= |s|
    decreases |s| - k
  {
    if k == |s| then []
    else (if IsFirstAt(key, s, k) then [s[k]] else []) + FirstsFrom(key, s, k + 1)
  }

  /** The reference for keep-first de-duplication, by position: `s[k]` survives exactly when
      no `s[j]` with `j < k` has its key, and survivors keep their order. */
  function Firsts<T, K(==)>(key: T -> K, s: seq<T>): seq<T>
  {
    FirstsFrom(key, s, 0)
  }

  /** Keep-first de-duplication scanning left to right, with the keys already met. */
  function FirstsUnseen<T, K(==)>(key: T -> K, s: seq<T>, seen: set<K>): seq<T>
  {
    if s == [] then []
    else if key(s[0]) in seen then FirstsUnseen(key, s[1..], seen)
    else [s[0]] + FirstsUnseen(key, s[1..], seen + {key(s[0])})
  }

  /** The elements whose key is not in `seen`, as a filter. */
  function NotSeen<T, K>(key: T -> K, seen: set<K>): T -> bool
  {
    (y: T) => key(y) !in seen
  }

  /** De-duplicating the elements whose key has not been met is the scan from those keys. */
  lemma {:induction false} FirstWinsUnseen<T(!new), K>(key: T -> K, s: seq<T>, seen: set<K>)
    ensures FirstWins(key, Filter(NotSeen(key, seen), s)) == FirstsUnseen(key, s, seen)
    decreases |s|
  {
    if s != [] {
      var x, t := s[0], s[1..];
      var p := NotSeen(key, seen);
      assert s == [x] + t;
      FilterCons(p, x, t);
      if key(x) in seen {
        FirstWinsUnseen(key, t, seen);
      } else {
        var f := Filter(p, s);
        assert f == [x] + Filter(p, t);
        assert f[0] == x && f[1..] == Filter(p, t);
        var seen' := seen + {key(x)};
        FilterFuse(p, (y: T) => key(y) != key(x), NotSeen(key, seen'), t);
        FirstWinsUnseen(key, t, seen');
      }
    }
  }

  /** The positional reference from `k` on is the scan of `s[k..]` from the keys of `s[..k]`. */
  lemma {:induction false} FirstsFromUnseen<T(!new), K>(key: T -> K, s: seq<T>, k: nat)
    requires k <= |s|
    ensures FirstsFrom(key, s, k) == FirstsUnseen(key, s[k..], KeySet(key, s[..k]))
    decreases |s| - k
  {
    if k < |s| {
      FirstsFromUnseen(key, s, k + 1);
      assert s[k..][0] == s[k] && s[k..][1..] == s[k + 1..];
      assert s[..k + 1] == s[..k] + [s[k]];
      assert KeySet(key, s[..k + 1]) == KeySet(key, s[..k]) + {key(s[k])};
      assert IsFirstAt(key, s, k) <==> key(s[k]) !in KeySet(key, s[..k]) by {
        if key(s[k]) in KeySet(key, s[..k]) {
          var y :| y in s[..k] && key(y) == key(s[k]);
          var j :| 0 <= j < k && s[..k][j] == y;
          assert key(s[j]) == key(s[k]);
        } else {
          forall j | 0 <= j < k ensures key(s[j]) != key(s[k]) {
            assert s[j] == s[..k][j];
          }
        }
      }
      var seen := KeySet(key, s[..k]);
      if IsFirstAt(key, s, k) {
        assert FirstsFrom(key, s, k) == [s[k]] + FirstsFrom(key, s, k + 1);
        assert FirstsUnseen(key, s[k..], seen) == [s[k]] + FirstsUnseen(key, s[k + 1..], seen + {key(s[k])});
      } else {
        assert FirstsFrom(key, s, k) == FirstsFrom(key, s, k + 1);
        assert seen + {key(s[k])} == seen;
      }
    } else {
      assert s[k..] == [];
    }
  }

  /** Keep-first de-duplication equals its positional reference: the survivors are exactly
      the elements no earlier element shares a key with, in their original order. */
  lemma FirstWinsIsFirsts<T(!new), K>(key: T -> K, s: seq<T>)
    ensures FirstWins(key, s) == Firsts(key, s)
  {
    var none: set<K> := {};
    FirstWinsUnseen(key, s, none);
    FilterKeepsAll(NotSeen(key, none), s);
    FirstsFromUnseen(key, s, 0);
    assert s[..0] == [] && s[0..] == s;
    assert KeySet(key, s[..0]) == none;
  }

  /** Removing elements whose key is not `k` does not change the first element with key `k`. */
  lemma {:induction false} FirstWithFilter<T(!new), K>(key: T -> K, p: T -> bool, s: seq<T>, k: K)
    requires forall y :: key(y) == k ==> p(y)
    ensures FirstWith(key, Filter(p, s), k) == FirstWith(key, s, k)
  {
    if s != [] {
      FirstWithFilter(key, p, s[1..], k);
      if p(s[0]) {
        assert Filter(p, s) == [s[0]] + Filter(p, s[1..]);
        assert ([s[0]] + Filter(p, s[1..]))[1..] == Filter(p, s[1..]);
      }
    }
  }

  lemma {:induction false} FilterIsSubseq<T(!new)>(p: T -> bool, s: seq<T>)
    ensures IsSubseq(Filter(p, s), s)
  {
    if s != [] {
      FilterIsSubseq(p, s[1..]);
      if p(s[0]) {
        assert Filter(p, s)[1..] == Filter(p, s[1..]);
      } else {
        SubseqOfTail(Filter(p, s), s);
      }
    }
  }

  /** A subsequence of the tail is a subsequence of the whole. */
  lemma SubseqOfTail<T(!new)>(a: seq<T>, b: seq<T>)
    requires b != [] && IsSubseq(a, b[1..])
    ensures IsSubseq(a, b)
  {
  }

  lemma {:induction false} SubseqTrans<T(!new)>(a: seq<T>, b: seq<T>, c: seq<T>)
    requires IsSubseq(a, b) && IsSubseq(b, c)
    ensures IsSubseq(a, c)
    decreases |c|
  {
    if a != [] {
      assert b != [] && c != [];
      if b[0] == c[0] && IsSubseq(b[1..], c[1..]) {
        if a[0] == b[0] && IsSubseq(a[1..], b[1..]) {
          SubseqTrans(a[1..], b[1..], c[1..]);
        } else {
          SubseqTrans(a, b[1..], c[1..]);
        }
      } else {
        SubseqTrans(a, b, c[1..]);
      }
    }
  }

  /** Every element of a subsequence occurs in the sequence. */
  lemma {:induction false} SubseqMembers<T(!new)>(a: seq<T>, b: seq<T>)
    requires IsSubseq(a, b)
    ensures forall x :: x in a ==> x in b
    decreases |b|
  {
    if a != [] {
      if a[0] == b[0] && IsSubseq(a[1..], b[1..]) {
        SubseqMembers(a[1..], b[1..]);
        assert a == [a[0]] + a[1..];
        assert b == [b[0]] + b[1..];
      } else {
        SubseqMembers(a, b[1..]);
        assert b == [b[0]] + b[1..];
      }
    }
  }

  /** Filtering with `p` and then with `q` selects what one filter with their
      conjunction selects. */
  lemma {:induction false} FilterFuse<T(!new)>(p: T -> bool, q: T -> bool, pq: T -> bool, s: seq<T>)
    requires forall x :: pq(x) == (p(x) && q(x))
    ensures Filter(q, Filter(p, s)) == Filter(pq, s)
  {
    if s != [] {
      FilterFuse(p, q, pq, s[1..]);
      if p(s[0]) {
        assert Filter(p, s) == [s[0]] + Filter(p, s[1..]);
        assert ([s[0]] + Filter(p, s[1..]))[1..] == Filter(p, s[1..]);
      }
    }
  }

  /** Two predicates that agree on the elements of `s` select the same elements. */
  lemma {:induction false} FilterCongruent<T(!new)>(p: T -> bool, q: T -> bool, s: seq<T>)
    requires forall x :: x in s ==> p(x) == q(x)
    ensures Filter(p, s) == Filter(q, s)
  {
    if s != [] {
      assert s == [s[0]] + s[1..];
      FilterCongruent(p, q, s[1..]);
    }
  }

  /** A filter that every element passes keeps the whole sequence. */
  lemma {:induction false} FilterKeepsAll<T(!new)>(p: T -> bool, s: seq<T>)
    requires forall x :: x in s ==> p(x)
    ensures Filter(p, s) == s
  {
    if s != [] {
      assert s == [s[0]] + s[1..];
      FilterKeepsAll(p, s[1..]);
    }
  }

  /** A predicate and its negation split a sequence into two parts whose lengths add up. */
  lemma {:induction false} FilterComplement<T(!new)>(p: T -> bool, q: T -> bool, s: seq<T>)
    requires forall x :: q(x) == !p(x)
    ensures |Filter(p, s)| + |Filter(q, s)| == |s|
  {
    if s != [] {
      FilterComplement(p, q, s[1..]);
    }
  }

  /** One filtering step: the head is kept exactly when it satisfies `p`. */
  lemma FilterCons<T(!new)>(p: T -> bool, x: T, s: seq<T>)
    ensures Filter(p, [x] + s) == if p(x) then [x] + Filter(p, s) else Filter(p, s)
  {
    assert ([x] + s)[1..] == s;
  }

  /** Filtering distributes over concatenation. */
  lemma {:induction false} FilterAppend<T(!new)>(p: T -> bool, a: seq<T>, b: seq<T>)
    ensures Filter(p, a + b) == Filter(p, a) + Filter(p, b)
  {
    if a == [] {
      assert a + b == b;
    } else {
      assert (a + b)[1..] == a[1..] + b;
      FilterAppend(p, a[1..], b);
    }
  }

  /** `f` applied to every element, failing with the first failure in order, as a loop
      that raises on the first bad element does. */
  function MapResult<T, U, E>(f: T -> Result<U, E>, s: seq<T>): (r: Result<seq<U>, E>)
    ensures r.Success? <==> forall i :: 0 <= i < |s| ==> f(s[i]).Success?
    ensures r.Success? ==> |r.value| == |s| && forall i :: 0 <= i < |s| ==> r.value[i] == f(s[i]).value
    ensures r.Failure? ==> exists i :: 0 <= i < |s| && f(s[i]).Failure? && r.error == f(s[i]).error
                                       && forall j :: 0 <= j < i ==> f(s[j]).Success?
  {
    if s == [] then Success([])
    else
      match f(s[0])
      case Failure(e) => Failure(e)
      case Success(y) =>
        match MapResult(f, s[1..])
        case Failure(e) =>
          ghost var i :| 0 <= i < |s[1..]| && f(s[1..][i]).Failure? && e == f(s[1..][i]).error
                         && forall j :: 0 <= j < i ==> f(s[1..][j]).Success?;
          assert f(s[i + 1]).Failure? && forall j :: 0 <= j < i + 1 ==> f(s[j]).Success? by {
            forall j | 0 <= j < i + 1 ensures f(s[j]).Success? {
              if j > 0 { assert s[j] == s[1..][j - 1]; }
            }
          }
          Failure(e)
        case Success(ys) =>
          assert forall i :: 0 < i < |s| ==> s[i] == s[1..][i - 1];
          Success([y] + ys)
  }
}
