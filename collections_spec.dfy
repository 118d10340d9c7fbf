/** Specification functions for `org.tbull.util.Collections`: the concatenation of
    the input sources, filtering, counting and mapping, with the laws the eager and
    lazy operations are proved against. */
module CollectionsSpec {

  /** All elements of the sources, sources in the order given, each in its own order. */
  function Concat<E>(sources: seq<seq<E>>): seq<E>
  {
    if sources == [] then [] else sources[0] + Concat(sources[1..])
  }

  /** The elements of `s` that `accept` picks, in their original order. */
  function Filter<E>(accept: E -> bool, s: seq<E>): seq<E>
  {
    if s == [] then [] else (if accept(s[0]) then [s[0]] else []) + Filter(accept, s[1..])
  }

  /** How many elements of `s` `accept` picks. */
  function CountIf<E>(accept: E -> bool, s: seq<E>): nat
  {
    if s == [] then 0 else (if accept(s[0]) then 1 else 0) + CountIf(accept, s[1..])
  }

  /** `m` applied to every element of `s`, in order. */
  function MapSeq<I, O>(m: I -> O, s: seq<I>): seq<O>
  {
    if s == [] then [] else [m(s[0])] + MapSeq(m, s[1..])
  }

  /** No element of `s` is accepted. */
  ghost predicate NoneAccepted<E>(accept: E -> bool, s: seq<E>)
  {
    forall k :: 0 <= k < |s| ==> !accept(s[k])
  }

  lemma {:induction false} ConcatSplit<E>(sources: seq<seq<E>>, k: nat)
    requires k <= |sources|
    ensures Concat(sources[..k]) + Concat(sources[k..]) == Concat(sources)
  {
    if k > 0 {
      ConcatSplit(sources[1..], k - 1);
      assert sources[1..][..k - 1] == sources[1..k];
      assert sources[1..][k - 1..] == sources[k..];
      assert sources[..k][1..] == sources[1..k];
    }
  }

  /** Taking one more source appends that source's elements. */
  lemma ConcatSnoc<E>(sources: seq<seq<E>>, k: nat)
    requires k < |sources|
    ensures Concat(sources[..k + 1]) == Concat(sources[..k]) + sources[k]
  {
    ConcatSplit(sources[..k + 1], k);
    assert sources[..k + 1][..k] == sources[..k];
    assert sources[..k + 1][k..] == [sources[k]];
  }

  /** The sources from index `k` on: source `k` followed by the ones after it. */
  lemma ConcatFrom<E>(sources: seq<seq<E>>, k: nat)
    requires k < |sources|
    ensures Concat(sources[k..]) == sources[k] + Concat(sources[k + 1..])
  {
    assert sources[k..][1..] == sources[k + 1..];
  }

  /** Filtering respects concatenation: a grepper's decision does not depend on
      where an element sits in the input. */
  lemma {:induction false} FilterAppend<E>(accept: E -> bool, a: seq<E>, b: seq<E>)
    ensures Filter(accept, a + b) == Filter(accept, a) + Filter(accept, b)
  {
    if a == [] {
      assert a + b == b;
    } else {
      FilterAppend(accept, a[1..], b);
      assert (a + b)[1..] == a[1..] + b;
    }
  }

  lemma {:induction false} MapAppend<I, O>(m: I -> O, a: seq<I>, b: seq<I>)
    ensures MapSeq(m, a + b) == MapSeq(m, a) + MapSeq(m, b)
  {
    if a == [] {
      assert a + b == b;
    } else {
      MapAppend(m, a[1..], b);
      assert (a + b)[0] == a[0];
      assert (a + b)[1..] == a[1..] + b;
      calc {
        MapSeq(m, a + b);
        [m(a[0])] + MapSeq(m, a[1..] + b);
        [m(a[0])] + (MapSeq(m, a[1..]) + MapSeq(m, b));
      }
    }
  }

  /** The filter result is an order-preserving selection: it keeps exactly the
      accepted elements, each as often as it occurs. */
  lemma {:induction false} FilterContents<E>(accept: E -> bool, s: seq<E>)
    ensures |Filter(accept, s)| <= |s|
    ensures forall k :: 0 <= k < |Filter(accept, s)| ==> accept(Filter(accept, s)[k])
    ensures forall x :: accept(x) ==> multiset(Filter(accept, s))[x] == multiset(s)[x]
  {
    if s != [] {
      FilterContents(accept, s[1..]);
      assert s == [s[0]] + s[1..];
    }
  }

  /** Partition: the elements a grepper picks and the ones its inverse picks together
      are exactly the input, and the two counts add up to the input length. */
  lemma {:induction false} Partition<E>(accept: E -> bool, s: seq<E>)
    ensures multiset(Filter(accept, s)) + multiset(Filter(x => !accept(x), s)) == multiset(s)
    ensures CountIf(accept, s) + CountIf(x => !accept(x), s) == |s|
  {
    if s != [] {
      Partition(accept, s[1..]);
      assert s == [s[0]] + s[1..];
    }
  }

  /** Counting is the length of the filter result. */
  lemma {:induction false} CountIsFilterLength<E>(accept: E -> bool, s: seq<E>)
    ensures CountIf(accept, s) == |Filter(accept, s)|
  {
    if s != [] {
      CountIsFilterLength(accept, s[1..]);
    }
  }

  lemma {:induction false} CountAppend<E>(accept: E -> bool, a: seq<E>, b: seq<E>)
    ensures CountIf(accept, a + b) == CountIf(accept, a) + CountIf(accept, b)
  {
    if a == [] {
      assert a + b == b;
    } else {
      CountAppend(accept, a[1..], b);
      assert (a + b)[1..] == a[1..] + b;
    }
  }

  /** Mapping yields one output per input element, position by position. */
  lemma {:induction false} MapElements<I, O>(m: I -> O, s: seq<I>)
    ensures |MapSeq(m, s)| == |s|
    ensures forall k :: 0 <= k < |s| ==> MapSeq(m, s)[k] == m(s[k])
  {
    if s != [] {
      MapElements(m, s[1..]);
    }
  }

  /** `Mapper.IdentityMapper` maps every input list to itself. */
  lemma {:induction false} IdentityMap<E>(s: seq<E>)
    ensures MapSeq(x => x, s) == s
  {
    if s != [] {
      IdentityMap(s[1..]);
    }
  }

  /** The accept-all grepper copies its input; the reject-all grepper yields nothing. */
  lemma {:induction false} FilterAllOrNothing<E>(s: seq<E>)
    ensures Filter(x => true, s) == s
    ensures Filter(x => false, s) == []
  {
    if s != [] {
      FilterAllOrNothing(s[1..]);
    }
  }

  /** If nothing in `a` is accepted, `a` contributes nothing to the filter result. */
  lemma FilterSkipRejected<E>(accept: E -> bool, a: seq<E>, b: seq<E>)
    requires NoneAccepted(accept, a)
    ensures Filter(accept, a + b) == Filter(accept, b)
  {
    FilterAppend(accept, a, b);
    FilterNoneAccepted(accept, a);
  }

  lemma {:induction false} FilterNoneAccepted<E>(accept: E -> bool, a: seq<E>)
    requires NoneAccepted(accept, a)
    ensures Filter(accept, a) == []
  {
    if a != [] {
      FilterNoneAccepted(accept, a[1..]);
    }
  }
}
