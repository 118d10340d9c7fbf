/** The eager operations of `org.tbull.util.Collections`: `grep`, `grepCount` and
    `map`. Each input source is a sequence; the `Iterable...` and `Iterator...`
    overloads behave alike here (an `Iterable` is read through a fresh iterator, an
    `Iterator` from where it stands), so each family is modelled once. */
module CollectionsEager {
  import opened JavaLang
  import opened CollectionsSpec

  /** One more element of source `l` read after `done`. */
  lemma FilterStep<E>(accept: E -> bool, done: seq<E>, l: seq<E>, j: nat)
    requires j < |l|
    ensures Filter(accept, done + l[..j + 1]) == Filter(accept, done + l[..j]) + (if accept(l[j]) then [l[j]] else [])
  {
    assert done + l[..j + 1] == (done + l[..j]) + [l[j]];
    FilterAppend(accept, done + l[..j], [l[j]]);
  }

  lemma CountStep<E>(accept: E -> bool, done: seq<E>, l: seq<E>, j: nat)
    requires j < |l|
    ensures CountIf(accept, done + l[..j + 1]) == CountIf(accept, done + l[..j]) + (if accept(l[j]) then 1 else 0)
  {
    assert done + l[..j + 1] == (done + l[..j]) + [l[j]];
    CountAppend(accept, done + l[..j], [l[j]]);
  }

  lemma MapStep<I, O>(m: I -> O, done: seq<I>, l: seq<I>, j: nat)
    requires j < |l|
    ensures MapSeq(m, done + l[..j + 1]) == MapSeq(m, done + l[..j]) + [m(l[j])]
  {
    assert done + l[..j + 1] == (done + l[..j]) + [l[j]];
    MapAppend(m, done + l[..j], [l[j]]);
  }

  /** `grep(dest, grepper, lists...)`: appends every accepted element to `dest`, in
      source order, and returns `dest` itself. */
  method GrepInto<E>(dest: List<E>, accept: E -> bool, sources: seq<seq<E>>) returns (r: List<E>)
    modifies dest
    ensures r == dest
    ensures dest.elements == old(dest.elements) + Filter(accept, Concat(sources))
  {
    var k := 0;
    while k < |sources|
      invariant 0 <= k <= |sources|
      invariant dest.elements == old(dest.elements) + Filter(accept, Concat(sources[..k]))
    {
      var l := sources[k];
      var j := 0;
      ghost var done := Concat(sources[..k]);
      assert done + l[..j] == done;
      while j < |l|
        invariant 0 <= j <= |l|
        invariant dest.elements == old(dest.elements) + Filter(accept, done + l[..j])
      {
        var e := l[j];
        FilterStep(accept, done, l, j);
        if accept(e) {
          dest.Add(e);
        }
        j := j + 1;
      }
      assert l[..j] == l;
      ConcatSnoc(sources, k);
      k := k + 1;
    }
    assert sources[..k] == sources;
    r := dest;
  }

  /** `grep(grepper, lists...)`: the accepted elements, in source order, in a new list. */
  method Grep<E>(accept: E -> bool, sources: seq<seq<E>>) returns (r: seq<E>)
    ensures r == Filter(accept, Concat(sources))
  {
    var dest := new List<E>();
    var _ := GrepInto(dest, accept, sources);
    r := dest.elements;
  }

  /** `grepCount(grepper, lists...)`: how many elements the grepper accepts. */
  method GrepCount<E>(accept: E -> bool, sources: seq<seq<E>>) returns (count: nat)
    ensures count == CountIf(accept, Concat(sources))
  {
    count := 0;
    var k := 0;
    while k < |sources|
      invariant 0 <= k <= |sources|
      invariant count == CountIf(accept, Concat(sources[..k]))
    {
      var l := sources[k];
      var j := 0;
      ghost var done := Concat(sources[..k]);
      assert done + l[..j] == done;
      while j < |l|
        invariant 0 <= j <= |l|
        invariant count == CountIf(accept, done + l[..j])
      {
        var e := l[j];
        CountStep(accept, done, l, j);
        if accept(e) {
          count := count + 1;
        }
        j := j + 1;
      }
      assert l[..j] == l;
      ConcatSnoc(sources, k);
      k := k + 1;
    }
    assert sources[..k] == sources;
  }

  /** `map(dest, mapper, lists...)`: appends the image of every element to `dest`, in
      source order, and returns `dest` itself. */
  method MapInto<I, O>(dest: List<O>, m: I -> O, sources: seq<seq<I>>) returns (r: List<O>)
    modifies dest
    ensures r == dest
    ensures dest.elements == old(dest.elements) + MapSeq(m, Concat(sources))
  {
    var k := 0;
    while k < |sources|
      invariant 0 <= k <= |sources|
      invariant dest.elements == old(dest.elements) + MapSeq(m, Concat(sources[..k]))
    {
      var l := sources[k];
      var j := 0;
      ghost var done := Concat(sources[..k]);
      assert done + l[..j] == done;
      while j < |l|
        invariant 0 <= j <= |l|
        invariant dest.elements == old(dest.elements) + MapSeq(m, done + l[..j])
      {
        var e := l[j];
        MapStep(m, done, l, j);
        dest.Add(m(e));
        j := j + 1;
      }
      assert l[..j] == l;
      ConcatSnoc(sources, k);
      k := k + 1;
    }
    assert sources[..k] == sources;
    r := dest;
  }

  /** `map(mapper, lists...)`: the images of all elements, in source order, in a new
      list; one output per input element. */
  method Map<I, O>(m: I -> O, sources: seq<seq<I>>) returns (r: seq<O>)
    ensures r == MapSeq(m, Concat(sources))
    ensures |r| == |Concat(sources)|
  {
    var dest := new List<O>();
    var _ := MapInto(dest, m, sources);
    r := dest.elements;
    MapElements(m, Concat(sources));
  }
}
